/** The slice of PuLP the squad selectors use: a maximisation problem over
    binary variables with a linear objective and linear `<=` / `==`
    constraints, built up step by step with `prob += ...`, then solved.

    Variables are numbered 0..numVars-1 and an assignment is a `seq<bool>`
    (a binary variable is 0 or 1, so `bool` is its exact range). A linear
    expression is its dense coefficient vector. The CBC solver that the
    source calls is replaced by an exhaustive search that is proved to return
    an optimal assignment whenever one exists. */
module Lp {

  import opened Common

  datatype Sense = AtMost | Exactly

  /** `coeffs . x <= rhs` or `coeffs . x == rhs`. */
  datatype Constraint = Constraint(coeffs: seq<real>, sense: Sense, rhs: real)

  /** The values of PuLP's `LpStatus` table. */
  datatype Status = Optimal | NotSolved | Infeasible | Unbounded | Undefined

  /** The value of the linear expression `coeffs` under the assignment `x`. */
  function Value(coeffs: seq<real>, x: seq<bool>): real
    requires |coeffs| == |x|
  {
    if |coeffs| == 0 then 0.0 else (if x[0] then coeffs[0] else 0.0) + Value(coeffs[1..], x[1..])
  }

  predicate Holds(k: Constraint, x: seq<bool>) {
    |k.coeffs| == |x| &&
    match k.sense
    case AtMost => Value(k.coeffs, x) <= k.rhs
    case Exactly => Value(k.coeffs, x) == k.rhs
  }

  /** `x` satisfies every constraint of `cs`. */
  predicate Feasible(cs: seq<Constraint>, x: seq<bool>) {
    forall i :: 0 <= i < |cs| ==> Holds(cs[i], x)
  }

  /** A problem's constraint list is the concatenation of the blocks added to
      it; an assignment satisfies the list when it satisfies every block. */
  lemma FeasibleAppend(a: seq<Constraint>, b: seq<Constraint>, x: seq<bool>)
    ensures Feasible(a + b, x) <==> Feasible(a, x) && Feasible(b, x)
  {
    if Feasible(a, x) && Feasible(b, x) {
      forall i | 0 <= i < |a + b| ensures Holds((a + b)[i], x) {
        if i < |a| { assert (a + b)[i] == a[i]; } else { assert (a + b)[i] == b[i - |a|]; }
      }
    }
    if Feasible(a + b, x) {
      forall i | 0 <= i < |a| ensures Holds(a[i], x) { assert (a + b)[i] == a[i]; }
      forall i | 0 <= i < |b| ensures Holds(b[i], x) { assert (a + b)[|a| + i] == b[i]; }
    }
  }

  /** `x` is a feasible assignment of `n` variables and no feasible
      assignment has a strictly greater objective value. */
  ghost predicate IsOptimal(n: nat, objective: seq<real>, cs: seq<Constraint>, x: seq<bool>)
    requires |objective| == n
  {
    |x| == n && Feasible(cs, x) &&
    forall y :: |y| == n && Feasible(cs, y) ==> Value(objective, y) <= Value(objective, x)
  }

  /** The best feasible completion of `prefix` to `n` variables, or None when
      no completion is feasible. Ties go to the completion found first. */
  function BestCompletion(n: nat, objective: seq<real>, cs: seq<Constraint>, prefix: seq<bool>): (r: Option<seq<bool>>)
    requires |objective| == n && |prefix| <= n
    ensures r.Some? ==> |r.value| == n && r.value[..|prefix|] == prefix && Feasible(cs, r.value)
    decreases n - |prefix|
  {
    if |prefix| == n then
      if Feasible(cs, prefix) then Some(prefix) else None
    else
      var off := BestCompletion(n, objective, cs, prefix + [false]);
      var on := BestCompletion(n, objective, cs, prefix + [true]);
      if on.None? then off
      else if off.None? then on
      else if Value(objective, on.value) > Value(objective, off.value) then on
      else off
  }

  /** Every feasible completion of `prefix` is matched or beaten by the one
      the search returns. */
  lemma {:induction false} BestCompletionIsBest(n: nat, objective: seq<real>, cs: seq<Constraint>, prefix: seq<bool>, y: seq<bool>)
    requires |objective| == n && |prefix| <= n
    requires |y| == n && y[..|prefix|] == prefix && Feasible(cs, y)
    ensures BestCompletion(n, objective, cs, prefix).Some?
    ensures Value(objective, y) <= Value(objective, BestCompletion(n, objective, cs, prefix).value)
    decreases n - |prefix|
  {
    if |prefix| < n {
      var next := prefix + [y[|prefix|]];
      assert y[..|next|] == next;
      BestCompletionIsBest(n, objective, cs, next, y);
      if y[|prefix|] {
        assert next == prefix + [true];
      } else {
        assert next == prefix + [false];
      }
    } else {
      assert y == prefix;
    }
  }

  /** The exhaustive search is exact: it finds an optimal assignment exactly
      when a feasible one exists. */
  lemma SearchIsExact(n: nat, objective: seq<real>, cs: seq<Constraint>)
    requires |objective| == n
    ensures var r := BestCompletion(n, objective, cs, []);
      (r.Some? ==> IsOptimal(n, objective, cs, r.value)) &&
      (r.None? ==> forall y :: |y| == n ==> !Feasible(cs, y))
  {
    var r := BestCompletion(n, objective, cs, []);
    forall y | |y| == n && Feasible(cs, y)
      ensures r.Some? && Value(objective, y) <= Value(objective, r.value)
    {
      assert y[..0] == [];
      BestCompletionIsBest(n, objective, cs, [], y);
    }
  }

  /** `LpProblem(name, LpMaximize)` with one binary variable per index. */
  class LpProblem {
    const numVars: nat
    var objective: seq<real>
    var constraints: seq<Constraint>

    constructor (n: nat)
      ensures numVars == n && objective == seq(n, _ => 0.0) && constraints == []
    {
      numVars := n;
      objective := seq(n, _ => 0.0);
      constraints := [];
    }

    /** `prob += lpSum(...)`: sets the expression to maximise. */
    method SetObjective(coeffs: seq<real>)
      requires |coeffs| == numVars
      modifies this
      ensures objective == coeffs && constraints == old(constraints)
    {
      objective := coeffs;
    }

    /** `prob += <constraint>`: appends one constraint. */
    method AddConstraint(k: Constraint)
      modifies this
      ensures constraints == old(constraints) + [k] && objective == old(objective)
    {
      constraints := constraints + [k];
    }

    /** `prob.solve(...)`. The search answers `Optimal` with an optimal
        assignment, or `Infeasible` when no assignment satisfies every
        constraint; CBC's other outcomes (`Not Solved`, `Undefined`) do not
        arise in an exhaustive search. */
    method Solve() returns (status: Status, x: seq<bool>)
      requires |objective| == numVars
      ensures status == Optimal || status == Infeasible
      ensures status == Optimal ==> IsOptimal(numVars, objective, constraints, x)
      ensures status == Infeasible ==> forall y :: |y| == numVars ==> !Feasible(constraints, y)
    {
      SearchIsExact(numVars, objective, constraints);
      var r := BestCompletion(numVars, objective, constraints, []);
      if r.Some? {
        status, x := Optimal, r.value;
      } else {
        status, x := Infeasible, [];
      }
    }
  }
}
