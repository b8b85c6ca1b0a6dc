/** The squad-selection rule shared by both versions of `select_fpl_squad`:
    one binary flag per player, maximise the summed metric, total cost within
    the budget, an exact count per listed position, and at most three players
    per team. The team key is a name in the current version and a numeric id
    in the archived one, hence the type parameter `T`.

    The rule is stated twice and the two are proved to agree: once directly
    on the chosen players (`SquadFeasible`, `SquadOptimal`), once as the 0/1
    programme that the source builds constraint by constraint
    (`SquadConstraints`, `BuildSquadProblem`). */
module SquadRules {

  import opened Common
  import opened Lp

  /** The hard-coded per-team limit. */
  const TeamCap := 3

  /** What the optimiser reads of one player row: the index key, cost,
      position code, team key and the metric being maximised. */
  datatype Entry<T> = Entry(id: int, cost: int, position: string, team: T, metric: real)

  /** Position codes with their exact quotas, in the order the source's
      `positions` dictionary lists them. */
  type Quotas = seq<(string, int)>

  predicate UniqueIds<T>(pool: seq<Entry<T>>) {
    forall i, j :: 0 <= i < j < |pool| ==> pool[i].id != pool[j].id
  }

  function CountPosition<T>(s: seq<Entry<T>>, pos: string): nat {
    if |s| == 0 then 0 else (if s[0].position == pos then 1 else 0) + CountPosition(s[1..], pos)
  }

  function CountTeam<T(==)>(s: seq<Entry<T>>, team: T): nat {
    if |s| == 0 then 0 else (if s[0].team == team then 1 else 0) + CountTeam(s[1..], team)
  }

  function TotalCost<T>(s: seq<Entry<T>>): int {
    if |s| == 0 then 0 else s[0].cost + TotalCost(s[1..])
  }

  function TotalMetric<T>(s: seq<Entry<T>>): real {
    if |s| == 0 then 0.0 else s[0].metric + TotalMetric(s[1..])
  }

  /** The squad `s` drawn from `pool` keeps to the budget, fills every
      listed position exactly, and has at most `TeamCap` players from each
      team present in the pool. */
  predicate MeetsRules<T(==)>(s: seq<Entry<T>>, pool: seq<Entry<T>>, quotas: Quotas, maxValue: int) {
    && TotalCost(s) <= maxValue
    && (forall i :: 0 <= i < |quotas| ==> CountPosition(s, quotas[i].0) == quotas[i].1)
    && (forall i :: 0 <= i < |pool| ==> CountTeam(s, pool[i].team) <= TeamCap)
  }

  /** The flags `x` pick a squad that meets the rules. */
  predicate SquadFeasible<T(==)>(pool: seq<Entry<T>>, x: seq<bool>, quotas: Quotas, maxValue: int) {
    |x| == |pool| && MeetsRules(Chosen(pool, x), pool, quotas, maxValue)
  }

  /** The flags `x` pick a squad that meets the rules, and no squad that
      meets them has a strictly greater metric total. */
  ghost predicate SquadOptimal<T>(pool: seq<Entry<T>>, x: seq<bool>, quotas: Quotas, maxValue: int) {
    SquadFeasible(pool, x, quotas, maxValue) &&
    forall y :: SquadFeasible(pool, y, quotas, maxValue) ==>
      TotalMetric(Chosen(pool, y)) <= TotalMetric(Chosen(pool, x))
  }

  // ---------------------------------------------------------------------
  // The coefficient vectors of the linear expressions the source builds.

  function Costs<T>(pool: seq<Entry<T>>): (c: seq<real>)
    ensures |c| == |pool|
  {
    if |pool| == 0 then [] else [pool[0].cost as real] + Costs(pool[1..])
  }

  function Metrics<T>(pool: seq<Entry<T>>): (c: seq<real>)
    ensures |c| == |pool|
  {
    if |pool| == 0 then [] else [pool[0].metric] + Metrics(pool[1..])
  }

  /** `lpSum(x[i] for i in pos_ids)`: coefficient 1 on the players of `pos`. */
  function PositionMask<T>(pool: seq<Entry<T>>, pos: string): (c: seq<real>)
    ensures |c| == |pool|
  {
    if |pool| == 0 then []
    else [if pool[0].position == pos then 1.0 else 0.0] + PositionMask(pool[1..], pos)
  }

  /** `lpSum(x[i] for i in team_ids)`: coefficient 1 on the players of `team`. */
  function TeamMask<T(==)>(pool: seq<Entry<T>>, team: T): (c: seq<real>)
    ensures |c| == |pool|
  {
    if |pool| == 0 then []
    else [if pool[0].team == team then 1.0 else 0.0] + TeamMask(pool[1..], team)
  }

  /** The expression `x[k]` over `n` variables. */
  function UnitVector(n: nat, k: nat): (c: seq<real>)
    ensures |c| == n
  {
    seq(n, j requires 0 <= j < n => if j == k then 1.0 else 0.0)
  }

  lemma {:induction false} ValueOfCosts<T>(pool: seq<Entry<T>>, x: seq<bool>)
    requires |x| == |pool|
    ensures Value(Costs(pool), x) == TotalCost(Chosen(pool, x)) as real
  {
    if |pool| > 0 {
      ValueOfCosts(pool[1..], x[1..]);
      var rest := Chosen(pool[1..], x[1..]);
      if x[0] {
        assert Chosen(pool, x) == [pool[0]] + rest;
        assert ([pool[0]] + rest)[1..] == rest;
      } else {
        assert Chosen(pool, x) == rest;
      }
    }
  }

  lemma {:induction false} ValueOfMetrics<T>(pool: seq<Entry<T>>, x: seq<bool>)
    requires |x| == |pool|
    ensures Value(Metrics(pool), x) == TotalMetric(Chosen(pool, x))
  {
    if |pool| > 0 {
      ValueOfMetrics(pool[1..], x[1..]);
      var rest := Chosen(pool[1..], x[1..]);
      if x[0] {
        assert Chosen(pool, x) == [pool[0]] + rest;
        assert ([pool[0]] + rest)[1..] == rest;
      } else {
        assert Chosen(pool, x) == rest;
      }
    }
  }

  lemma {:induction false} ValueOfPositionMask<T>(pool: seq<Entry<T>>, pos: string, x: seq<bool>)
    requires |x| == |pool|
    ensures Value(PositionMask(pool, pos), x) == CountPosition(Chosen(pool, x), pos) as real
  {
    if |pool| > 0 {
      ValueOfPositionMask(pool[1..], pos, x[1..]);
      var rest := Chosen(pool[1..], x[1..]);
      if x[0] {
        assert Chosen(pool, x) == [pool[0]] + rest;
        assert ([pool[0]] + rest)[1..] == rest;
      } else {
        assert Chosen(pool, x) == rest;
      }
    }
  }

  lemma {:induction false} ValueOfTeamMask<T>(pool: seq<Entry<T>>, team: T, x: seq<bool>)
    requires |x| == |pool|
    ensures Value(TeamMask(pool, team), x) == CountTeam(Chosen(pool, x), team) as real
  {
    if |pool| > 0 {
      ValueOfTeamMask(pool[1..], team, x[1..]);
      var rest := Chosen(pool[1..], x[1..]);
      if x[0] {
        assert Chosen(pool, x) == [pool[0]] + rest;
        assert ([pool[0]] + rest)[1..] == rest;
      } else {
        assert Chosen(pool, x) == rest;
      }
    }
  }

  /** A vector that is 1 at index `k` and 0 elsewhere (`k` may lie outside
      the vector) evaluates to the flag at `k`. */
  lemma {:induction false} ValueOfIndicator(c: seq<real>, x: seq<bool>, k: int)
    requires |c| == |x|
    requires forall j :: 0 <= j < |c| ==> c[j] == if j == k then 1.0 else 0.0
    ensures Value(c, x) == if 0 <= k < |c| && x[k] then 1.0 else 0.0
  {
    if |c| > 0 {
      ValueOfIndicator(c[1..], x[1..], k - 1);
    }
  }

  // ---------------------------------------------------------------------
  // The constraints, in the order the source adds them.

  /** `lpSum(now_cost * x) <= max_value`: met exactly when the flagged
      players' total cost is within the budget. */
  function BudgetConstraint<T>(pool: seq<Entry<T>>, maxValue: int): (k: Constraint)
    ensures forall x :: |x| == |pool| ==> (Holds(k, x) <==> TotalCost(Chosen(pool, x)) <= maxValue)
  {
    assert forall x :: |x| == |pool| ==> Value(Costs(pool), x) == TotalCost(Chosen(pool, x)) as real by {
      forall x | |x| == |pool| ensures Value(Costs(pool), x) == TotalCost(Chosen(pool, x)) as real {
        ValueOfCosts(pool, x);
      }
    }
    Constraint(Costs(pool), AtMost, maxValue as real)
  }

  /** `lpSum(x[i] for i in pos_ids) == count`: met exactly when the flagged
      players fill the position's quota. */
  function PositionConstraint<T>(pool: seq<Entry<T>>, quota: (string, int)): (k: Constraint)
    ensures forall x :: |x| == |pool| ==> (Holds(k, x) <==> CountPosition(Chosen(pool, x), quota.0) == quota.1)
  {
    assert forall x :: |x| == |pool| ==>
        Value(PositionMask(pool, quota.0), x) == CountPosition(Chosen(pool, x), quota.0) as real by {
      forall x | |x| == |pool|
        ensures Value(PositionMask(pool, quota.0), x) == CountPosition(Chosen(pool, x), quota.0) as real
      {
        ValueOfPositionMask(pool, quota.0, x);
      }
    }
    Constraint(PositionMask(pool, quota.0), Exactly, quota.1 as real)
  }

  /** `lpSum(x[i] for i in team_ids) <= 3`: met exactly when at most three
      flagged players come from the team. */
  function TeamConstraint<T(==)>(pool: seq<Entry<T>>, team: T): (k: Constraint)
    ensures forall x :: |x| == |pool| ==> (Holds(k, x) <==> CountTeam(Chosen(pool, x), team) <= TeamCap)
  {
    assert forall x :: |x| == |pool| ==> Value(TeamMask(pool, team), x) == CountTeam(Chosen(pool, x), team) as real by {
      forall x | |x| == |pool| ensures Value(TeamMask(pool, team), x) == CountTeam(Chosen(pool, x), team) as real {
        ValueOfTeamMask(pool, team, x);
      }
    }
    Constraint(TeamMask(pool, team), AtMost, TeamCap as real)
  }

  /** `x[k] <= 1`: a binary variable never exceeds 1, so every assignment
      meets it. */
  function OnceConstraint(n: nat, k: nat): (c: Constraint)
    ensures forall x :: |x| == n ==> Holds(c, x)
  {
    assert forall x :: |x| == n ==> Value(UnitVector(n, k), x) <= 1.0 by {
      forall x | |x| == n ensures Value(UnitVector(n, k), x) <= 1.0 {
        ValueOfIndicator(UnitVector(n, k), x, k);
      }
    }
    Constraint(UnitVector(n, k), AtMost, 1.0)
  }

  function PositionConstraints<T>(pool: seq<Entry<T>>, quotas: Quotas): (cs: seq<Constraint>)
    ensures |cs| == |quotas|
  {
    seq(|quotas|, i requires 0 <= i < |quotas| => PositionConstraint(pool, quotas[i]))
  }

  function TeamConstraints<T(==)>(pool: seq<Entry<T>>, teams: seq<T>): (cs: seq<Constraint>)
    ensures |cs| == |teams|
  {
    seq(|teams|, i requires 0 <= i < |teams| => TeamConstraint(pool, teams[i]))
  }

  function OnceConstraints(n: nat, count: nat): (cs: seq<Constraint>)
    ensures |cs| == count
  {
    seq(count, k requires 0 <= k < count => OnceConstraint(n, k))
  }

  /** The team column, in row order. */
  function TeamsOf<T>(pool: seq<Entry<T>>): seq<T> {
    Map((e: Entry<T>) => e.team, pool)
  }

  /** The whole constraint list of the programme: budget, then one equality
      per listed position, then one cap per distinct team (in order of first
      appearance, as `unique()` yields them), then `x[i] <= 1` per player. */
  function SquadConstraints<T(==)>(pool: seq<Entry<T>>, quotas: Quotas, maxValue: int): seq<Constraint> {
    [BudgetConstraint(pool, maxValue)]
      + PositionConstraints(pool, quotas)
      + TeamConstraints(pool, Unique(TeamsOf(pool)))
      + OnceConstraints(|pool|, |pool|)
  }

  /** The constraints the source adds encode the squad rules exactly: an
      assignment satisfies all of them if and only if the players it flags
      meet the budget, the quotas and the team cap. The `x[i] <= 1`
      constraints never exclude anything. */
  lemma ConstraintsEncodeRules<T>(pool: seq<Entry<T>>, quotas: Quotas, maxValue: int, x: seq<bool>)
    requires |x| == |pool|
    ensures Feasible(SquadConstraints(pool, quotas, maxValue), x) <==> SquadFeasible(pool, x, quotas, maxValue)
  {
    var budget := [BudgetConstraint(pool, maxValue)];
    var positions := PositionConstraints(pool, quotas);
    var caps := TeamConstraints(pool, Unique(TeamsOf(pool)));
    var once := OnceConstraints(|pool|, |pool|);
    assert SquadConstraints(pool, quotas, maxValue) == budget + positions + caps + once;
    FeasibleAppend(budget, positions, x);
    FeasibleAppend(budget + positions, caps, x);
    FeasibleAppend(budget + positions + caps, once, x);
    BudgetBlock(pool, maxValue, x);
    PositionBlock(pool, quotas, x);
    TeamBlock(pool, x);
    OnceBlock(|pool|, x);
  }

  lemma BudgetBlock<T>(pool: seq<Entry<T>>, maxValue: int, x: seq<bool>)
    requires |x| == |pool|
    ensures Feasible([BudgetConstraint(pool, maxValue)], x) <==> TotalCost(Chosen(pool, x)) <= maxValue
  {
    var budget := [BudgetConstraint(pool, maxValue)];
    assert budget[0] == BudgetConstraint(pool, maxValue);
  }

  /** The position block holds exactly when every quota is filled. */
  lemma PositionBlock<T>(pool: seq<Entry<T>>, quotas: Quotas, x: seq<bool>)
    requires |x| == |pool|
    ensures Feasible(PositionConstraints(pool, quotas), x) <==>
      forall i :: 0 <= i < |quotas| ==> CountPosition(Chosen(pool, x), quotas[i].0) == quotas[i].1
  {
    var positions := PositionConstraints(pool, quotas);
    forall i | 0 <= i < |quotas|
      ensures Holds(positions[i], x) <==> CountPosition(Chosen(pool, x), quotas[i].0) == quotas[i].1
    {
      assert positions[i] == PositionConstraint(pool, quotas[i]);
    }
  }

  /** One cap per distinct team holds exactly when every team in the pool
      has at most three flagged players. */
  lemma TeamBlock<T>(pool: seq<Entry<T>>, x: seq<bool>)
    requires |x| == |pool|
    ensures Feasible(TeamConstraints(pool, Unique(TeamsOf(pool))), x) <==>
      forall i :: 0 <= i < |pool| ==> CountTeam(Chosen(pool, x), pool[i].team) <= TeamCap
  {
    TeamsListed(pool);
    CapsHold(pool, Unique(TeamsOf(pool)), x);
  }

  /** `df['team_name'].unique()` lists exactly the teams of the pool. */
  lemma TeamsListed<T>(pool: seq<Entry<T>>)
    ensures forall i :: 0 <= i < |pool| ==> pool[i].team in Unique(TeamsOf(pool))
    ensures forall j :: 0 <= j < |Unique(TeamsOf(pool))| ==>
      exists i :: 0 <= i < |pool| && pool[i].team == Unique(TeamsOf(pool))[j]
  {
    var ts := TeamsOf(pool);
    var teams := Unique(ts);
    forall i | 0 <= i < |pool| ensures pool[i].team in teams {
      assert ts[i] == pool[i].team;
    }
    forall j | 0 <= j < |teams| ensures exists i :: 0 <= i < |pool| && pool[i].team == teams[j] {
      assert teams[j] in ts;
      var i :| 0 <= i < |ts| && ts[i] == teams[j];
      assert pool[i].team == teams[j];
    }
  }

  /** Caps on a list holding exactly the pool's teams hold exactly when
      every team of the pool is within the cap. */
  lemma CapsHold<T>(pool: seq<Entry<T>>, teams: seq<T>, x: seq<bool>)
    requires |x| == |pool|
    requires forall i :: 0 <= i < |pool| ==> pool[i].team in teams
    requires forall j :: 0 <= j < |teams| ==> exists i :: 0 <= i < |pool| && pool[i].team == teams[j]
    ensures Feasible(TeamConstraints(pool, teams), x) <==>
      forall i :: 0 <= i < |pool| ==> CountTeam(Chosen(pool, x), pool[i].team) <= TeamCap
  {
    var s := Chosen(pool, x);
    var caps := TeamConstraints(pool, teams);
    forall j | 0 <= j < |teams| ensures Holds(caps[j], x) <==> CountTeam(s, teams[j]) <= TeamCap {
      assert caps[j] == TeamConstraint(pool, teams[j]);
    }
    if Feasible(caps, x) {
      forall i | 0 <= i < |pool| ensures CountTeam(s, pool[i].team) <= TeamCap {
        var j :| 0 <= j < |teams| && teams[j] == pool[i].team;
        assert Holds(caps[j], x);
      }
    }
    if forall i :: 0 <= i < |pool| ==> CountTeam(s, pool[i].team) <= TeamCap {
      forall j | 0 <= j < |teams| ensures Holds(caps[j], x) {
        var i :| 0 <= i < |pool| && pool[i].team == teams[j];
      }
    }
  }

  /** The `x[k] <= 1` block excludes no assignment. */
  lemma OnceBlock(n: nat, x: seq<bool>)
    requires |x| == n
    ensures Feasible(OnceConstraints(n, n), x)
  {
    var once := OnceConstraints(n, n);
    forall k | 0 <= k < n ensures Holds(once[k], x) {
      assert once[k] == OnceConstraint(n, k);
    }
  }

  // ---------------------------------------------------------------------
  // Building, solving and extracting.

  /** Builds the programme as the source does, one `prob +=` at a time:
      the objective, the budget, the position loop, the team loop and the
      per-player loop. */
  method BuildSquadProblem<T(==)>(pool: seq<Entry<T>>, quotas: Quotas, maxValue: int) returns (prob: LpProblem)
    ensures fresh(prob)
    ensures prob.numVars == |pool| && prob.objective == Metrics(pool)
    ensures prob.constraints == SquadConstraints(pool, quotas, maxValue)
  {
    prob := new LpProblem(|pool|);
    prob.SetObjective(Metrics(pool));
    var budget := BudgetConstraint(pool, maxValue);
    prob.AddConstraint(budget);
    assert prob.constraints == [budget];
    var positions := PositionConstraints(pool, quotas);
    AddPositionConstraints(prob, pool, quotas);
    assert prob.constraints == [budget] + positions;
    var caps := TeamConstraints(pool, Unique(TeamsOf(pool)));
    AddTeamConstraints(prob, pool, Unique(TeamsOf(pool)));
    assert prob.constraints == [budget] + positions + caps;
    AddOnceConstraints(prob, |pool|);
  }

  /** The position loop: one equality per listed code. */
  method AddPositionConstraints<T>(prob: LpProblem, pool: seq<Entry<T>>, quotas: Quotas)
    modifies prob
    ensures prob.objective == old(prob.objective)
    ensures prob.constraints == old(prob.constraints) + PositionConstraints(pool, quotas)
  {
    for i := 0 to |quotas|
      invariant prob.objective == old(prob.objective)
      invariant prob.constraints == old(prob.constraints) + PositionConstraints(pool, quotas[..i])
    {
      assert PositionConstraints(pool, quotas[..i + 1])
          == PositionConstraints(pool, quotas[..i]) + [PositionConstraint(pool, quotas[i])];
      prob.AddConstraint(PositionConstraint(pool, quotas[i]));
    }
    assert quotas[..|quotas|] == quotas;
  }

  /** The team loop: one cap per team in `teams`. */
  method AddTeamConstraints<T(==)>(prob: LpProblem, pool: seq<Entry<T>>, teams: seq<T>)
    modifies prob
    ensures prob.objective == old(prob.objective)
    ensures prob.constraints == old(prob.constraints) + TeamConstraints(pool, teams)
  {
    for j := 0 to |teams|
      invariant prob.objective == old(prob.objective)
      invariant prob.constraints == old(prob.constraints) + TeamConstraints(pool, teams[..j])
    {
      assert TeamConstraints(pool, teams[..j + 1])
          == TeamConstraints(pool, teams[..j]) + [TeamConstraint(pool, teams[j])];
      prob.AddConstraint(TeamConstraint(pool, teams[j]));
    }
    assert teams[..|teams|] == teams;
  }

  /** The per-player loop: `x[k] <= 1` for every variable. */
  method AddOnceConstraints(prob: LpProblem, n: nat)
    modifies prob
    ensures prob.objective == old(prob.objective)
    ensures prob.constraints == old(prob.constraints) + OnceConstraints(n, n)
  {
    for k := 0 to n
      invariant prob.objective == old(prob.objective)
      invariant prob.constraints == old(prob.constraints) + OnceConstraints(n, k)
    {
      assert OnceConstraints(n, k + 1) == OnceConstraints(n, k) + [OnceConstraint(n, k)];
      prob.AddConstraint(OnceConstraint(n, k));
    }
  }

  /** Builds and solves the programme. On `Optimal` the flags pick an optimal
      squad; on `Infeasible` no choice of players meets the rules. */
  method SolveSquad<T(==)>(pool: seq<Entry<T>>, quotas: Quotas, maxValue: int) returns (status: Status, x: seq<bool>)
    ensures status == Optimal || status == Infeasible
    ensures status == Optimal ==> SquadOptimal(pool, x, quotas, maxValue)
    ensures status == Infeasible ==> forall y :: !SquadFeasible(pool, y, quotas, maxValue)
  {
    var prob := BuildSquadProblem(pool, quotas, maxValue);
    status, x := prob.Solve();
    if status == Optimal {
      ConstraintsEncodeRules(pool, quotas, maxValue, x);
      forall y | SquadFeasible(pool, y, quotas, maxValue)
        ensures TotalMetric(Chosen(pool, y)) <= TotalMetric(Chosen(pool, x))
      {
        ConstraintsEncodeRules(pool, quotas, maxValue, y);
        ValueOfMetrics(pool, y);
        ValueOfMetrics(pool, x);
      }
    } else {
      forall y | SquadFeasible(pool, y, quotas, maxValue) ensures false {
        ConstraintsEncodeRules(pool, quotas, maxValue, y);
      }
    }
  }

  /** `None` unless the status is `Optimal`; otherwise the rows whose flag
      is 1, in row order. */
  function ExtractSquad<X>(status: Status, rows: seq<X>, x: seq<bool>): (r: Option<seq<X>>)
    requires status == Optimal ==> |x| == |rows|
    ensures r.None? <==> status != Optimal
    ensures r.Some? ==> r.value == Chosen(rows, x) && |r.value| == CountSet(x)
  {
    if status != Optimal then None
    else
      ChosenLength(rows, x);
      Some(Chosen(rows, x))
  }

  // ---------------------------------------------------------------------
  // Consequences of the rules.

  /** Extraction from a pool with unique ids yields a squad with unique ids:
      no player is chosen twice. */
  lemma {:induction false} ChosenUniqueIds<T>(pool: seq<Entry<T>>, x: seq<bool>)
    requires |x| == |pool| && UniqueIds(pool)
    ensures UniqueIds(Chosen(pool, x))
  {
    if |pool| > 0 {
      ChosenUniqueIds(pool[1..], x[1..]);
      var rest := Chosen(pool[1..], x[1..]);
      if x[0] {
        var s := [pool[0]] + rest;
        forall i, j | 0 <= i < j < |s| ensures s[i].id != s[j].id {
          if i == 0 {
            assert s[j] == rest[j - 1] && s[j] in pool[1..];
          } else {
            assert s[i] == rest[i - 1] && s[j] == rest[j - 1];
          }
        }
      } else {
        assert Chosen(pool, x) == rest;
      }
    }
  }

  /** The sum of the quotas. */
  function QuotaTotal(quotas: Quotas): int {
    if |quotas| == 0 then 0 else quotas[0].1 + QuotaTotal(quotas[1..])
  }

  /** Position codes are not repeated (the source's quotas are dictionary keys). */
  predicate DistinctCodes(quotas: Quotas) {
    forall i, j :: 0 <= i < j < |quotas| ==> quotas[i].0 != quotas[j].0
  }

  /** Every player's position is one of the listed codes. */
  predicate PositionsListed<T>(s: seq<Entry<T>>, quotas: Quotas) {
    forall i :: 0 <= i < |s| ==> exists j :: 0 <= j < |quotas| && quotas[j].0 == s[i].position
  }

  /** The number of players of `s` counted under some listed code. */
  function SumCounts<T>(s: seq<Entry<T>>, quotas: Quotas): int {
    if |quotas| == 0 then 0 else CountPosition(s, quotas[0].0) + SumCounts(s, quotas[1..])
  }

  /** How many listed codes equal `pos`. */
  function Hits(pos: string, quotas: Quotas): nat {
    if |quotas| == 0 then 0 else (if quotas[0].0 == pos then 1 else 0) + Hits(pos, quotas[1..])
  }

  lemma {:induction false} HitsListed(pos: string, quotas: Quotas)
    requires DistinctCodes(quotas)
    requires exists j :: 0 <= j < |quotas| && quotas[j].0 == pos
    ensures Hits(pos, quotas) == 1
  {
    var j :| 0 <= j < |quotas| && quotas[j].0 == pos;
    if j == 0 {
      HitsUnlisted(pos, quotas[1..]);
    } else {
      assert quotas[1..][j - 1].0 == pos;
      HitsListed(pos, quotas[1..]);
    }
  }

  lemma {:induction false} HitsUnlisted(pos: string, quotas: Quotas)
    requires forall j :: 0 <= j < |quotas| ==> quotas[j].0 != pos
    ensures Hits(pos, quotas) == 0
  {
    if |quotas| > 0 {
      HitsUnlisted(pos, quotas[1..]);
    }
  }

  lemma {:induction false} SumCountsCons<T>(e: Entry<T>, rest: seq<Entry<T>>, quotas: Quotas)
    ensures SumCounts([e] + rest, quotas) == Hits(e.position, quotas) + SumCounts(rest, quotas)
  {
    assert ([e] + rest)[1..] == rest;
    if |quotas| > 0 {
      SumCountsCons(e, rest, quotas[1..]);
    }
  }

  /** When every position is listed exactly once, counting per code counts
      every player once. */
  lemma {:induction false} SumCountsIsLength<T>(s: seq<Entry<T>>, quotas: Quotas)
    requires DistinctCodes(quotas) && PositionsListed(s, quotas)
    ensures SumCounts(s, quotas) == |s|
  {
    if |s| == 0 {
      SumCountsEmpty(s, quotas);
    } else {
      var t := s[1..];
      assert PositionsListed(t, quotas) by {
        forall i | 0 <= i < |t| ensures exists j :: 0 <= j < |quotas| && quotas[j].0 == t[i].position {
          assert t[i] == s[i + 1];
          var j :| 0 <= j < |quotas| && quotas[j].0 == s[i + 1].position;
          assert quotas[j].0 == t[i].position;
        }
      }
      SumCountsIsLength(t, quotas);
      HitsListed(s[0].position, quotas);
      assert [s[0]] + s[1..] == s;
      SumCountsCons(s[0], s[1..], quotas);
    }
  }

  lemma {:induction false} SumCountsEmpty<T>(s: seq<Entry<T>>, quotas: Quotas)
    requires |s| == 0
    ensures SumCounts(s, quotas) == 0
  {
    if |quotas| > 0 {
      SumCountsEmpty(s, quotas[1..]);
    }
  }

  lemma {:induction false} SumCountsMeetsQuotas<T>(s: seq<Entry<T>>, quotas: Quotas)
    requires forall i :: 0 <= i < |quotas| ==> CountPosition(s, quotas[i].0) == quotas[i].1
    ensures SumCounts(s, quotas) == QuotaTotal(quotas)
  {
    if |quotas| > 0 {
      SumCountsMeetsQuotas(s, quotas[1..]);
    }
  }

  /** When every player in the pool has a listed position, a squad that
      meets the rules has exactly as many players as the quotas add up to.
      A player with an unlisted position is bound only by budget and team,
      so without the hypothesis the size is not fixed. */
  lemma SquadSizeIsQuotaTotal<T>(pool: seq<Entry<T>>, x: seq<bool>, quotas: Quotas, maxValue: int)
    requires SquadFeasible(pool, x, quotas, maxValue)
    requires DistinctCodes(quotas) && PositionsListed(pool, quotas)
    ensures |Chosen(pool, x)| == QuotaTotal(quotas)
  {
    var s := Chosen(pool, x);
    forall i | 0 <= i < |s| ensures exists j :: 0 <= j < |quotas| && quotas[j].0 == s[i].position {
      assert s[i] in s;
      var k :| 0 <= k < |pool| && pool[k] == s[i];
    }
    SumCountsIsLength(s, quotas);
    SumCountsMeetsQuotas(s, quotas);
  }
}
