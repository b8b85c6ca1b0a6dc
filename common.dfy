/** Sequence helpers shared by the squad selectors and the feature pipeline:
    an optional value, first-occurrence de-duplication (what pandas'
    `drop_duplicates` and `Series.unique` both do), and the extraction of the
    elements whose 0/1 flag is set. */
module Common {

  datatype Option<+T> = None | Some(value: T)

  /** No element occurs twice. */
  predicate Distinct<X(==)>(s: seq<X>) {
    forall i, j :: 0 <= i < j < |s| ==> s[i] != s[j]
  }

  /** `s` with every element after its first occurrence removed; the
      survivors keep their original relative order. */
  function Unique<X(==)>(s: seq<X>): (r: seq<X>)
    ensures Distinct(r)
    ensures forall i :: 0 <= i < |s| ==> s[i] in r
    ensures forall i :: 0 <= i < |r| ==> r[i] in s
    ensures |r| <= |s|
  {
    if |s| == 0 then []
    else
      var r := Unique(s[..|s| - 1]);
      if s[|s| - 1] in r then r else r + [s[|s| - 1]]
  }

  /** A sequence without repeats is its own de-duplication. */
  lemma {:induction false} UniqueOfDistinct<X>(s: seq<X>)
    requires Distinct(s)
    ensures Unique(s) == s
  {
    if |s| > 0 {
      var init := s[..|s| - 1];
      assert Distinct(init);
      UniqueOfDistinct(init);
      assert s[|s| - 1] !in init;
      assert init + [s[|s| - 1]] == s;
    }
  }

  /** The elements of `xs` whose flag in `flags` is set, in order. */
  function Chosen<X>(xs: seq<X>, flags: seq<bool>): (r: seq<X>)
    requires |flags| == |xs|
    ensures |r| <= |xs|
    ensures forall i :: 0 <= i < |r| ==> exists k :: 0 <= k < |xs| && r[i] == xs[k]
  {
    if |xs| == 0 then []
    else (if flags[0] then [xs[0]] else []) + Chosen(xs[1..], flags[1..])
  }

  /** The number of flags that are set. */
  function CountSet(flags: seq<bool>): (n: nat)
    ensures n <= |flags|
  {
    if |flags| == 0 then 0 else (if flags[0] then 1 else 0) + CountSet(flags[1..])
  }

  /** Extraction keeps exactly one element per set flag. */
  lemma {:induction false} ChosenLength<X>(xs: seq<X>, flags: seq<bool>)
    requires |flags| == |xs|
    ensures |Chosen(xs, flags)| == CountSet(flags)
  {
    if |xs| > 0 {
      ChosenLength(xs[1..], flags[1..]);
    }
  }

  /** `f` applied to every element. */
  function Map<X, Y>(f: X --> Y, s: seq<X>): (r: seq<Y>)
    requires forall i :: 0 <= i < |s| ==> f.requires(s[i])
    ensures |r| == |s|
    ensures forall i :: 0 <= i < |s| ==> r[i] == f(s[i])
  {
    seq(|s|, i requires 0 <= i < |s| => f(s[i]))
  }

  /** Extracting and then mapping is mapping and then extracting. */
  lemma {:induction false} MapChosen<X, Y>(f: X --> Y, xs: seq<X>, flags: seq<bool>)
    requires |flags| == |xs|
    requires forall i :: 0 <= i < |xs| ==> f.requires(xs[i])
    ensures Map(f, Chosen(xs, flags)) == Chosen(Map(f, xs), flags)
  {
    if |xs| > 0 {
      var tail, rest := xs[1..], Chosen(xs[1..], flags[1..]);
      assert forall i :: 0 <= i < |tail| ==> f.requires(tail[i]) by {
        forall i | 0 <= i < |tail| ensures f.requires(tail[i]) { assert tail[i] == xs[i + 1]; }
      }
      MapChosen(f, tail, flags[1..]);
      var mapped := Map(f, xs);
      assert mapped[1..] == Map(f, tail);
      assert Chosen(mapped, flags) == (if flags[0] then [mapped[0]] else []) + Chosen(Map(f, tail), flags[1..]);
      if flags[0] {
        assert Chosen(xs, flags) == [xs[0]] + rest;
        MapCons(f, xs[0], rest);
      } else {
        assert Chosen(xs, flags) == rest;
      }
    }
  }

  lemma MapCons<X, Y>(f: X --> Y, x: X, s: seq<X>)
    requires f.requires(x)
    requires forall i :: 0 <= i < |s| ==> f.requires(s[i])
    ensures Map(f, [x] + s) == [f(x)] + Map(f, s)
  {
    assert forall i :: 0 < i < |[x] + s| ==> ([x] + s)[i] == s[i - 1];
  }
}
