/** `calc_points_per_game` of the form model
    (src/models/v1r0_form_model/fpl_bot_v1r0.py): the same window of the
    last `num_gws` gameweeks, then one row per player holding the player's
    mean `total_points` over the window. The rows come out in ascending
    player order, as `groupby` sorts its keys. */
module FormModel {

  import opened Gameweeks

  /** A row of `df_ppg`: the player and their mean points (the column keeps
      the name `total_points`). */
  datatype ElementPpg = ElementPpg(element: int, totalPoints: real)

  predicate StrictlyIncreasing(s: seq<int>) {
    forall i, j :: 0 <= i < j < |s| ==> s[i] < s[j]
  }

  /** Adds `x` to an ascending sequence without repeats, keeping it so. */
  function Insert(x: int, s: seq<int>): (r: seq<int>)
    requires StrictlyIncreasing(s)
    ensures StrictlyIncreasing(r)
    ensures forall y :: y in r <==> y in s || y == x
  {
    if |s| == 0 then [x]
    else if x < s[0] then [x] + s
    else if x == s[0] then s
    else
      var tail := s[1..];
      assert forall i :: 0 <= i < |tail| ==> tail[i] == s[i + 1];
      var rest := Insert(x, tail);
      assert forall y :: y in s <==> y == s[0] || y in tail;
      assert forall k :: 0 <= k < |rest| ==> s[0] < rest[k] by {
        forall k | 0 <= k < |rest| ensures s[0] < rest[k] {
          assert rest[k] in rest;
        }
      }
      var r := [s[0]] + rest;
      assert forall k :: 0 < k < |r| ==> r[k] == rest[k - 1];
      r
  }

  /** The group keys of `groupby('element')`: every player present, once,
      in ascending order. */
  function SortedElements(rows: seq<GameweekRow>): (r: seq<int>)
    ensures StrictlyIncreasing(r)
    ensures forall e :: e in r <==> CountOf(rows, e) > 0
  {
    if |rows| == 0 then [] else Insert(rows[0].element, SortedElements(rows[1..]))
  }

  /** One row per key of `es`, holding that key's mean over `w`. */
  function MeansOf(w: seq<GameweekRow>, es: seq<int>): (r: seq<ElementPpg>)
    requires forall k :: 0 <= k < |es| ==> CountOf(w, es[k]) > 0
    ensures |r| == |es|
    ensures forall k :: 0 <= k < |r| ==> r[k].element == es[k] && r[k].totalPoints == Mean(w, es[k])
  {
    if |es| == 0 then []
    else [ElementPpg(es[0], Mean(w, es[0]))] + MeansOf(w, es[1..])
  }

  /** `calc_points_per_game`: exactly one row per player with at least one
      row in the window, ascending by player, each holding that player's mean
      windowed points. A player with no row in the window has no row. */
  function CalcPointsPerGame(df: seq<GameweekRow>, numGws: int := 3): (r: seq<ElementPpg>)
    ensures var w := Window(df, numGws);
      && (forall i, j :: 0 <= i < j < |r| ==> r[i].element < r[j].element)
      && (forall e :: (exists k :: 0 <= k < |r| && r[k].element == e) <==> CountOf(w, e) > 0)
      && (forall k :: 0 <= k < |r| ==> CountOf(w, r[k].element) > 0 && r[k].totalPoints == Mean(w, r[k].element))
  {
    var w := Window(df, numGws);
    var es := SortedElements(w);
    KeysAreCounted(w, es);
    var r := MeansOf(w, es);
    MeansOfKeys(w, es, r);
    r
  }

  lemma KeysAreCounted(w: seq<GameweekRow>, es: seq<int>)
    requires forall e :: e in es <==> CountOf(w, e) > 0
    ensures forall k :: 0 <= k < |es| ==> CountOf(w, es[k]) > 0
  {
    forall k | 0 <= k < |es| ensures CountOf(w, es[k]) > 0 {
      assert es[k] in es;
    }
  }

  lemma MeansOfKeys(w: seq<GameweekRow>, es: seq<int>, r: seq<ElementPpg>)
    requires StrictlyIncreasing(es)
    requires forall e :: e in es <==> CountOf(w, e) > 0
    requires |r| == |es|
    requires forall k :: 0 <= k < |r| ==> CountOf(w, es[k]) > 0 && r[k].element == es[k] && r[k].totalPoints == Mean(w, es[k])
    ensures forall i, j :: 0 <= i < j < |r| ==> r[i].element < r[j].element
    ensures forall e :: (exists k :: 0 <= k < |r| && r[k].element == e) <==> CountOf(w, e) > 0
    ensures forall k :: 0 <= k < |r| ==> CountOf(w, r[k].element) > 0 && r[k].totalPoints == Mean(w, r[k].element)
  {
    forall e ensures (exists k :: 0 <= k < |r| && r[k].element == e) <==> CountOf(w, e) > 0 {
      if CountOf(w, e) > 0 {
        assert e in es;
        var k :| 0 <= k < |es| && es[k] == e;
        assert r[k].element == e;
      }
    }
  }

  /** The mean a player gets lies within any bounds on that player's
      windowed points. */
  lemma PpgWithinPoints(df: seq<GameweekRow>, numGws: int, e: int, lo: int, hi: int)
    requires var w := Window(df, numGws);
      forall i :: 0 <= i < |w| && w[i].element == e ==> lo <= w[i].totalPoints <= hi
    ensures var r := CalcPointsPerGame(df, numGws);
      forall k :: 0 <= k < |r| && r[k].element == e ==> lo as real <= r[k].totalPoints <= hi as real
  {
    var w := Window(df, numGws);
    var r := CalcPointsPerGame(df, numGws);
    if exists k :: 0 <= k < |r| && r[k].element == e {
      MeanBounds(w, e, lo, hi);
    }
  }
}
