/** Per-gameweek points history and the two computations both versions of
    `calc_points_per_game` share: the last-N-gameweeks window and the mean
    of `total_points` per player (`element`). */
module Gameweeks {

  /** One row of a player's gameweek history. */
  datatype GameweekRow = GameweekRow(element: int, round: int, totalPoints: int)

  /** `df['round'].max()`. */
  function MaxRound(rows: seq<GameweekRow>): (m: int)
    requires |rows| > 0
    ensures forall i :: 0 <= i < |rows| ==> rows[i].round <= m
    ensures exists i :: 0 <= i < |rows| && rows[i].round == m
  {
    if |rows| == 1 then rows[0].round
    else
      var rest := MaxRound(rows[1..]);
      assert forall i :: 1 <= i < |rows| ==> rows[i] == rows[1..][i - 1];
      if rows[0].round >= rest then rows[0].round else rest
  }

  /** The rows whose round is after `cutoff`, in their original order. */
  function RoundsAfter(rows: seq<GameweekRow>, cutoff: int): (r: seq<GameweekRow>)
    ensures |r| <= |rows|
    ensures forall k :: 0 <= k < |r| ==> r[k].round > cutoff && r[k] in rows
    ensures forall i :: 0 <= i < |rows| && rows[i].round > cutoff ==> rows[i] in r
    ensures forall x :: multiset(r)[x] == if x.round > cutoff then multiset(rows)[x] else 0
  {
    if |rows| == 0 then []
    else
      var tail := rows[1..];
      var rest := RoundsAfter(tail, cutoff);
      assert forall i :: 1 <= i < |rows| ==> rows[i] == tail[i - 1];
      assert rows == [rows[0]] + tail;
      assert multiset(rows) == multiset([rows[0]]) + multiset(tail);
      var head := if rows[0].round > cutoff then [rows[0]] else [];
      assert multiset(head + rest) == multiset(head) + multiset(rest);
      head + rest
  }

  /** `df[df['round'] > df['round'].max() - num_gws]`: the rows of the last
      `numGws` rounds counted back from the latest round present, each as
      many times as it occurs (a double gameweek gives a player two rows in
      one round). An empty frame has no maximum round and stays empty. */
  function Window(rows: seq<GameweekRow>, numGws: int): (w: seq<GameweekRow>)
    ensures |rows| == 0 ==> w == []
    ensures |rows| > 0 ==>
      && (forall k :: 0 <= k < |w| ==> w[k] in rows && w[k].round > MaxRound(rows) - numGws)
      && (forall i :: 0 <= i < |rows| && rows[i].round > MaxRound(rows) - numGws ==> rows[i] in w)
      && (forall x :: multiset(w)[x] == if x.round > MaxRound(rows) - numGws then multiset(rows)[x] else 0)
  {
    if |rows| == 0 then [] else RoundsAfter(rows, MaxRound(rows) - numGws)
  }

  /** With a window of at least one round, the latest round's rows are
      always kept, so a non-empty history gives a non-empty window. */
  lemma WindowKeepsLatestRound(rows: seq<GameweekRow>, numGws: int)
    requires |rows| > 0 && numGws >= 1
    ensures |Window(rows, numGws)| > 0
  {
    var i :| 0 <= i < |rows| && rows[i].round == MaxRound(rows);
    assert rows[i] in Window(rows, numGws);
  }

  /** The number of rows of `element`. */
  function CountOf(rows: seq<GameweekRow>, element: int): (n: nat)
    ensures n <= |rows|
    ensures n > 0 <==> exists i :: 0 <= i < |rows| && rows[i].element == element
  {
    if |rows| == 0 then 0
    else
      assert forall i :: 1 <= i < |rows| ==> rows[i] == rows[1..][i - 1];
      (if rows[0].element == element then 1 else 0) + CountOf(rows[1..], element)
  }

  /** A player with a row is counted. */
  lemma {:induction false} CountOfPresent(rows: seq<GameweekRow>, i: int)
    requires 0 <= i < |rows|
    ensures CountOf(rows, rows[i].element) > 0
  {
    if i > 0 {
      assert rows[1..][i - 1] == rows[i];
      CountOfPresent(rows[1..], i - 1);
    }
  }

  /** The summed `total_points` of the rows of `element`. */
  function SumOf(rows: seq<GameweekRow>, element: int): int {
    if |rows| == 0 then 0
    else (if rows[0].element == element then rows[0].totalPoints else 0) + SumOf(rows[1..], element)
  }

  /** `groupby('element')['total_points'].mean()` for one element. */
  function Mean(rows: seq<GameweekRow>, element: int): (m: real)
    requires CountOf(rows, element) > 0
    ensures m * CountOf(rows, element) as real == SumOf(rows, element) as real
  {
    SumOf(rows, element) as real / CountOf(rows, element) as real
  }

  lemma {:induction false} SumBounds(rows: seq<GameweekRow>, element: int, lo: int, hi: int)
    requires forall i :: 0 <= i < |rows| && rows[i].element == element ==> lo <= rows[i].totalPoints <= hi
    ensures lo * CountOf(rows, element) <= SumOf(rows, element) <= hi * CountOf(rows, element)
  {
    if |rows| > 0 {
      var tail := rows[1..];
      assert forall i :: 0 <= i < |tail| && tail[i].element == element ==> lo <= tail[i].totalPoints <= hi by {
        forall i | 0 <= i < |tail| ensures tail[i] == rows[i + 1] { }
      }
      SumBounds(tail, element, lo, hi);
      var c, t := CountOf(tail, element), SumOf(tail, element);
      if rows[0].element == element {
        assert CountOf(rows, element) == c + 1 && SumOf(rows, element) == rows[0].totalPoints + t;
        AddOne(lo, c);
        AddOne(hi, c);
      } else {
        assert CountOf(rows, element) == c && SumOf(rows, element) == t;
      }
    }
  }

  lemma AddOne(a: int, c: int)
    ensures a * (c + 1) == a * c + a
  {
  }

  lemma ProductAsReal(a: int, c: int)
    ensures (a * c) as real == a as real * c as real
  {
  }

  /** Dividing a bound scaled by a positive count recovers the bound. */
  lemma QuotientAtLeast(s: real, n: real, lo: real)
    requires n > 0.0 && lo * n <= s
    ensures lo <= s / n
  {
    assert (s / n) * n == s;
  }

  lemma QuotientAtMost(s: real, n: real, hi: real)
    requires n > 0.0 && s <= hi * n
    ensures s / n <= hi
  {
    assert (s / n) * n == s;
  }

  /** An integer total within `count` times the bounds has its quotient
      within the bounds. */
  lemma QuotientBetween(t: int, c: int, lo: int, hi: int)
    requires c > 0 && lo * c <= t <= hi * c
    ensures lo as real <= t as real / c as real <= hi as real
  {
    ProductAsReal(lo, c);
    ProductAsReal(hi, c);
    QuotientAtLeast(t as real, c as real, lo as real);
    QuotientAtMost(t as real, c as real, hi as real);
  }

  /** A mean lies within any bounds on the values averaged; in particular
      between the element's lowest and highest score. */
  lemma MeanBounds(rows: seq<GameweekRow>, element: int, lo: int, hi: int)
    requires CountOf(rows, element) > 0
    requires forall i :: 0 <= i < |rows| && rows[i].element == element ==> lo <= rows[i].totalPoints <= hi
    ensures lo as real <= Mean(rows, element) <= hi as real
  {
    SumBounds(rows, element, lo, hi);
    QuotientBetween(SumOf(rows, element), CountOf(rows, element), lo, hi);
  }
}
