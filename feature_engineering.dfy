/** src/feature_engineering.py: the recent-form feature. Each row of the
    last `num_gws` gameweeks gets a `mean_ppg_{num_gws}` column holding its
    player's mean points over those gameweeks. */
module FeatureEngineering {

  import opened Gameweeks

  /** A windowed history row with the `mean_ppg_{num_gws}` column merged on. */
  datatype FormRow = FormRow(row: GameweekRow, meanPpg: real)

  /** The players present in `rows`. */
  function ElementsOf(rows: seq<GameweekRow>): set<int> {
    set i | 0 <= i < |rows| :: rows[i].element
  }

  /** `df.groupby(by='element')['total_points'].mean()`: one mean per player
      present, keyed by player. */
  function MeanByElement(rows: seq<GameweekRow>): (ppg: map<int, real>)
    ensures forall e :: e in ppg <==> CountOf(rows, e) > 0
    ensures forall e :: e in ppg ==> CountOf(rows, e) > 0 && ppg[e] == Mean(rows, e)
  {
    map e | e in ElementsOf(rows) :: Mean(rows, e)
  }

  /** `df.merge(df_ppg, how='inner', left_on='element', right_index=True)`:
      the left rows whose player has an entry in `ppg`, in left order, each
      with that entry appended. */
  function MergeInner(rows: seq<GameweekRow>, ppg: map<int, real>): (r: seq<FormRow>)
    ensures |r| <= |rows|
    ensures forall k :: 0 <= k < |r| ==> r[k].row in rows && r[k].row.element in ppg && r[k].meanPpg == ppg[r[k].row.element]
    ensures forall i :: 0 <= i < |rows| && rows[i].element in ppg ==> FormRow(rows[i], ppg[rows[i].element]) in r
  {
    if |rows| == 0 then []
    else
      var rest := MergeInner(rows[1..], ppg);
      assert forall i :: 1 <= i < |rows| ==> rows[i] == rows[1..][i - 1];
      (if rows[0].element in ppg then [FormRow(rows[0], ppg[rows[0].element])] else []) + rest
  }

  /** When every row's player has an entry, the inner merge drops nothing and
      appends each row's own entry. */
  lemma {:induction false} MergeInnerKeepsAll(rows: seq<GameweekRow>, ppg: map<int, real>)
    requires forall i :: 0 <= i < |rows| ==> rows[i].element in ppg
    ensures |MergeInner(rows, ppg)| == |rows|
    ensures forall i :: 0 <= i < |rows| ==> MergeInner(rows, ppg)[i] == FormRow(rows[i], ppg[rows[i].element])
  {
    if |rows| > 0 {
      var tail := rows[1..];
      assert forall i :: 0 <= i < |tail| ==> tail[i] == rows[i + 1];
      MergeInnerKeepsAll(tail, ppg);
      var head, rest := FormRow(rows[0], ppg[rows[0].element]), MergeInner(tail, ppg);
      var r := MergeInner(rows, ppg);
      assert r == [head] + rest;
      forall i | 0 <= i < |rows| ensures r[i] == FormRow(rows[i], ppg[rows[i].element]) {
        if i > 0 {
          assert r[i] == rest[i - 1];
        }
      }
    }
  }

  /** `calc_points_per_game`: the window of the last `numGws` rounds, each
      row carrying the mean `total_points` of its player over the window.
      Every windowed row survives the merge, in order. */
  function CalcPointsPerGame(df: seq<GameweekRow>, numGws: int := 3): (r: seq<FormRow>)
    ensures var w := Window(df, numGws);
      && |r| == |w|
      && forall i :: 0 <= i < |r| ==>
           r[i].row == w[i] && CountOf(w, w[i].element) > 0 && r[i].meanPpg == Mean(w, w[i].element)
  {
    var w := Window(df, numGws);
    var ppg := MeanByElement(w);
    EveryRowHasMean(w);
    MergeInnerKeepsAll(w, ppg);
    MergeInner(w, ppg)
  }

  /** Every player with a windowed row has a mean. */
  lemma EveryRowHasMean(w: seq<GameweekRow>)
    ensures forall i :: 0 <= i < |w| ==> CountOf(w, w[i].element) > 0 && w[i].element in MeanByElement(w)
  {
    forall i | 0 <= i < |w| ensures CountOf(w, w[i].element) > 0 {
      CountOfPresent(w, i);
    }
  }

  /** Rows of the same player carry the same mean, and that mean lies within
      any bounds on the player's windowed points (so between the player's
      lowest and highest score in the window). */
  lemma MeanPpgConsistent(df: seq<GameweekRow>, numGws: int, e: int, lo: int, hi: int)
    requires var w := Window(df, numGws);
      forall k :: 0 <= k < |w| && w[k].element == e ==> lo <= w[k].totalPoints <= hi
    ensures var r := CalcPointsPerGame(df, numGws);
      forall i, j :: 0 <= i < |r| && 0 <= j < |r| && r[i].row.element == e && r[j].row.element == e ==>
        r[i].meanPpg == r[j].meanPpg && lo as real <= r[i].meanPpg <= hi as real
  {
    var w := Window(df, numGws);
    var r := CalcPointsPerGame(df, numGws);
    forall i, j | 0 <= i < |r| && 0 <= j < |r| && r[i].row.element == e && r[j].row.element == e
      ensures r[i].meanPpg == r[j].meanPpg && lo as real <= r[i].meanPpg <= hi as real
    {
      assert r[i].row == w[i] && r[j].row == w[j];
      assert CountOf(w, e) > 0 && r[i].meanPpg == Mean(w, e) && r[j].meanPpg == Mean(w, e);
      MeanBounds(w, e, lo, hi);
    }
  }

  /** Bounds on a player's points carry over to the player's windowed rows. */
  lemma WindowWithinBounds(df: seq<GameweekRow>, numGws: int, e: int, lo: int, hi: int)
    requires forall k :: 0 <= k < |df| && df[k].element == e ==> lo <= df[k].totalPoints <= hi
    ensures var w := Window(df, numGws);
      forall k :: 0 <= k < |w| && w[k].element == e ==> lo <= w[k].totalPoints <= hi
  {
    var w := Window(df, numGws);
    forall k | 0 <= k < |w| && w[k].element == e ensures lo <= w[k].totalPoints <= hi {
      assert w[k] in df;
    }
  }

  /** `engineer_features`: the points-per-game feature with the same window. */
  function EngineerFeatures(df: seq<GameweekRow>, numGws: int := 3): (r: seq<FormRow>)
    ensures r == CalcPointsPerGame(df, numGws)
  {
    CalcPointsPerGame(df, numGws)
  }
}
