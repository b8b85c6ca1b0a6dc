/** The archived bot, src/archive/v1/fpl_bot_v1r1.py: its squad selector
    (four positions, teams keyed by numeric id, no column selection or
    de-duplication), the understat-to-FPL team-name remapping, the
    threshold filter loop, and the stepped fixture multiplier of the
    expected-points formula. */
module FplBotV1r1 {

  import opened Common
  import opened Lp
  import opened SquadRules

  // ---------------------------------------------------------------------
  // select_fpl_squad (four-position variant)

  /** A row of the expected-points frame: the columns the selector reads by
      name, the team name carried for display, and the numeric columns by
      name (the metric among them). */
  datatype ExpPointsRow = ExpPointsRow(
    idPlayer: int,
    webName: string,
    nowCost: int,
    singularNameShort: string,
    team: int,
    name: string,
    columns: map<string, real>)

  predicate HasMetric(df: seq<ExpPointsRow>, metric: string) {
    forall i :: 0 <= i < |df| ==> metric in df[i].columns
  }

  /** What the optimiser reads of a row: position is `singular_name_short`,
      the team key is the numeric `team` id. */
  function EntryOf(metric: string): ExpPointsRow --> Entry<int> {
    (r: ExpPointsRow) requires metric in r.columns =>
      Entry(r.idPlayer, r.nowCost, r.singularNameShort, r.team, r.columns[metric])
  }

  function Pool(df: seq<ExpPointsRow>, metric: string): seq<Entry<int>>
    requires HasMetric(df, metric)
  {
    Map(EntryOf(metric), df)
  }

  /** The variant's `positions` dictionary: no manager slot. */
  function PositionQuotas(numGks: int, numDefs: int, numMids: int, numAtts: int): (q: Quotas)
    ensures DistinctCodes(q)
  {
    [("GKP", numGks), ("DEF", numDefs), ("MID", numMids), ("FWD", numAtts)]
  }

  /** Selects the squad from the rows as given. On success the squad is
      exactly the rows flagged by an optimal assignment: within budget, an
      exact count for each of the four positions, at most three players per
      team id, no repeated id, and no squad that meets the rules has a larger
      metric total. It is `None` exactly when no squad meets the rules. */
  method SelectFplSquad(
    df: seq<ExpPointsRow>,
    metric: string,
    numGks: int := 2,
    numDefs: int := 5,
    numMids: int := 5,
    numAtts: int := 3,
    maxValue: int := 1000)
    returns (squad: Option<seq<ExpPointsRow>>)
    requires HasMetric(df, metric)
    requires UniqueIds(Pool(df, metric))
    ensures var quotas := PositionQuotas(numGks, numDefs, numMids, numAtts);
      squad.Some? <==> exists x :: SquadFeasible(Pool(df, metric), x, quotas, maxValue)
    ensures var quotas := PositionQuotas(numGks, numDefs, numMids, numAtts);
      squad.Some? ==> exists x :: SquadOptimal(Pool(df, metric), x, quotas, maxValue) && squad.value == Chosen(df, x)
    ensures var pool, quotas := Pool(df, metric), PositionQuotas(numGks, numDefs, numMids, numAtts);
      squad.Some? ==>
        && HasMetric(squad.value, metric)
        && MeetsRules(Pool(squad.value, metric), pool, quotas, maxValue)
        && UniqueIds(Pool(squad.value, metric))
        && (forall y :: SquadFeasible(pool, y, quotas, maxValue) ==>
              TotalMetric(Chosen(pool, y)) <= TotalMetric(Pool(squad.value, metric)))
        && (PositionsListed(pool, quotas) ==> |squad.value| == QuotaTotal(quotas))
  {
    var pool := Pool(df, metric);
    var quotas := PositionQuotas(numGks, numDefs, numMids, numAtts);
    var status, x := SolveSquad(pool, quotas, maxValue);
    squad := ExtractSquad(status, df, x);
    if status == Optimal {
      MapChosen(EntryOf(metric), df, x);
      ChosenUniqueIds(pool, x);
      if PositionsListed(pool, quotas) {
        SquadSizeIsQuotaTotal(pool, x, quotas, maxValue);
      }
    }
  }

  // ---------------------------------------------------------------------
  // _remap_team_names

  /** understat spelling to FPL spelling. */
  const TeamsToRename: map<string, string> := map[
    "Manchester City" := "Man City",
    "Manchester United" := "Man Utd",
    "Newcastle United" := "Newcastle",
    "Nottingham Forest" := "Nott'm Forest",
    "Tottenham" := "Spurs",
    "Wolverhampton Wanderers" := "Wolves"]

  /** The FPL spelling of a team name: the six listed names are replaced,
      every other name is kept. No replacement is itself a listed name. */
  function RemapName(name: string): (r: string)
    ensures name in TeamsToRename ==> r == TeamsToRename[name]
    ensures name !in TeamsToRename ==> r == name
    ensures r !in TeamsToRename
  {
    if name in TeamsToRename then TeamsToRename[name] else name
  }

  /** A name changes exactly when it is one of the six listed names. */
  lemma RemapChangesExactlyListed(name: string)
    ensures RemapName(name) != name <==> name in TeamsToRename
  {
    if name in TeamsToRename {
      assert TeamsToRename[name] !in TeamsToRename;
    }
  }

  /** Remapping twice is remapping once. */
  lemma RemapIdempotent(name: string)
    ensures RemapName(RemapName(name)) == RemapName(name)
  {
  }

  /** A frame row as `apply(..., axis=1)` hands it over: the team name and
      the row's other (numeric) cells. */
  class TeamRow {
    var teamName: string
    var cells: map<string, real>

    constructor (teamName: string, cells: map<string, real>)
      ensures this.teamName == teamName && this.cells == cells
    {
      this.teamName := teamName;
      this.cells := cells;
    }
  }

  /** Rewrites the row's team name in place and hands the same row back;
      nothing else in the row changes. */
  method RemapTeamNames(row: TeamRow) returns (r: TeamRow)
    modifies row
    ensures r == row
    ensures row.teamName == RemapName(old(row.teamName))
    ensures row.cells == old(row.cells)
  {
    if row.teamName in TeamsToRename {
      row.teamName := TeamsToRename[row.teamName];
    }
    r := row;
  }

  // ---------------------------------------------------------------------
  // The threshold loop of filter_points_data

  /** A row of the merged points frame, its cells by column name; `None`
      stands for a missing value. */
  datatype PointsRow = PointsRow(cells: map<string, Option<real>>)

  /** `row[col] >= threshold`; a missing value compares false. */
  predicate AtLeast(row: PointsRow, col: string, threshold: real) {
    col in row.cells && row.cells[col].Some? && row.cells[col].value >= threshold
  }

  /** The row meets every threshold of `filters`. */
  predicate MeetsAll(row: PointsRow, filters: seq<(string, real)>) {
    forall j :: 0 <= j < |filters| ==> AtLeast(row, filters[j].0, filters[j].1)
  }

  /** `df[df[col] >= threshold]`: the rows meeting one threshold, in order,
      each as many times as it occurs. */
  function KeepAtLeast(rows: seq<PointsRow>, col: string, threshold: real): (r: seq<PointsRow>)
    ensures forall k :: 0 <= k < |r| ==> AtLeast(r[k], col, threshold) && r[k] in rows
  {
    if |rows| == 0 then []
    else
      var rest := KeepAtLeast(rows[1..], col, threshold);
      assert forall k :: 0 <= k < |rest| ==> rest[k] in rows[1..];
      (if AtLeast(rows[0], col, threshold) then [rows[0]] else []) + rest
  }

  /** Each row is kept as many times as it occurs when it meets the
      threshold, and never otherwise. */
  lemma {:induction false} KeepAtLeastCounts(rows: seq<PointsRow>, col: string, threshold: real)
    ensures forall x ::
      multiset(KeepAtLeast(rows, col, threshold))[x] == if AtLeast(x, col, threshold) then multiset(rows)[x] else 0
  {
    if |rows| > 0 {
      var tail := rows[1..];
      KeepAtLeastCounts(tail, col, threshold);
      assert rows == [rows[0]] + tail;
      var head := if AtLeast(rows[0], col, threshold) then [rows[0]] else [];
      assert KeepAtLeast(rows, col, threshold) == head + KeepAtLeast(tail, col, threshold);
    }
  }

  /** The rows meeting every threshold, in their original order, each as
      many times as it occurs. */
  function Passing(rows: seq<PointsRow>, filters: seq<(string, real)>): (r: seq<PointsRow>)
    ensures |r| <= |rows|
    ensures forall k :: 0 <= k < |r| ==> MeetsAll(r[k], filters)
    ensures forall i :: 0 <= i < |rows| && MeetsAll(rows[i], filters) ==> rows[i] in r
    ensures forall k :: 0 <= k < |r| ==> r[k] in rows
  {
    if |rows| == 0 then []
    else
      var rest := Passing(rows[1..], filters);
      assert forall i :: 1 <= i < |rows| ==> rows[i] == rows[1..][i - 1];
      (if MeetsAll(rows[0], filters) then [rows[0]] else []) + rest
  }

  /** Each row is kept as many times as it occurs when it meets every
      threshold, and never otherwise (a duplicated row survives twice). */
  lemma {:induction false} PassingCounts(rows: seq<PointsRow>, filters: seq<(string, real)>)
    ensures forall x ::
      multiset(Passing(rows, filters))[x] == if MeetsAll(x, filters) then multiset(rows)[x] else 0
  {
    if |rows| > 0 {
      var tail := rows[1..];
      PassingCounts(tail, filters);
      assert rows == [rows[0]] + tail;
      var head := if MeetsAll(rows[0], filters) then [rows[0]] else [];
      assert Passing(rows, filters) == head + Passing(tail, filters);
    }
  }

  lemma MeetsAllAppend(row: PointsRow, filters: seq<(string, real)>, col: string, threshold: real)
    ensures MeetsAll(row, filters + [(col, threshold)]) <==> MeetsAll(row, filters) && AtLeast(row, col, threshold)
  {
    var more := filters + [(col, threshold)];
    assert more[|filters|] == (col, threshold);
    assert forall j :: 0 <= j < |filters| ==> more[j] == filters[j];
  }

  /** Filtering the survivors of some thresholds by one more threshold is
      filtering by all of them. */
  lemma {:induction false} KeepAtLeastOfPassing(rows: seq<PointsRow>, filters: seq<(string, real)>, col: string, threshold: real)
    ensures KeepAtLeast(Passing(rows, filters), col, threshold) == Passing(rows, filters + [(col, threshold)])
  {
    if |rows| > 0 {
      KeepAtLeastOfPassing(rows[1..], filters, col, threshold);
      MeetsAllAppend(rows[0], filters, col, threshold);
      var rest := Passing(rows[1..], filters);
      if MeetsAll(rows[0], filters) {
        assert Passing(rows, filters) == [rows[0]] + rest;
        assert ([rows[0]] + rest)[1..] == rest;
      } else {
        assert Passing(rows, filters) == rest;
      }
    }
  }

  /** With no thresholds nothing is dropped. */
  lemma {:induction false} PassingNoFilters(rows: seq<PointsRow>)
    ensures Passing(rows, []) == rows
  {
    if |rows| > 0 {
      PassingNoFilters(rows[1..]);
      assert MeetsAll(rows[0], []);
      assert [rows[0]] + rows[1..] == rows;
    }
  }

  /** The loop over `filter_dict`: each pass keeps the rows whose cell in
      that column is at least the threshold. The result is exactly the rows
      that meet every threshold, in their original order. */
  method ApplyThresholds(rows: seq<PointsRow>, filters: seq<(string, real)>) returns (kept: seq<PointsRow>)
    requires forall i, j :: 0 <= i < |rows| && 0 <= j < |filters| ==> filters[j].0 in rows[i].cells
    ensures kept == Passing(rows, filters)
  {
    kept := rows;
    PassingNoFilters(rows);
    assert filters[..0] == [];
    for j := 0 to |filters|
      invariant kept == Passing(rows, filters[..j])
    {
      var (col, threshold) := filters[j];
      KeepAtLeastOfPassing(rows, filters[..j], col, threshold);
      assert filters[..j + 1] == filters[..j] + [(col, threshold)];
      kept := KeepAtLeast(kept, col, threshold);
    }
    assert filters[..|filters|] == filters;
  }

  // ---------------------------------------------------------------------
  // The fixture multiplier of calculate_exp_points

  /** 0.9 against strong upcoming opposition (mean strength at least 3.5),
      1.1 against weak (at most 2.5), 1 otherwise. */
  function FixtureMultiplier(meanStrength: real): (m: real)
    ensures m == 0.9 || m == 1.0 || m == 1.1
    ensures m == 0.9 <==> meanStrength >= 3.5
    ensures m == 1.1 <==> meanStrength <= 2.5
  {
    if meanStrength >= 3.5 then 0.9
    else if meanStrength <= 2.5 then 1.1
    else 1.0
  }

  /** Stronger opposition never raises the multiplier. */
  lemma FixtureMultiplierNonIncreasing(weaker: real, stronger: real)
    requires weaker <= stronger
    ensures FixtureMultiplier(stronger) <= FixtureMultiplier(weaker)
  {
  }
}
