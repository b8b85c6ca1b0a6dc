/** The current squad selector, `select_fpl_squad` in
    src/select_fpl_squad.py: keep seven columns, drop duplicate rows, index
    by `id_player`, build the 0/1 programme with five position quotas
    (GKP, DEF, MID, FWD, MNG), solve it, and return the flagged players or
    `None`. */
module SelectFplSquad {

  import opened Common
  import opened Lp
  import opened SquadRules

  /** A row of the frame handed to the selector: the six columns it keeps by
      name, and every numeric column (the metric among them, and whatever
      per-gameweek columns the feature pipeline left in) by name.
      `chanceOfPlayingNextRound` is `None` where the frame holds a missing
      value. */
  datatype SourceRow = SourceRow(
    idPlayer: int,
    webName: string,
    nowCost: int,
    playerPosition: string,
    teamName: string,
    chanceOfPlayingNextRound: Option<int>,
    columns: map<string, real>)

  /** A row after `df[cols_to_keep]`: the six kept columns and the metric. */
  datatype Player = Player(
    idPlayer: int,
    webName: string,
    nowCost: int,
    playerPosition: string,
    teamName: string,
    chanceOfPlayingNextRound: Option<int>,
    metric: real)

  /** Every row has the metric column (otherwise the column selection fails). */
  predicate HasMetric(df: seq<SourceRow>, metric: string) {
    forall i :: 0 <= i < |df| ==> metric in df[i].columns
  }

  /** `df[cols_to_keep]` applied to one row. */
  function Project(row: SourceRow, metric: string): Player
    requires metric in row.columns
  {
    Player(row.idPlayer, row.webName, row.nowCost, row.playerPosition, row.teamName,
           row.chanceOfPlayingNextRound, row.columns[metric])
  }

  /** `df[cols_to_keep].drop_duplicates()`: the projected rows, each distinct
      projection once, in order of first appearance. Rows that differ only in
      columns that are not kept (one row per gameweek of the same player, say)
      collapse to one. */
  function Players(df: seq<SourceRow>, metric: string): (r: seq<Player>)
    requires HasMetric(df, metric)
    ensures Distinct(r)
    ensures forall i :: 0 <= i < |df| ==> Project(df[i], metric) in r
    ensures forall k :: 0 <= k < |r| ==> exists i :: 0 <= i < |df| && r[k] == Project(df[i], metric)
  {
    var kept := seq(|df|, i requires 0 <= i < |df| => Project(df[i], metric));
    var r := Unique(kept);
    assert forall i :: 0 <= i < |df| ==> kept[i] == Project(df[i], metric);
    r
  }

  /** What the optimiser reads of a player: team key is `team_name`. */
  function ToEntry(p: Player): Entry<string> {
    Entry(p.idPlayer, p.nowCost, p.playerPosition, p.teamName, p.metric)
  }

  function Pool(players: seq<Player>): seq<Entry<string>> {
    Map(ToEntry, players)
  }

  /** The `positions` dictionary, in its insertion order. */
  function PositionQuotas(numGks: int, numDefs: int, numMids: int, numAtts: int, numMngs: int): (q: Quotas)
    ensures DistinctCodes(q)
  {
    [("GKP", numGks), ("DEF", numDefs), ("MID", numMids), ("FWD", numAtts), ("MNG", numMngs)]
  }

  /** Selects the squad. On success the squad is exactly the players of the
      de-duplicated frame whose flag is set by an optimal assignment: it meets
      the budget, every quota and the team cap, has no repeated id, and no
      squad that meets the rules has a larger metric total. It is `None`
      exactly when no squad meets the rules; with no managers asked for, no
      manager is chosen; and when every position is one of the five codes the
      squad has as many players as the quotas add up to. */
  method SelectFplSquad(
    df: seq<SourceRow>,
    metric: string,
    numGks: int := 2,
    numDefs: int := 5,
    numMids: int := 5,
    numAtts: int := 3,
    numMngs: int := 0,
    maxValue: int := 1000)
    returns (squad: Option<seq<Player>>)
    requires HasMetric(df, metric)
    requires UniqueIds(Pool(Players(df, metric)))
    ensures var players, quotas := Players(df, metric), PositionQuotas(numGks, numDefs, numMids, numAtts, numMngs);
      squad.Some? <==> exists x :: SquadFeasible(Pool(players), x, quotas, maxValue)
    ensures var players, quotas := Players(df, metric), PositionQuotas(numGks, numDefs, numMids, numAtts, numMngs);
      squad.Some? ==> exists x :: SquadOptimal(Pool(players), x, quotas, maxValue) && squad.value == Chosen(players, x)
    ensures var pool, quotas := Pool(Players(df, metric)), PositionQuotas(numGks, numDefs, numMids, numAtts, numMngs);
      squad.Some? ==>
        && MeetsRules(Pool(squad.value), pool, quotas, maxValue)
        && UniqueIds(Pool(squad.value))
        && (forall y :: SquadFeasible(pool, y, quotas, maxValue) ==>
              TotalMetric(Chosen(pool, y)) <= TotalMetric(Pool(squad.value)))
        && (numMngs == 0 ==> CountPosition(Pool(squad.value), "MNG") == 0)
        && (PositionsListed(pool, quotas) ==> |squad.value| == QuotaTotal(quotas))
  {
    var players := Players(df, metric);
    var pool := Pool(players);
    var quotas := PositionQuotas(numGks, numDefs, numMids, numAtts, numMngs);
    var status, x := SolveSquad(pool, quotas, maxValue);
    squad := ExtractSquad(status, players, x);
    if status == Optimal {
      MapChosen(ToEntry, players, x);
      ChosenUniqueIds(pool, x);
      assert quotas[4].0 == "MNG";
      if PositionsListed(pool, quotas) {
        SquadSizeIsQuotaTotal(pool, x, quotas, maxValue);
      }
    }
  }
}
