# FPL squad selection and form features, modelled in Dafny

This project models the core of an FPL (Fantasy Premier League) team picker.

- **Squad selection.** `select_fpl_squad` turns a frame of players into a 0/1
  integer programme and solves it. The programme maximises the summed metric
  (for example `mean_ppg_7`) and has four kinds of constraint: a budget on
  `now_cost`, an exact count per position, at most three players per team, and
  `x[i] <= 1` for every player. The selector returns the chosen rows, or
  `None` when the solver does not report `Optimal`. Two versions are modelled:
  - the current one (`SelectFplSquad`), with five position codes, a column
    selection and `drop_duplicates`, and teams keyed by name;
  - the archived one (`FplBotV1r1.SelectFplSquad`), with four positions, no
    de-duplication, and teams keyed by numeric id.
- **The rest of the archived bot.** Its team-name remapping, its loop of
  column thresholds, and the fixture multiplier of its expected-points formula.
- **The form feature.** `calc_points_per_game` keeps the history rows of the
  last `num_gws` rounds and computes each player's mean `total_points` over
  them. The feature-engineering version merges that mean back onto every
  windowed row. The form-model version returns one row per player, in
  ascending player order.

Modules:

- `Common`: optional values, first-occurrence de-duplication (`Unique`, as
  pandas' `drop_duplicates` and `unique()`), extraction of the flagged rows
  (`Chosen`), and `Map`.
- `Lp`: the part of PuLP that the selectors use.
  - An `LpProblem` class whose `prob += ...` steps are methods that append to
    its fields.
  - A `Solve` method backed by an exhaustive search over all 0/1 assignments,
    proved to return an optimal assignment whenever a feasible one exists.
- `SquadRules`: the squad rules, stated two ways.
  - Directly on the chosen players: `MeetsRules`, `SquadFeasible` and
    `SquadOptimal`.
  - As the constraint list the source builds: `SquadConstraints`, produced by
    the loops of `BuildSquadProblem`.
  - The two are proved to agree, and `SolveSquad` is proved to pick an optimal
    squad.
- `SelectFplSquad`, `FplBotV1r1`, `Gameweeks`, `FeatureEngineering` and
  `FormModel` follow the source files named in the table below.

An assignment is a `seq<bool>` indexed by row position. The source indexes
its variables by `id_player`; the two agree when ids are unique, which is a
precondition here.

## Model

| member | source | states |
|---|---|---|
| SelectFplSquad.SelectFplSquad | src/select_fpl_squad.py:10-98 | The result is `Some` exactly when some choice of players meets the budget, the position quotas and the three-per-team cap. On `Some`, the squad is the de-duplicated players flagged by an optimal assignment. It meets every rule and has unique ids. No squad that meets the rules has a larger metric total. With `num_mngs == 0` it has no manager. When every position is one of the five codes, its size is the sum of the quotas. |
| SelectFplSquad.Players | src/select_fpl_squad.py:35-45 | The seven-column projection with `drop_duplicates`. The result has no repeated row. Every projected row appears in it. Every row in it is the projection of some input row. |
| SelectFplSquad.Project | src/select_fpl_squad.py:35-45 | `df[cols_to_keep]` for one row: the six kept columns and the metric's value. What it means for the frame is stated by `Players`. |
| SelectFplSquad.PositionQuotas | src/select_fpl_squad.py:69 | The five position codes GKP, DEF, MID, FWD and MNG, each listed once, in dictionary order. |
| Common.Unique | src/select_fpl_squad.py:75 | `unique()` on the team column (and `drop_duplicates` on rows). The result has no repeats, every input element occurs in it, and it holds nothing else. |
| Common.UniqueOfDistinct | src/select_fpl_squad.py:45 | De-duplicating a sequence that has no repeats changes nothing. |
| Common.Chosen | src/select_fpl_squad.py:95-96 | The rows whose flag is set, in row order. Every extracted row is a row of the input. |
| Common.ChosenLength | src/select_fpl_squad.py:95 | Extraction yields exactly one row per set flag. |
| Common.MapChosen | src/select_fpl_squad.py:63-96 | Reading the optimiser's fields from the chosen rows gives the same as choosing from the optimiser's view of all rows. This is why the rules proved on entries hold for the returned rows. |
| Lp.FeasibleAppend | src/select_fpl_squad.py:66-81 | A problem built by successive `prob +=` blocks is satisfied exactly when every block is satisfied. |
| Lp.BestCompletion | src/select_fpl_squad.py:84 | Any returned assignment has one value per variable, extends the given prefix and satisfies every constraint. |
| Lp.BestCompletionIsBest | src/select_fpl_squad.py:84 | Any feasible assignment extending the prefix makes the search return something, and its objective is at most the returned one's. |
| Lp.SearchIsExact | src/select_fpl_squad.py:84 | The search returns an optimal assignment when a feasible one exists. It returns nothing exactly when no assignment is feasible. |
| Lp.LpProblem.constructor | src/select_fpl_squad.py:57-60 | A fresh maximisation problem over `n` binary variables, with no constraints. |
| Lp.LpProblem.SetObjective | src/select_fpl_squad.py:63 | `prob += objective` sets the objective and leaves the constraints unchanged. |
| Lp.LpProblem.AddConstraint | src/select_fpl_squad.py:66 | `prob += constraint` appends exactly that constraint and nothing else changes. |
| Lp.LpProblem.Solve | src/select_fpl_squad.py:84-89 | The status is `Optimal` with an assignment no feasible assignment beats, or `Infeasible` when no assignment satisfies the constraints. |
| SquadRules.Costs | src/select_fpl_squad.py:66 | The `now_cost` coefficient vector, one entry per player. `ValueOfCosts` states its value under an assignment. |
| SquadRules.Metrics | src/select_fpl_squad.py:63 | The metric coefficient vector of the objective, one entry per player. `ValueOfMetrics` states its value under an assignment. |
| SquadRules.PositionMask | src/select_fpl_squad.py:71-72 | The 0/1 vector selecting `pos_ids`, one entry per player. `ValueOfPositionMask` states its value under an assignment. |
| SquadRules.TeamMask | src/select_fpl_squad.py:76-77 | The 0/1 vector selecting `team_ids`, one entry per player. `ValueOfTeamMask` states its value under an assignment. |
| SquadRules.ValueOfCosts | src/select_fpl_squad.py:66 | `lpSum(now_cost * x)` equals the total cost of the flagged players. |
| SquadRules.ValueOfMetrics | src/select_fpl_squad.py:63 | `lpSum(metric * x)` equals the metric total of the flagged players. |
| SquadRules.ValueOfPositionMask | src/select_fpl_squad.py:71-72 | The sum over the ids with position `pos` equals the number of flagged players in that position. |
| SquadRules.ValueOfTeamMask | src/select_fpl_squad.py:76-77 | The sum over the ids of one team equals the number of flagged players from that team. |
| SquadRules.ValueOfIndicator | src/select_fpl_squad.py:81 | The expression `x[k]` is 1 exactly when player `k` is flagged. |
| SquadRules.UnitVector | src/select_fpl_squad.py:81 | The coefficient vector of `x[k]` has one entry per variable. |
| SquadRules.BudgetConstraint | src/select_fpl_squad.py:66 | An assignment meets the budget constraint if and only if the flagged players' total `now_cost` is at most `max_value`. |
| SquadRules.PositionConstraint | src/select_fpl_squad.py:71-72 | An assignment meets a position's constraint if and only if exactly `count` flagged players have that position. |
| SquadRules.TeamConstraint | src/select_fpl_squad.py:76-77 | An assignment meets a team's constraint if and only if at most three flagged players come from that team. |
| SquadRules.OnceConstraint | src/select_fpl_squad.py:80-81 | Every assignment meets `x[k] <= 1`. |
| SquadRules.PositionConstraints | src/select_fpl_squad.py:70-72 | The position loop yields one constraint per listed code. |
| SquadRules.TeamConstraints | src/select_fpl_squad.py:75-77 | The team loop yields one constraint per distinct team. |
| SquadRules.OnceConstraints | src/select_fpl_squad.py:80-81 | The per-player loop yields one constraint per player. |
| SquadRules.SquadConstraints | src/select_fpl_squad.py:63-81 | The full constraint list, in the source's order: budget, one per position, one per distinct team, one per player. Its meaning is stated by `ConstraintsEncodeRules`. |
| SquadRules.BudgetBlock | src/select_fpl_squad.py:66 | The one-constraint budget block holds if and only if the flagged players are within the budget. |
| SquadRules.PositionBlock | src/select_fpl_squad.py:70-72 | The position block holds if and only if every quota is filled exactly. |
| SquadRules.TeamsListed | src/select_fpl_squad.py:75 | `df['team_name'].unique()` holds every team of the pool and no other. |
| SquadRules.CapsHold | src/select_fpl_squad.py:75-77 | Caps over a list holding exactly the pool's teams hold if and only if every team of the pool has at most three flagged players. |
| SquadRules.TeamBlock | src/select_fpl_squad.py:75-77 | The team block built from `unique()` holds if and only if every team of the pool has at most three flagged players. |
| SquadRules.OnceBlock | src/select_fpl_squad.py:80-81 | The per-player block excludes no assignment. |
| SquadRules.ConstraintsEncodeRules | src/select_fpl_squad.py:63-81 | An assignment satisfies every constraint the selector adds if and only if the flagged players meet the budget, fill each quota exactly and have at most three from each team. The `x[i] <= 1` constraints exclude nothing. |
| SquadRules.BuildSquadProblem | src/select_fpl_squad.py:57-81 | Building the problem step by step gives a fresh problem over one variable per player. Its objective is the metric vector and its constraints are exactly budget, positions, team caps and at-most-once, in the source's order. |
| SquadRules.AddPositionConstraints | src/select_fpl_squad.py:70-72 | The loop appends one equality per position, in dictionary order, and leaves the objective unchanged. |
| SquadRules.AddTeamConstraints | src/select_fpl_squad.py:75-77 | The loop appends one cap per team, in order of first appearance. |
| SquadRules.AddOnceConstraints | src/select_fpl_squad.py:80-81 | The loop appends `x[k] <= 1` for every player. |
| SquadRules.SolveSquad | src/select_fpl_squad.py:57-87 | On `Optimal` the flags pick a squad that meets the rules and that no rule-abiding squad beats on the metric. Otherwise the status is `Infeasible` and no squad meets the rules. |
| SquadRules.ExtractSquad | src/select_fpl_squad.py:87-96 | `None` exactly when the status is not `Optimal`. Otherwise the flagged rows in row order, one per set flag. |
| SquadRules.ChosenUniqueIds | src/select_fpl_squad.py:49-60 | With one variable per distinct id, no player is selected twice. |
| SquadRules.SquadSizeIsQuotaTotal | src/select_fpl_squad.py:69-72 | When every player's position is a listed code, a squad that meets the rules has exactly as many players as the quotas add up to (15 with the defaults). |
| FplBotV1r1.SelectFplSquad | src/archive/v1/fpl_bot_v1r1.py:377-447 | Same guarantees as the current selector, over the rows as given. It uses four positions from `singular_name_short` and teams keyed by the numeric `team` id. The returned rows all carry the metric. |
| FplBotV1r1.PositionQuotas | src/archive/v1/fpl_bot_v1r1.py:421 | Four distinct position codes: GKP, DEF, MID and FWD. |
| FplBotV1r1.RemapName | src/archive/v1/fpl_bot_v1r1.py:127-137 | The six names of `teams_to_rename` map to their FPL spellings: Manchester City to Man City, Manchester United to Man Utd, Newcastle United to Newcastle, Nottingham Forest to Nott'm Forest, Tottenham to Spurs, Wolverhampton Wanderers to Wolves. Every other name is kept. No result is itself a name that gets remapped. |
| FplBotV1r1.RemapChangesExactlyListed | src/archive/v1/fpl_bot_v1r1.py:136-137 | A name changes if and only if it is one of the six listed names. |
| FplBotV1r1.RemapIdempotent | src/archive/v1/fpl_bot_v1r1.py:123-139 | Remapping twice gives the same as remapping once. |
| FplBotV1r1.TeamRow.constructor | src/archive/v1/fpl_bot_v1r1.py:123 | A row holding a team name and its other cells. |
| FplBotV1r1.RemapTeamNames | src/archive/v1/fpl_bot_v1r1.py:136-139 | The row's team name is remapped in place, no other cell changes, and the same row is returned. |
| FplBotV1r1.KeepAtLeast | src/archive/v1/fpl_bot_v1r1.py:251 | `df[df[col] >= t]`: every kept row meets the threshold and is an input row. |
| FplBotV1r1.KeepAtLeastCounts | src/archive/v1/fpl_bot_v1r1.py:251 | A row meeting the threshold is kept as many times as it occurs; any other row is not kept. |
| FplBotV1r1.Passing | src/archive/v1/fpl_bot_v1r1.py:250-251 | Every kept row meets every threshold and is an input row. Every input row meeting every threshold is kept. |
| FplBotV1r1.PassingCounts | src/archive/v1/fpl_bot_v1r1.py:250-251 | A row meeting every threshold is kept as many times as it occurs; any other row is not kept. |
| FplBotV1r1.MeetsAllAppend | src/archive/v1/fpl_bot_v1r1.py:250-251 | Meeting one more threshold is meeting the old ones and the new one. |
| FplBotV1r1.KeepAtLeastOfPassing | src/archive/v1/fpl_bot_v1r1.py:251 | One more `df[df[col] >= t]` pass over the survivors equals filtering the original rows by all thresholds so far. |
| FplBotV1r1.PassingNoFilters | src/archive/v1/fpl_bot_v1r1.py:250 | With an empty filter dictionary no row is dropped. |
| FplBotV1r1.ApplyThresholds | src/archive/v1/fpl_bot_v1r1.py:250-253 | The loop returns exactly the rows meeting every threshold (a missing value fails), in their original order. |
| FplBotV1r1.FixtureMultiplier | src/archive/v1/fpl_bot_v1r1.py:328-333 | The multiplier is 0.9 if and only if the mean strength is at least 3.5, and 1.1 if and only if it is at most 2.5. Otherwise it is 1. |
| FplBotV1r1.FixtureMultiplierNonIncreasing | src/archive/v1/fpl_bot_v1r1.py:328-333 | Stronger upcoming opposition never gives a larger multiplier. |
| Gameweeks.MaxRound | src/feature_engineering.py:5 | `df['round'].max()` bounds every round and is attained by some row. |
| Gameweeks.RoundsAfter | src/feature_engineering.py:5 | A row with a round after the cutoff is kept as many times as it occurs; any other row is not kept. |
| Gameweeks.Window | src/feature_engineering.py:5 | An empty history gives an empty window. Otherwise a row whose round is greater than the latest round minus `num_gws` is kept as many times as it occurs, and no other row is kept. |
| Gameweeks.WindowKeepsLatestRound | src/feature_engineering.py:5 | With `num_gws >= 1`, a non-empty history gives a non-empty window. |
| Gameweeks.CountOf | src/feature_engineering.py:8 | A player's group size is positive if and only if the player has a row. |
| Gameweeks.CountOfPresent | src/feature_engineering.py:8 | Every row's player has a non-empty group. |
| Gameweeks.SumBounds | src/feature_engineering.py:8 | A group's summed points lie between count times the lower bound and count times the upper bound. |
| Gameweeks.Mean | src/feature_engineering.py:8 | `.mean()` for one player: the mean times the player's row count is the player's summed points. |
| Gameweeks.MeanBounds | src/feature_engineering.py:8 | A player's mean lies within any bounds on that player's points, in particular between their lowest and highest score. |
| FeatureEngineering.MeanByElement | src/feature_engineering.py:8-9 | A mean exists for a player exactly when the player has a windowed row, and it is that player's mean. |
| FeatureEngineering.MergeInner | src/feature_engineering.py:12-17 | The inner merge: every output row is an input row whose player has a mean, and it carries that mean. Every input row whose player has a mean appears with it. There are no more output rows than input rows. |
| FeatureEngineering.MergeInnerKeepsAll | src/feature_engineering.py:12-17 | When every row's player has a mean, the inner merge keeps every row, in order, each with its own player's mean. |
| FeatureEngineering.CalcPointsPerGame | src/feature_engineering.py:3-18 | The result is the windowed rows in order, none dropped, each carrying its player's mean points over the window. |
| FeatureEngineering.EveryRowHasMean | src/feature_engineering.py:8-17 | Every windowed row's player has a mean. |
| FeatureEngineering.MeanPpgConsistent | src/feature_engineering.py:3-18 | All rows of one player carry the same `mean_ppg` value. It lies within any bounds on that player's windowed points, so between their lowest and highest score in the window. |
| FeatureEngineering.WindowWithinBounds | src/feature_engineering.py:5 | Bounds on a player's whole history hold for that player's windowed rows, since the window only keeps input rows. |
| FeatureEngineering.EngineerFeatures | src/feature_engineering.py:20-22 | The same as the points-per-game feature with the same `num_gws`. |
| FormModel.Insert | src/models/v1r0_form_model/fpl_bot_v1r0.py:84 | Adding a key keeps the key list ascending without repeats and adds exactly that key. |
| FormModel.SortedElements | src/models/v1r0_form_model/fpl_bot_v1r0.py:84 | The group keys are strictly ascending and are exactly the players with a row. |
| FormModel.MeansOf | src/models/v1r0_form_model/fpl_bot_v1r0.py:84 | One row per key, holding that key's mean. |
| FormModel.KeysAreCounted | src/models/v1r0_form_model/fpl_bot_v1r0.py:84 | Every group key has a non-empty group. |
| FormModel.MeansOfKeys | src/models/v1r0_form_model/fpl_bot_v1r0.py:84 | Rows built from ascending group keys are ascending by player, cover exactly the players present, and hold each player's mean. |
| FormModel.CalcPointsPerGame | src/models/v1r0_form_model/fpl_bot_v1r0.py:79-85 | The result has one row per player with a row in the window, strictly ascending by player and with no other players. Each row holds that player's mean `total_points` over the window. |
| FormModel.PpgWithinPoints | src/models/v1r0_form_model/fpl_bot_v1r0.py:79-85 | A player's mean lies within any bounds on that player's windowed points. |

## Left out

- The CBC solver is replaced by an exhaustive search over all assignments.
  - It is exponential in the number of players; only what it returns is modelled.
  - Among equally good squads it returns the first one found, which may differ from CBC's choice.
  - CBC's `Not Solved` and `Undefined` outcomes never occur here. `ExtractSquad` still returns `None` for every status other than `Optimal`.
- SquadRules.ExtractSquad: reads a flag as a `bool`. The source's `varValue == 1` test on a floating-point value, and its integrality tolerance, are not modelled.
- Constraint names and the problem name ("Total_value", "Team_<team>" and so on) are not modelled; they only label constraints.
- Logging and the `print` on failure are not modelled.
- Arithmetic is exact, not float64. Costs are integers. The metric, the constraint coefficients, the per-player means and the 0.9/1.1 multipliers are exact reals. The source computes all of these as float64: in pandas `mean()`, in CBC's floating-point objective and constraint sums, and in the multiplication by the fixture multiplier. Rounding error, and the ties or near-ties it can create or break, are not modelled.
- SelectFplSquad.SelectFplSquad: requires that every row has the metric column. A frame missing it raises `KeyError` in the source.
- SelectFplSquad.SelectFplSquad: requires that ids are unique after de-duplication. A repeated `id_player` makes `df.loc[i, metric]` return a Series in the source, which is not modelled.
- FplBotV1r1.SelectFplSquad: has the same two requirements, applied to the rows as given.
- `pd.to_numeric` is not modelled: cost and metric are typed numbers from the start, so the conversion and its failure on non-numeric text do not appear.
- SelectFplSquad.SelectFplSquad: returns `id_player` in each chosen row. The source's final `reset_index(drop=True)` discards the id column; the rest of each row is the same.
- FplBotV1r1.SelectFplSquad: returns `id_player` in each chosen row, for the same reason.
- Data sourcing is not modelled: HTTP requests to the FPL API, understat scraping, fixture dates, and the YAML and merge steps that build the frames.
- Only the fixture multiplier of `calculate_exp_points` is modelled. Its goal, assist, clean-sheet and minutes terms use floating-point `exp` and are left out.
- `group_points_data`, the expected-goals-conceded and fixture-strength aggregations, saving and emailing the squad, and the `main` functions are not modelled.
  - That includes `main` passing `num_gws = 7` to the form feature; the model keeps `num_gws` as a parameter with the source's default of 3.
- FplBotV1r1.FixtureMultiplier: takes a real number. A NaN `mean_strength`, for which both comparisons are false and the multiplier is 1, is not representable.
- Gameweek history rows carry only `element`, `round` and `total_points`. The source's other columns ride along through the window and the merge unchanged.
- FeatureEngineering.CalcPointsPerGame: the merged column is named `mean_ppg_{num_gws}` in the source; the model holds the value in a field, without the name.
- FplBotV1r1.ApplyThresholds: requires that every filtered column exists. A missing column raises `KeyError` in the source.
- FplBotV1r1.RemapTeamNames: models the row as a class updated in place. It does not model how `DataFrame.apply(axis=1)` copies rows.
- FplBotV1r1.ApplyThresholds: takes the filter list as an explicit argument. The source's empty default (`filter_dict={}`) is the case `PassingNoFilters` covers.
