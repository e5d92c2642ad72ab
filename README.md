# NFL play-by-play drive and game metrics, in Dafny

This project models the NFL_Play_By_Play pipeline. The pipeline is a Metaflow flow
(`NFLStatsFlow`). It reads a season of play-by-play rows and keeps one team's
offensive run and pass plays. It labels each play with a full play type such as
`pass_left_short` or `run_middle`, and drops plays whose label is not one of the
nine directional labels. It splits the yards gained into rushing and passing
yards. It then keys every play by its drive (`unique_drive` = game id, `_`, drive
number). A declarative metric list drives the rest of the flow:

- For each cumulative metric, the flow adds the running total within the drive
  and within the game, "after" the play.
- It also adds those totals shifted to "before" the play, with 0 for a drive's
  or game's first play.
- It adds the play's ordinal rank by `play_id` within its game.
- Finally it adds the previous play type of the drive.

`stats.py` is a second copy of the flow, for Baltimore instead of San Francisco,
whose cumulative helper cannot work.

## Modules

- `wrappers.dfy` (`Wrappers`): `Option` and `Result`.
- `frames.dfy` (`Frames`): the table.
  - A `Frame` is a row count plus a map from column name to a sequence of
    cells. A cell is an integer, a text value or missing (NaN).
  - It provides column assignment, boolean-mask row selection and missing-value
    filling.
  - A pandas error becomes an `Error` value.
- `grouped.dfy` (`Grouped`): the grouped operations on sequences.
  - `groupby(..).cumsum()` is `CumsumAfter`.
  - `groupby(..).shift(1)` is `ShiftInGroup`.
  - `groupby(..).rank(method='first')` is `OrdinalRank`.
  - Also here: their laws (no leakage, chaining, ranks are a permutation).
- `play_types.dfy` (`PlayTypes`): `get_full_play_type` and the nine-label
  allow-list.
- `metric_list.dfy` (`Metrics`): the metric list and how the driver reads an entry.
  Also: the column names the driver writes, and a proof that they never collide.
- `start_step.dfy` (`StartStep`): the `start` step, as a function on tables,
  and what it keeps.
- `drive_index.dfy` (`DriveIndex`): the `drive_level_index` step and the drive key.
- `aggregation.dfy` (`Aggregation`): the helpers of `drive_level_metrics`, the
  driver loop and the previous-play column, as functions on tables, and what
  they write.
- `data_prep.dfy` (`DataPrep`): the flow object, `class NflStatsFlow`.
  - Its steps reassign the working table `df` one pandas statement at a time.
  - Each step is proved to leave exactly the table the corresponding function
    describes.
  - The team code is a constructor argument: "SF" here, "BAL" in `stats.py`.
- `stats.dfy` (`Stats`): the diverging `drive_level_metrics` of `stats.py`.

## Model

| member | source | states |
|---|---|---|
| PlayTypes.FullPlayType | NFL_Play_By_Play/modules.py:4-9 | the label starts with the play type followed by `_` |
| PlayTypes.RunPlayType | NFL_Play_By_Play/modules.py:6-7 | a run is labelled `run_<run_location>`, whatever its pass fields hold |
| PlayTypes.OtherPlayType | NFL_Play_By_Play/modules.py:8-9 | any other play type is labelled `<type>_<pass_location>_<pass_length>`, whatever its run location |
| PlayTypes.SplitOne | NFL_Play_By_Play/modules.py:7 | two underscore-free fields joined by `_` can be read back uniquely |
| PlayTypes.SplitTwo | NFL_Play_By_Play/modules.py:9 | three underscore-free fields joined by `_` can be read back uniquely |
| PlayTypes.AllowedEntry | NFL_Play_By_Play/data_prep.py:50 | the allow-list is the six pass labels (direction × short/deep) followed by the three run labels (direction) |
| PlayTypes.NoUnderscoreInFields | NFL_Play_By_Play/data_prep.py:50 | no play type, direction or pass length in the allow-list contains `_` |
| PlayTypes.AllowedPlayTypeFields | NFL_Play_By_Play/data_prep.py:49-50 | a play's label is allowed iff it is a run with a left/middle/right location, or a pass with a left/middle/right location and a short/deep length |
| Frames.Frame.With | NFL_Play_By_Play/data_prep.py:56 | assigning a column sets that column and leaves every other column and the row count unchanged |
| Frames.Frame.SelectRows | NFL_Play_By_Play/data_prep.py:34-40 | boolean indexing keeps exactly the rows `Kept(mask)` lists, cell for cell, with the same columns |
| Frames.Frame.FillAll | NFL_Play_By_Play/data_prep.py:48 | `replace(np.nan, v)` turns every missing cell into `v` and keeps every other cell |
| Frames.Kept | NFL_Play_By_Play/data_prep.py:34-40 | the kept positions are within bounds and all have a true mask entry |
| Frames.KeptSpec | NFL_Play_By_Play/data_prep.py:34-40 | the kept positions are increasing and include every true entry, so filtering keeps the original order |
| Frames.KeptCompose | NFL_Play_By_Play/data_prep.py:50 | filtering the filtered rows by a second mask equals filtering the original rows once by the conjunction of the masks |
| Frames.FillMissing | NFL_Play_By_Play/data_prep.py:83 | `fillna(v)` replaces exactly the missing cells |
| Frames.ToCells | NFL_Play_By_Play/data_prep.py:79 | integer results become integer cells, read back unchanged by `Nums` |
| StartStep.StartMask | NFL_Play_By_Play/data_prep.py:34-50 | a row survives the start step iff it passes the team/down/run-or-pass/no-spike/no-kneel filter and its label is allowed |
| StartStep.TeamMask | NFL_Play_By_Play/data_prep.py:34-40 | the first filter's mask is the team-play predicate, row by row |
| StartStep.FilledRows | NFL_Play_By_Play/data_prep.py:48 | after the filter and NaN replacement, row k is input row `Kept(team mask)[k]` with missing cells read as "unknown" |
| StartStep.LabelledRows | NFL_Play_By_Play/data_prep.py:49 | `full_play_type` of row k is the label of input row `Kept(team mask)[k]` |
| StartStep.AllowedMaskIsSelect | NFL_Play_By_Play/data_prep.py:50 | the allow-list mask on the team rows is the start mask read at those rows |
| StartStep.StartKeepsExactly | NFL_Play_By_Play/data_prep.py:34-57 | the start table has one row per surviving input row, in input order (row k is input row `keep[k]`). Its columns are the input's plus `full_play_type`, `rushing_yards_gained` and `passing_yards_gained`. Every input column holds the input cell with NaN read as "unknown", and `full_play_type` holds the input row's label |
| StartStep.StartYardColumns | NFL_Play_By_Play/data_prep.py:56-57 | kept row k's rushing yards are input row `keep[k]`'s yards gained if it is a run and 0 otherwise, and likewise its passing yards for a pass |
| StartStep.YardSplitSums | NFL_Play_By_Play/data_prep.py:56-57 | every kept play is a run or a pass. Rushing yards are the yards of a run and 0 otherwise; passing yards likewise for a pass. Where yards are an integer, rushing + passing = yards gained |
| StartStep.StartMaskFields | NFL_Play_By_Play/data_prep.py:34-50 | a row survives iff it is a team play and either a run to left/middle/right or a pass to left/middle/right that is short or deep (missing fields read as "unknown") |
| StartStep.NoTeamPlayNoStartRow | NFL_Play_By_Play/data_prep.py:34-50 | the team filter keeps no row iff no input row is a team play, and then the allow-list keeps none either |
| DriveIndex.Digit | NFL_Play_By_Play/data_prep.py:66 | a decimal digit character |
| DriveIndex.NatToString | NFL_Play_By_Play/data_prep.py:66 | `str` of a natural number is a non-empty string of digits, one digit exactly for numbers below 10 |
| DriveIndex.IntToString | NFL_Play_By_Play/data_prep.py:66 | `str` of an integer is non-empty, has no `_`, and starts with `-` iff the integer is negative |
| DriveIndex.NatToStringInjective | NFL_Play_By_Play/data_prep.py:66 | different natural numbers print differently |
| DriveIndex.IntToStringInjective | NFL_Play_By_Play/data_prep.py:66 | different integers print differently |
| DriveIndex.DriveKey | NFL_Play_By_Play/data_prep.py:66 | for integer ids the key is `str(game_id) + '_' + str(drive)` |
| DriveIndex.DriveKeyInjective | NFL_Play_By_Play/data_prep.py:66 | two plays get the same drive key iff they have the same game id and the same drive number |
| DriveIndex.DriveKeyColumn | NFL_Play_By_Play/data_prep.py:66 | one key per row, each a text containing `_` |
| DriveIndex.DriveIndexFrame | NFL_Play_By_Play/data_prep.py:66 | the step adds `unique_drive` with each row's key and keeps the rows, their order and every other column |
| DriveIndex.DriveIndexStep | NFL_Play_By_Play/data_prep.py:66 | the step raises (a row-wise apply over no rows yields a table, which cannot be stored as one column) exactly when the table has no rows; otherwise it adds `unique_drive` and keeps the rows |
| Grouped.LastIndex | NFL_Play_By_Play/data_prep.py:82 | the last earlier row of the same group, or none when no earlier row shares the key |
| Grouped.GroupSumLocal | NFL_Play_By_Play/data_prep.py:79 | a group's running total reads only that group's earlier values |
| Grouped.GroupSumSkip | NFL_Play_By_Play/data_prep.py:79 | rows of other groups do not change a group's running total |
| Grouped.GroupSumPrefix | NFL_Play_By_Play/data_prep.py:79 | a running total up to row n does not depend on rows from n on |
| Grouped.CumsumAfter | NFL_Play_By_Play/data_prep.py:79 | `groupby(index)[metric].cumsum()`: each row holds the sum of the metric over the rows of its group up to and including itself |
| Grouped.CumsumAfterStep | NFL_Play_By_Play/data_prep.py:79 | extending the running totals by one row adds that row's value to its group's previous total |
| Grouped.CumulativeBefore | NFL_Play_By_Play/data_prep.py:82-83 | the shifted, filled total is the fill value on a group's first row and otherwise the sum over the strictly earlier rows of the group |
| Grouped.CumulativeBeforeLocal | NFL_Play_By_Play/data_prep.py:79-83 | no leakage: a row's "before" value does not change when its own value, later values or other groups' values change |
| Grouped.CumulativeChain | NFL_Play_By_Play/data_prep.py:79-83 | a row's "before" value is its predecessor's "after" value, which is the predecessor's "before" value plus its metric |
| Grouped.GroupBefore | NFL_Play_By_Play/data_prep.py:89 | the rows of a group before row n |
| Grouped.Group | NFL_Play_By_Play/data_prep.py:89 | the rows of a group |
| Grouped.OrdinalRank | NFL_Play_By_Play/data_prep.py:89 | one rank per row |
| Grouped.RankBounds | NFL_Play_By_Play/data_prep.py:89 | every rank is between 1 and the size of the row's group |
| Grouped.RankOrder | NFL_Play_By_Play/data_prep.py:89 | within a group, row j ranks below row i iff its value is smaller, or equal and earlier in the table |
| Grouped.RankInjective | NFL_Play_By_Play/data_prep.py:89 | two rows of one group never share a rank |
| Grouped.RankPermutation | NFL_Play_By_Play/data_prep.py:89 | the ranks of a group of n rows are exactly 1..n |
| Grouped.RankLocal | NFL_Play_By_Play/data_prep.py:89 | a row's rank depends only on the values of its own group |
| Grouped.RankOfIncreasing | NFL_Play_By_Play/data_prep.py:89 | where values increase along each group (such as `play_id`), a row's rank is 1 + the number of earlier rows of its group |
| Grouped.Ranks | NFL_Play_By_Play/data_prep.py:89 | the set 1..n has n elements |
| Grouped.RankedBeforeGrows | NFL_Play_By_Play/data_prep.py:89 | a row that ranks before another has fewer rows ranked before it |
| Grouped.GroupRanksCard | NFL_Play_By_Play/data_prep.py:89 | distinct ranks in a group give as many ranks as rows |
| Grouped.GroupRanksBounded | NFL_Play_By_Play/data_prep.py:89 | ranks within 1..top stay in 1..top |
| Grouped.RankNotYetTaken | NFL_Play_By_Play/data_prep.py:89 | a later row's rank is not among the ranks of the earlier rows of its group |
| Metrics.Interpret | NFL_Play_By_Play/data_prep.py:95-115 | a `cumulative_data` entry is read as a cumulative metric. Any other entry is a rank named by its `new_name`, and lacks an interpretation (KeyError) iff it has no `new_name`. The metric and fill value are the entry's |
| Metrics.MetricListShape | NFL_Play_By_Play/metric_list.py:1-103 | the list has 20 entries: 19 cumulative ones, then one rank. Only the rank has a `new_name`. Every fill value is 0 |
| Metrics.OnlyRankNamed | NFL_Play_By_Play/metric_list.py:97-102 | the last entry ranks `play_id` as `play_count`, and no metric is called `play_count` |
| Metrics.MetricNamesDistinct | NFL_Play_By_Play/metric_list.py:1-103 | no metric is listed twice |
| Metrics.MetricNamesPlain | NFL_Play_By_Play/metric_list.py:1-103 | no metric name looks like a column the driver writes |
| Metrics.MetricListWellNamed | NFL_Play_By_Play/metric_list.py:1-103 | the shipped list has distinct, plain metric names, and only its rank entry has a `new_name` |
| Metrics.OutputNameSpelled | NFL_Play_By_Play/data_prep.py:80-82 | the names the driver builds are `drive_<m>`, `game_<m>`, `drive_<m>_after` and `game_<m>_after` |
| Metrics.OutputNameInjective | NFL_Play_By_Play/data_prep.py:80-82 | different scopes, metrics or after-flags never produce the same column name |
| Metrics.PlainNotOutput | NFL_Play_By_Play/data_prep.py:95-115 | a plain metric name is never a written column |
| Metrics.KeyNotOutput | NFL_Play_By_Play/data_prep.py:95-115 | no written column is `unique_drive` or `game_id` |
| Metrics.OutputDecompose | NFL_Play_By_Play/data_prep.py:95-115 | every column an entry writes is `<scope>_<name>[_after]` for scope drive or game |
| Metrics.OutputsDisjoint | NFL_Play_By_Play/data_prep.py:95-115 | on a well-named list, no two entries write the same column, and no entry overwrites a metric or a group key |
| Aggregation.IndexName | NFL_Play_By_Play/data_prep.py:76-78 | the group key is `game_id` for granularity "game" and `unique_drive` otherwise |
| Aggregation.CumulativeStep | NFL_Play_By_Play/data_prep.py:75-83 | the helper raises iff the group key or the metric is missing or the metric is not an integer column. Otherwise it adds exactly `<new_name>_after` and `<new_name>` and keeps the rows |
| Aggregation.CumulativeStepColumns | NFL_Play_By_Play/data_prep.py:79-83 | `<new_name>_after` is the grouped running total including the play. `<new_name>` is the total over the strictly earlier plays of the group (fill on the first). Every other column is unchanged |
| Aggregation.FillShifted | NFL_Play_By_Play/data_prep.py:82-83 | shifting integer cells and filling the gap is shifting the integers with the fill value |
| Aggregation.RankStep | NFL_Play_By_Play/data_prep.py:85-91 | the helper raises iff the key or metric is missing or not integer. Otherwise it adds exactly the grouped ordinal rank column and keeps every other column |
| Aggregation.ApplyEntry | NFL_Play_By_Play/data_prep.py:95-115 | one loop pass keeps the row count |
| Aggregation.RunEntries | NFL_Play_By_Play/data_prep.py:95-115 | the loop keeps the row count, and an empty list changes nothing |
| Aggregation.PreviousPlayStep | NFL_Play_By_Play/data_prep.py:117-118 | the step raises iff `unique_drive` or `full_play_type` is missing. Otherwise it adds exactly `previous_play_in_drive` |
| Aggregation.PreviousPlayColumn | NFL_Play_By_Play/data_prep.py:117-118 | `previous_play_in_drive` is the play type of the previous play of the drive, and "first_play" for a drive's first play |
| Aggregation.DriveLevelMetrics | NFL_Play_By_Play/data_prep.py:69-118 | the step keeps the row count |
| Aggregation.AllOutputsMember | NFL_Play_By_Play/data_prep.py:95-115 | a column is written by the loop iff some entry writes it |
| Aggregation.EntryWrittenTransfer | NFL_Play_By_Play/data_prep.py:95-115 | what an entry wrote survives steps that leave its inputs and its columns alone |
| Aggregation.EntryApplied | NFL_Play_By_Play/data_prep.py:95-115 | on a ready table, one pass succeeds and adds exactly the entry's columns with their values |
| Aggregation.CumulativeEntryApplied | NFL_Play_By_Play/data_prep.py:96-108 | a cumulative entry adds its four columns, at drive and at game scope |
| Aggregation.RankEntryApplied | NFL_Play_By_Play/data_prep.py:109-115 | a rank entry adds `game_<new_name>`, the per-game ordinal rank |
| Aggregation.DisciplinedTail | NFL_Play_By_Play/data_prep.py:95 | the rest of a disciplined list is disciplined and does not write the first entry's inputs |
| Aggregation.ReadyTail | NFL_Play_By_Play/data_prep.py:95 | after one pass the table is still ready for the rest of the list |
| Aggregation.DriverOutputs | NFL_Play_By_Play/data_prep.py:95-115 | on a ready table and a disciplined list, the loop raises nothing. It keeps the rows and every column, adds exactly the entries' columns, and each entry's columns hold what that entry computes |
| Aggregation.NotGenerated | NFL_Play_By_Play/data_prep.py:95-115 | a name starting with neither `d` nor `g` is never written by the loop |
| Aggregation.DriveLevelMetricsOutputs | NFL_Play_By_Play/data_prep.py:95-118 | the whole step, on a ready table, also adds `previous_play_in_drive` (the drive's previous play type, or "first_play") and changes nothing else |
| Aggregation.MetricListReady | NFL_Play_By_Play/metric_list.py:1-103 | a table with both keys and every listed metric as integers is ready for the shipped list, and the list is disciplined |
| Aggregation.CumulativeColumns | NFL_Play_By_Play/data_prep.py:96-108 | a cumulative entry's columns under their flow names `drive_<m>`, `game_<m>`, `drive_<m>_after`, `game_<m>_after` |
| Aggregation.RankColumn | NFL_Play_By_Play/data_prep.py:109-115 | a rank entry's column under its flow name `game_<new_name>` |
| Aggregation.CumulativeThenRankOutputs | NFL_Play_By_Play/data_prep.py:95-115 | for cumulative entries with fill 0 followed by one rank, every written column's value under its flow name |
| Aggregation.MetricListOutputs | NFL_Play_By_Play/data_prep.py:95-108 | with the shipped list the step raises nothing. For each of the 19 metrics, `drive_<m>`/`game_<m>` are the sums over the earlier plays of the drive/game (0 for the first) and the `_after` columns include the play |
| Aggregation.MetricListPlayCount | NFL_Play_By_Play/data_prep.py:109-115 | with the shipped list, `game_play_count` is each play's ordinal rank by `play_id` within its game |
| DataPrep.WithTwice | NFL_Play_By_Play/data_prep.py:82-83 | assigning a column twice is assigning it once with the second value |
| DataPrep.StartRun | NFL_Play_By_Play/data_prep.py:34-57 | `start` raises at the labelling exactly when no input row is a team play. Otherwise its table has one row per play the start mask keeps |
| DataPrep.StartIndexRun | NFL_Play_By_Play/data_prep.py:34-66 | `start` then `drive_level_index` succeed iff some play survives both filters, with the start table plus the drive key. Otherwise they stop with the empty-apply error |
| DataPrep.FlowTable | NFL_Play_By_Play/data_prep.py:19-120 | a run where no play survives the filters stops with the empty-apply error. A run that succeeds has one row per play the start step keeps |
| DataPrep.NflStatsFlow.constructor | NFL_Play_By_Play/data_prep.py:15-18 | the flow holds the input table, its team code and an empty working table |
| DataPrep.NflStatsFlow.Start | NFL_Play_By_Play/data_prep.py:20-57 | the step's working table and error are `StartRun` of the input table and the team: `StartFrame` on success. It does not touch the input table |
| DataPrep.NflStatsFlow.DriveLevelIndex | NFL_Play_By_Play/data_prep.py:62-66 | the step's outcome is `DriveIndexStep` of the old working table. On success the table gains the drive key; on the error it is unchanged |
| DataPrep.NflStatsFlow.GetCumulativeData | NFL_Play_By_Play/data_prep.py:75-83 | on error, the table is unchanged and the error is `CumulativeStep`'s. Otherwise the table is `CumulativeStep`'s result |
| DataPrep.NflStatsFlow.GetRankData | NFL_Play_By_Play/data_prep.py:85-91 | on error, the table is unchanged and the error is `RankStep`'s. Otherwise the table is `RankStep`'s result |
| DataPrep.NflStatsFlow.ApplyMetricEntry | NFL_Play_By_Play/data_prep.py:96-115 | one loop pass leaves the table and error of `ApplyEntry` |
| DataPrep.NflStatsFlow.ApplyMetricList | NFL_Play_By_Play/data_prep.py:95-115 | the loop leaves the table and error of `RunEntries` |
| DataPrep.NflStatsFlow.DriveLevelMetrics | NFL_Play_By_Play/data_prep.py:70-118 | the step leaves the table and error of `Aggregation.DriveLevelMetrics` with the shipped list |
| DataPrep.NflStatsFlow.RunFlow | NFL_Play_By_Play/data_prep.py:19-127 | the steps in order leave `FlowTable` of the input table and the team |
| DataPrep.SanFranciscoFlow | NFL_Play_By_Play/data_prep.py:129-130 | running the flow yields a San Francisco flow object whose table and error are `FlowTable(data, "SF")` |
| Stats.GetCumulativeData | NFL_Play_By_Play/stats.py:75-83 | the helper as written, given the flow's table, raises exactly when `CumulativeStep` would, with the same error. Otherwise the flow's table is unchanged, although the step it stands for adds `newName` |
| Stats.StatsApplyEntry | NFL_Play_By_Play/stats.py:96-115 | a cumulative entry raises the missing-`dataframe` TypeError and leaves the table. Any other entry acts as in the corrected flow |
| Stats.StatsRunEntries | NFL_Play_By_Play/stats.py:95-115 | the loop keeps the row count |
| Stats.StatsDriveLevelMetrics | NFL_Play_By_Play/stats.py:70-118 | the step keeps the row count |
| Stats.StatsStopsAtCumulative | NFL_Play_By_Play/stats.py:95-108 | the loop applies the entries before the first cumulative one as the corrected loop does, then raises the TypeError with the table they made |
| Stats.StatsMetricListFails | NFL_Play_By_Play/stats.py:97-102 | with the shipped list, whose first entry is cumulative, the step raises before adding any column and returns its table unchanged |
| Stats.DriveLevelMetrics | NFL_Play_By_Play/stats.py:70-118 | the step on the flow object leaves the table and error of `StatsDriveLevelMetrics` |
| Stats.BaltimoreFlow | NFL_Play_By_Play/stats.py:19-130 | running this copy gives the outcome of `StartIndexRun` for Baltimore when that raises. Otherwise it gives its start-and-index table, plus the TypeError |

## Left out

- Reading the CSV file (`IncludeFile`, `read_csv`) is not modelled: the flow starts
  from a table given to its constructor.
- Metaflow's step machinery (`self.next`, artifact persistence) is not modelled.
  `RunFlow` calls the steps in the order the flow declares them; the `end` step
  does nothing.
- pandas numeric types are not modelled. Counts and yards are integers, and the
  cumulative and rank columns are integer cells. pandas would produce float
  columns after the shift and fill, and float ranks (`1.0`, `2.0`, ...).
- `str()` of float ids is not modelled: `unique_drive` prints integer ids.
  A text id is used as it is, and a missing one prints as "nan".
- A cumulative or rank metric column holding a non-integer cell is an error
  (`NonNumeric`). pandas would concatenate strings or raise, depending on the
  cell types. Since the NaN replacement of the start step writes "unknown" into
  every missing cell, a metric with a gap lands in this case.
- Grouping with a missing key groups all missing keys together. pandas leaves such
  rows out of every group. After the start step no key is missing.
- Aggregation.DriverOutputs: on an input table that already has a column named
  like one of the written columns (say `drive_yards_gained_after`), the model
  replaces that column and reports success. `pandas.concat` would add a second
  column of the same name, and the later `[a.name]` selection would no longer
  pick out one column. `OutputsDisjoint` proves only that the entries' written
  names avoid each other, the listed metrics and the two group keys. It says
  nothing about other columns of the input table.
- Column order and pandas index labels are not modelled. Rows are identified by
  position, and row selection keeps the original order.
- `fillna(..., inplace=True)` on a selected column is taken to write through to
  the table, as the pandas of the time did.
- NflStatsFlow.Start: requires, on every team play, that the fields the classifier
  joins be text or missing (`LabelsReady`). For a run that is the run location.
  For any other play it is the pass location and length. A number there would make
  the label concatenation raise a TypeError, and that error path is not modelled.
  Fields the classifier does not read may hold anything.
- NflStatsFlow.Start: requires the input columns the filter and the labelling read
  (`HasInputColumns`). The attribute access of a missing column would raise, and
  that path is not modelled.
- NflStatsFlow.DriveLevelIndex: requires `game_id` and `drive`, for the same reason.
- FlowTable: its contract gives only the error when no play survives, and the row
  count on success. What the columns hold is stated
  by `StartKeepsExactly`, `DriveIndexFrame`, `MetricListOutputs`,
  `MetricListPlayCount` and `DriveLevelMetricsOutputs`.
- The commented-out helpers in NFL_Play_By_Play/modules.py:11-27 are not code and
  are not modelled.
- An entry whose `type` is not `cumulative_data` is ranked, whatever its type says.
  The code performs no validation of the type, and the model follows the code.
  An unknown type is not rejected, and a rank entry without `new_name` raises a
  KeyError (`MissingKey`).
- The rank helper accepts `fill_blanks` and never uses it; so does the model.
- The start and drive-index steps of NFL_Play_By_Play/stats.py are those of
  NFL_Play_By_Play/data_prep.py with the team "BAL". They are modelled once, as
  `NflStatsFlow` with that team code.

## Findings

| source | as written | input that shows it | evidently intended | confidence | as-written member | corrected member |
|---|---|---|---|---|---|---|
| NFL_Play_By_Play/stats.py:75 | `get_cumulative_data(dataframe, metric, ...)` takes a leading `dataframe`, but the loop at stats.py:97-108 calls it with keyword arguments only | any table: the first entry of the metric list (`yards_gained`) is cumulative, so the first call raises a TypeError and no metric column is added | the helper of NFL_Play_By_Play/data_prep.py:75-83, which works on the flow's own table | high (not executed) | Stats.StatsMetricListFails | DataPrep.NflStatsFlow.DriveLevelMetrics |
| NFL_Play_By_Play/stats.py:79-83 | given a table, the helper builds the new columns on its local `dataframe` and returns nothing | calling it with the flow's table: the flow's table gains no column | add the columns to the flow's table, as NFL_Play_By_Play/data_prep.py:79-83 does | high (not executed) | Stats.GetCumulativeData | DataPrep.NflStatsFlow.GetCumulativeData |
