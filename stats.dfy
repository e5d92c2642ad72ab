/**
 * NFL_Play_By_Play/stats.py: the same flow for the Baltimore Ravens, except
 * for its cumulative helper.  That helper takes the table as a leading
 * `dataframe` parameter, which the driver loop never passes, so the first
 * cumulative entry raises a TypeError; and even when given a table, the
 * helper only rebinds its local name, so the flow's table never changes
 * through it.  The start and drive-index steps are those of `DataPrep`
 * with the team "BAL".
 */
module Stats {
  import opened Wrappers
  import opened Frames
  import opened Grouped
  import opened Metrics
  import opened StartStep
  import opened DriveIndex
  import opened Aggregation
  import opened DataPrep

  /** The team whose plays this copy of the flow keeps: the Baltimore Ravens. */
  const Baltimore: string := "BAL"

  /**
   * The helper as written, called with the flow's table: it rebinds its
   * local `dataframe` to the concatenated table, writes the new columns
   * there and drops it.  It can only raise; the flow's table stays as it
   * was, where the step it stands for would have added `newName`.
   */
  method GetCumulativeData(flow: NflStatsFlow, metric: string, newName: string, fillBlanks: int, granularity: string)
    returns (failure: Option<Error>)
    requires flow.df.Valid()
    modifies flow
    ensures flow.df == old(flow.df) && flow.nflDataframe == old(flow.nflDataframe)
    ensures failure.Some? <==> IndexName(granularity) !in flow.df.cols || metric !in flow.df.cols || !AllNum(flow.df.cols[metric])
    ensures failure.Some? ==> failure == Some(CumulativeStep(flow.df, metric, newName, fillBlanks, granularity).error)
    ensures failure.None? && newName !in flow.df.cols ==>
      CumulativeStep(flow.df, metric, newName, fillBlanks, granularity).Ok? &&
      newName in CumulativeStep(flow.df, metric, newName, fillBlanks, granularity).value.cols
  {
    var dataframe := flow.df;
    var indexName := "unique_drive";
    if granularity == "game" {
      indexName := "game_id";
    }
    if indexName !in dataframe.cols {
      return Some(MissingColumn(indexName));
    }
    if metric !in dataframe.cols {
      return Some(MissingColumn(metric));
    }
    if !AllNum(dataframe.cols[metric]) {
      return Some(NonNumeric(metric));
    }
    var a := ToCells(CumsumAfter(dataframe.cols[indexName], Nums(dataframe.cols[metric])));
    dataframe := dataframe.With(newName + "_after", a);
    IndexNotAfter(granularity, newName);
    var shifted := ShiftInGroup(dataframe.cols[indexName], dataframe.cols[newName + "_after"], Missing);
    dataframe := dataframe.With(newName, shifted);
    dataframe := dataframe.With(newName, FillMissing(dataframe.cols[newName], Num(fillBlanks)));
    failure := None;
  }

  /**
   * One pass of this copy's driver loop: a cumulative entry calls the helper
   * without its `dataframe` argument and raises; anything else is ranked as
   * in `ApplyEntry`.
   */
  function StatsApplyEntry(f: Frame, e: MetricEntry): (r: Run)
    requires f.Valid()
    ensures e.kind == "cumulative_data" ==> r == Run(f, Some(MissingArgument("dataframe")))
    ensures e.kind != "cumulative_data" ==> r == ApplyEntry(f, e)
  {
    if e.kind == "cumulative_data" then Run(f, Some(MissingArgument("dataframe")))
    else ApplyEntry(f, e)
  }

  /** This copy's driver loop, stopping at the first call that raises. */
  function StatsRunEntries(f: Frame, list: seq<MetricEntry>): (r: Run)
    requires f.Valid()
    ensures r.frame.Valid() && r.frame.size == f.size
    decreases |list|
  {
    if |list| == 0 then Run(f, None)
    else
      var r0 := StatsApplyEntry(f, list[0]);
      if r0.failure.Some? then r0 else StatsRunEntries(r0.frame, list[1..])
  }

  /** This copy's `drive_level_metrics`: the loop, then the previous play. */
  function StatsDriveLevelMetrics(f: Frame, list: seq<MetricEntry>): (r: Run)
    requires f.Valid()
    ensures r.frame.Valid() && r.frame.size == f.size
  {
    var r := StatsRunEntries(f, list);
    if r.failure.Some? then r
    else match PreviousPlayStep(r.frame)
      case Err(x) => Run(r.frame, Some(x))
      case Ok(g) => Run(g, None)
  }

  /**
   * A list of rank entries followed by a cumulative entry: the loop applies
   * the ranks as the corrected flow does and then raises the TypeError,
   * leaving the table the ranks made.
   */
  lemma {:induction false} StatsStopsAtCumulative(f: Frame, list: seq<MetricEntry>, k: nat)
    requires f.Valid() && k < |list| && list[k].kind == "cumulative_data"
    requires forall j :: 0 <= j < k ==> list[j].kind != "cumulative_data"
    ensures StatsRunEntries(f, list) ==
      var r := RunEntries(f, list[..k]);
      if r.failure.Some? then r else Run(r.frame, Some(MissingArgument("dataframe")))
    decreases k
  {
    if k == 0 {
    } else {
      var r0 := ApplyEntry(f, list[0]);
      assert list[..k][0] == list[0] && list[..k][1..] == list[1..][..k - 1];
      if r0.failure.None? {
        StatsStopsAtCumulative(r0.frame, list[1..], k - 1);
      }
    }
  }

  /**
   * With the shipped metric list, whose first entry is cumulative, this
   * copy's `drive_level_metrics` raises before adding any column: the
   * table is returned exactly as it came in.
   */
  lemma StatsMetricListFails(f: Frame)
    requires f.Valid()
    ensures StatsDriveLevelMetrics(f, MetricList) == Run(f, Some(MissingArgument("dataframe")))
  {
    MetricListShape();
    StatsStopsAtCumulative(f, MetricList, 0);
  }

  /**
   * This copy's `drive_level_metrics` on the flow object, for the metric
   * list it imports: the table and error are those of
   * `StatsDriveLevelMetrics`.
   */
  method DriveLevelMetrics(flow: NflStatsFlow, list: seq<MetricEntry>) returns (failure: Option<Error>)
    requires flow.df.Valid()
    modifies flow
    ensures flow.nflDataframe == old(flow.nflDataframe)
    ensures Run(flow.df, failure) == StatsDriveLevelMetrics(old(flow.df), list)
  {
    var k := 0;
    while k < |list|
      invariant 0 <= k <= |list| && flow.df.Valid()
      invariant flow.nflDataframe == old(flow.nflDataframe)
      invariant StatsRunEntries(old(flow.df), list) == StatsRunEntries(flow.df, list[k..])
    {
      assert list[k..][0] == list[k] && list[k..][1..] == list[k + 1..];
      var e := list[k];
      if e.kind == "cumulative_data" {
        return Some(MissingArgument("dataframe"));
      }
      failure := flow.ApplyMetricEntry(e);
      if failure.Some? {
        return;
      }
      k := k + 1;
    }
    if "unique_drive" !in flow.df.cols {
      return Some(MissingColumn("unique_drive"));
    }
    if "full_play_type" !in flow.df.cols {
      return Some(MissingColumn("full_play_type"));
    }
    ghost var g0 := flow.df;
    var shifted := ShiftInGroup(flow.df.cols["unique_drive"], flow.df.cols["full_play_type"], Missing);
    flow.df := flow.df.With("previous_play_in_drive", shifted);
    flow.df := flow.df.With("previous_play_in_drive", FillMissing(flow.df.cols["previous_play_in_drive"], Text("first_play")));
    WithTwice(g0, "previous_play_in_drive", shifted, FillMissing(shifted, Text("first_play")));
    failure := None;
  }

  /**
   * `NFLStatsFlow()` of this copy run as a script: start and drive index
   * run as in `DataPrep` for Baltimore; when they succeed,
   * `drive_level_metrics` raises at the first metric, leaving their table
   * as it is.
   */
  method BaltimoreFlow(data: Frame) returns (flow: NflStatsFlow, failure: Option<Error>)
    requires data.Valid() && HasInputColumns(data) && LabelsReady(data, Baltimore)
    requires "game_id" in data.cols && "drive" in data.cols
    ensures flow.team == Baltimore && flow.nflDataframe == data
    ensures var s := StartIndexRun(data, Baltimore);
      if s.failure.Some? then Run(flow.df, failure) == s
      else failure == Some(MissingArgument("dataframe")) && flow.df == s.frame
  {
    flow := new NflStatsFlow(data, Baltimore);
    StartKeepsExactly(data, Baltimore);
    failure := flow.Start();
    if failure.Some? {
      return;
    }
    failure := flow.DriveLevelIndex();
    if failure.Some? {
      return;
    }
    ghost var indexed := flow.df;
    failure := DriveLevelMetrics(flow, MetricList);
    StatsMetricListFails(indexed);
  }
}
