/**
 * The Metaflow flow of NFL_Play_By_Play/data_prep.py: an object that holds
 * the raw play-by-play table and the working table of one team's plays,
 * and whose steps replace the working table step by step.  Each step is
 * proved to leave exactly the table that the corresponding function of
 * `StartStep`, `DriveIndex` or `Aggregation` describes; the properties of
 * those tables are proved there.
 */
module DataPrep {
  import opened Wrappers
  import opened Frames
  import opened Grouped
  import opened Metrics
  import opened StartStep
  import opened DriveIndex
  import opened Aggregation

  /** The team whose plays this flow keeps: the San Francisco 49ers. */
  const SanFrancisco: string := "SF"

  /** `df[name] = a` followed by `df[name] = b` is `df[name] = b`. */
  lemma WithTwice(f: Frame, name: string, a: seq<Cell>, b: seq<Cell>)
    requires f.Valid() && |a| == f.size && |b| == f.size
    ensures f.With(name, a).With(name, b) == f.With(name, b)
  {
    assert f.With(name, a).With(name, b).cols == f.With(name, b).cols;
  }

  /**
   * The `start` step as the flow runs it.  When the team filter keeps no
   * row, the row-wise apply that labels the plays yields a table rather
   * than a column and storing it under `full_play_type` raises; the working
   * table is then the filtered, NaN-replaced one.  Otherwise the step
   * leaves `StartFrame`.
   */
  function StartRun(data: Frame, team: string): (r: Run)
    requires data.Valid() && HasInputColumns(data) && LabelsReady(data, team)
    ensures r.frame.Valid()
    ensures r.failure.Some? <==> forall i :: 0 <= i < data.size ==> !IsTeamPlay(data, team, i)
    ensures r.failure.Some? ==> r.failure == Some(EmptyApply("full_play_type")) && r.frame.size == 0
    ensures r.failure.None? ==> r.frame.size == |Kept(StartMask(data, team))|
  {
    NoTeamPlayNoStartRow(data, team);
    StartKeepsExactly(data, team);
    if |Kept(TeamMask(data, team))| == 0 then
      Run(Selected(data, team).FillAll(Text("unknown")), Some(EmptyApply("full_play_type")))
    else
      Run(StartFrame(data, team), None)
  }

  /**
   * `start` and then `drive_level_index`: both succeed exactly when some
   * play survives the filters; the first to raise is the labelling (no
   * team play at all) or the drive key (no play on the allow-list).
   */
  function StartIndexRun(data: Frame, team: string): (r: Run)
    requires data.Valid() && HasInputColumns(data) && LabelsReady(data, team)
    requires "game_id" in data.cols && "drive" in data.cols
    ensures r.frame.Valid()
    ensures r.failure.None? <==> |Kept(StartMask(data, team))| > 0
    ensures r.failure.Some? ==> r.failure.value.EmptyApply?
    ensures r.failure.None? ==> r.frame == DriveIndexFrame(StartFrame(data, team))
  {
    NoTeamPlayNoStartRow(data, team);
    StartKeepsExactly(data, team);
    var s := StartRun(data, team);
    if s.failure.Some? then s
    else
      match DriveIndexStep(s.frame)
      case Err(x) => Run(s.frame, Some(x))
      case Ok(g) => Run(g, None)
  }

  /**
   * The table the whole flow ends with: `start`, `drive_level_index` and
   * `drive_level_metrics` in turn (`end` does nothing).  A run with no
   * surviving play stops with the empty-apply error; one that succeeds has
   * one row per play the start step keeps.
   */
  function FlowTable(data: Frame, team: string): (r: Run)
    requires data.Valid() && HasInputColumns(data) && LabelsReady(data, team)
    requires "game_id" in data.cols && "drive" in data.cols
    ensures r.frame.Valid()
    ensures |Kept(StartMask(data, team))| == 0 ==> r.failure.Some? && r.failure.value.EmptyApply?
    ensures r.failure.None? ==> r.frame.size == |Kept(StartMask(data, team))| > 0
  {
    StartKeepsExactly(data, team);
    var s := StartIndexRun(data, team);
    if s.failure.Some? then s
    else Aggregation.DriveLevelMetrics(s.frame, MetricList)
  }

  /**
   * The flow object, for the team code it filters on (the repository has
   * one copy of the flow per team).
   */
  class NflStatsFlow {
    /** The `posteam` code of the kept plays. */
    const team: string
    /** `self.nfl_dataframe`: the whole play-by-play table as read from the CSV file. */
    var nflDataframe: Frame
    /** `self.san_fran_df`: the working table of the team's plays. */
    var df: Frame

    /** The CSV text is parsed outside the model: the flow starts from its table. */
    constructor(data: Frame, team: string)
      ensures this.team == team && nflDataframe == data && df == Frame(0, map[])
    {
      this.team := team;
      nflDataframe := data;
      df := Frame(0, map[]);
    }

    /**
     * `start`: keep the team's run and pass plays on downs 1-4 that are not
     * spikes or kneels, replace missing cells by "unknown", add the full play
     * type, keep the nine directional play types, and split the yards gained
     * into rushing and passing yards.
     */
    method Start() returns (failure: Option<Error>)
      requires nflDataframe.Valid() && HasInputColumns(nflDataframe) && LabelsReady(nflDataframe, team)
      modifies this
      ensures nflDataframe == old(nflDataframe)
      ensures Run(df, failure) == StartRun(nflDataframe, team)
    {
      df := nflDataframe.SelectRows(TeamMask(nflDataframe, team));
      df := df.FillAll(Text("unknown"));
      if df.size == 0 {
        return Some(EmptyApply("full_play_type"));
      }
      df := df.With("full_play_type", PlayTypeColumn(df));
      df := df.SelectRows(AllowedMask(df));
      df := df.With("rushing_yards_gained", YardSplit(df, "run"));
      df := df.With("passing_yards_gained", YardSplit(df, "pass"));
      failure := None;
    }

    /**
     * `drive_level_index`: add `unique_drive`, the game id and the drive
     * number joined by '_'; on a table with no rows the step raises and the
     * table is unchanged.
     */
    method DriveLevelIndex() returns (failure: Option<Error>)
      requires df.Valid() && "game_id" in df.cols && "drive" in df.cols
      modifies this
      ensures nflDataframe == old(nflDataframe)
      ensures match DriveIndexStep(old(df))
        case Err(x) => failure == Some(x) && df == old(df)
        case Ok(g) => failure == None && df == g
    {
      if df.size == 0 {
        return Some(EmptyApply("unique_drive"));
      }
      df := df.With("unique_drive", DriveKeyColumn(df));
      failure := None;
    }

    /**
     * The inner `get_cumulative_data`: on success the table is the one
     * `CumulativeStep` describes; on failure it is unchanged and the error
     * is the one the step raises.
     */
    method GetCumulativeData(metric: string, newName: string, fillBlanks: int, granularity: string)
      returns (failure: Option<Error>)
      requires df.Valid()
      modifies this
      ensures nflDataframe == old(nflDataframe)
      ensures match CumulativeStep(old(df), metric, newName, fillBlanks, granularity)
        case Err(x) => failure == Some(x) && df == old(df)
        case Ok(g) => failure == None && df == g
    {
      var indexName := "unique_drive";
      if granularity == "game" {
        indexName := "game_id";
      }
      if indexName !in df.cols {
        return Some(MissingColumn(indexName));
      }
      if metric !in df.cols {
        return Some(MissingColumn(metric));
      }
      if !AllNum(df.cols[metric]) {
        return Some(NonNumeric(metric));
      }
      ghost var f0 := df;
      var a := ToCells(CumsumAfter(df.cols[indexName], Nums(df.cols[metric])));
      df := df.With(newName + "_after", a);
      IndexNotAfter(granularity, newName);
      var shifted := ShiftInGroup(df.cols[indexName], df.cols[newName + "_after"], Missing);
      df := df.With(newName, shifted);
      df := df.With(newName, FillMissing(df.cols[newName], Num(fillBlanks)));
      WithTwice(f0.With(newName + "_after", a), newName, shifted, FillMissing(shifted, Num(fillBlanks)));
      failure := None;
    }

    /**
     * The inner `get_rank_data`: on success the table is the one `RankStep`
     * describes; on failure it is unchanged.  The fill value is accepted
     * and not used.
     */
    method GetRankData(metric: string, newName: string, fillBlanks: int, granularity: string)
      returns (failure: Option<Error>)
      requires df.Valid()
      modifies this
      ensures nflDataframe == old(nflDataframe)
      ensures match RankStep(old(df), metric, newName, granularity)
        case Err(x) => failure == Some(x) && df == old(df)
        case Ok(g) => failure == None && df == g
    {
      var indexName := "unique_drive";
      if granularity == "game" {
        indexName := "game_id";
      }
      if indexName !in df.cols {
        return Some(MissingColumn(indexName));
      }
      if metric !in df.cols {
        return Some(MissingColumn(metric));
      }
      if !AllNum(df.cols[metric]) {
        return Some(NonNumeric(metric));
      }
      var a := ToCells(OrdinalRank(df.cols[indexName], Nums(df.cols[metric])));
      df := df.With(newName, a);
      failure := None;
    }

    /**
     * One pass of the loop of `drive_level_metrics`: a cumulative entry at
     * drive scope and then at game scope, anything else as a game-scope rank
     * named after its `new_name`.  Table and error are those of `ApplyEntry`.
     */
    method ApplyMetricEntry(e: MetricEntry) returns (failure: Option<Error>)
      requires df.Valid()
      modifies this
      ensures nflDataframe == old(nflDataframe)
      ensures Run(df, failure) == ApplyEntry(old(df), e)
    {
      if e.kind == "cumulative_data" {
        failure := GetCumulativeData(e.metric, "drive" + "_" + e.metric, e.fillBlanks, "drive");
        if failure.Some? {
          return;
        }
        failure := GetCumulativeData(e.metric, "game" + "_" + e.metric, e.fillBlanks, "game");
      } else if e.newName.None? {
        failure := Some(MissingKey("new_name"));
      } else {
        failure := GetRankData(e.metric, "game" + "_" + e.newName.value, e.fillBlanks, "game");
      }
    }

    /**
     * The loop of `drive_level_metrics` over a metric list: each entry in
     * turn, stopping at the first call that raises.  The table and the
     * error are those of `RunEntries`.
     */
    method ApplyMetricList(list: seq<MetricEntry>) returns (failure: Option<Error>)
      requires df.Valid()
      modifies this
      ensures nflDataframe == old(nflDataframe)
      ensures Run(df, failure) == RunEntries(old(df), list)
    {
      var k := 0;
      while k < |list|
        invariant 0 <= k <= |list| && df.Valid()
        invariant nflDataframe == old(nflDataframe)
        invariant RunEntries(old(df), list) == RunEntries(df, list[k..])
      {
        assert list[k..][0] == list[k] && list[k..][1..] == list[k + 1..];
        failure := ApplyMetricEntry(list[k]);
        if failure.Some? {
          return;
        }
        k := k + 1;
      }
      failure := None;
    }

    /**
     * `drive_level_metrics`: the loop over the shipped metric list, then
     * `previous_play_in_drive`, the drive's previous full play type with
     * "first_play" for a drive's first play.  The table and the error are
     * those of `Aggregation.DriveLevelMetrics`; `MetricListOutputs` says
     * what the columns hold.
     */
    method DriveLevelMetrics() returns (failure: Option<Error>)
      requires df.Valid()
      modifies this
      ensures nflDataframe == old(nflDataframe)
      ensures Run(df, failure) == Aggregation.DriveLevelMetrics(old(df), MetricList)
    {
      failure := ApplyMetricList(MetricList);
      if failure.Some? {
        return;
      }
      if "unique_drive" !in df.cols {
        return Some(MissingColumn("unique_drive"));
      }
      if "full_play_type" !in df.cols {
        return Some(MissingColumn("full_play_type"));
      }
      ghost var g0 := df;
      var shifted := ShiftInGroup(df.cols["unique_drive"], df.cols["full_play_type"], Missing);
      df := df.With("previous_play_in_drive", shifted);
      df := df.With("previous_play_in_drive", FillMissing(df.cols["previous_play_in_drive"], Text("first_play")));
      WithTwice(g0, "previous_play_in_drive", shifted, FillMissing(shifted, Text("first_play")));
    }

    /** The flow's steps in the order Metaflow runs them. */
    method RunFlow() returns (failure: Option<Error>)
      requires nflDataframe.Valid() && HasInputColumns(nflDataframe) && LabelsReady(nflDataframe, team)
      requires "game_id" in nflDataframe.cols && "drive" in nflDataframe.cols
      modifies this
      ensures nflDataframe == old(nflDataframe)
      ensures Run(df, failure) == FlowTable(nflDataframe, team)
    {
      StartKeepsExactly(nflDataframe, team);
      failure := Start();
      if failure.Some? {
        return;
      }
      failure := DriveLevelIndex();
      if failure.Some? {
        return;
      }
      failure := DriveLevelMetrics();
    }
  }

  /** `NFLStatsFlow()` run as a script: the flow for San Francisco on the given table. */
  method SanFranciscoFlow(data: Frame) returns (flow: NflStatsFlow, failure: Option<Error>)
    requires data.Valid() && HasInputColumns(data) && LabelsReady(data, SanFrancisco)
    requires "game_id" in data.cols && "drive" in data.cols
    ensures flow.team == SanFrancisco && flow.nflDataframe == data
    ensures Run(flow.df, failure) == FlowTable(data, SanFrancisco)
  {
    flow := new NflStatsFlow(data, SanFrancisco);
    failure := flow.RunFlow();
  }
}
