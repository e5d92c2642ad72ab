/**
 * The aggregation engine of the `drive_level_metrics` step
 * (NFL_Play_By_Play/data_prep.py:69-118): grouped running totals shifted to
 * "before this play", grouped ordinal ranks, the driver that interprets the
 * metric list, and the previous play of the drive.  Each step is stated
 * here as a function on tables; the flow class performs them in place.
 */
module Aggregation {
  import opened Wrappers
  import opened Frames
  import opened Grouped
  import opened Metrics

  /** The grouping column of a granularity: games for "game", drives for anything else. */
  function IndexName(granularity: string): (index: string)
    ensures index == "game_id" || index == "unique_drive"
  {
    if granularity == "game" then "game_id" else "unique_drive"
  }

  /** A group key is never an `_after` column. */
  lemma IndexNotAfter(granularity: string, newName: string)
    ensures IndexName(granularity) != newName + "_after"
  {
    var a := newName + "_after";
    assert a[|a| - 1] == 'r';
  }

  /**
   * `get_cumulative_data`: add `<newName>_after`, the running total of the
   * metric within the group, then `<newName>`, that total shifted one row
   * down within the group with the first row of each group filled.
   * A missing grouping column, a missing metric column or a non-integer
   * metric cell raises before the table is touched.
   */
  function CumulativeStep(f: Frame, metric: string, newName: string, fill: int, granularity: string): (r: Result<Frame, Error>)
    requires f.Valid()
    ensures r.Err? <==> IndexName(granularity) !in f.cols || metric !in f.cols || !AllNum(f.cols[metric])
    ensures r.Ok? ==> r.value.Valid() && r.value.size == f.size
    ensures r.Ok? ==> r.value.cols.Keys == f.cols.Keys + {newName + "_after", newName}
  {
    var index := IndexName(granularity);
    if index !in f.cols then Err(MissingColumn(index))
    else if metric !in f.cols then Err(MissingColumn(metric))
    else if !AllNum(f.cols[metric]) then Err(NonNumeric(metric))
    else
      var after := ToCells(CumsumAfter(f.cols[index], Nums(f.cols[metric])));
      var withAfter := f.With(newName + "_after", after);
      IndexNotAfter(granularity, newName);
      var shifted := ShiftInGroup(withAfter.cols[index], withAfter.cols[newName + "_after"], Missing);
      Ok(withAfter.With(newName, FillMissing(shifted, Num(fill))))
  }

  /** Shifting integer cells and filling the gaps is shifting the integers with the fill value. */
  lemma FillShifted<K>(keys: seq<K>, a: seq<int>, fill: int)
    requires |a| == |keys|
    ensures FillMissing(ShiftInGroup(keys, ToCells(a), Missing), Num(fill)) == ToCells(ShiftInGroup(keys, a, fill))
  {
  }

  /**
   * What a successful cumulative step writes: the running total including
   * the row, and the total over the strictly earlier rows of the group
   * (`fill` for the first row of a group); every other column is kept.
   */
  lemma CumulativeStepColumns(f: Frame, metric: string, newName: string, fill: int, granularity: string)
    requires f.Valid() && CumulativeStep(f, metric, newName, fill, granularity).Ok?
    ensures var g, keys, m := CumulativeStep(f, metric, newName, fill, granularity).value,
                              f.cols[IndexName(granularity)], Nums(f.cols[metric]);
      g.cols[newName + "_after"] == ToCells(CumsumAfter(keys, m)) &&
      g.cols[newName] == ToCells(CumulativeBefore(keys, m, fill)) &&
      (forall c :: c in f.cols && c != newName && c != newName + "_after" ==> g.cols[c] == f.cols[c])
  {
    var index := IndexName(granularity);
    var keys, m := f.cols[index], Nums(f.cols[metric]);
    IndexNotAfter(granularity, newName);
    FillShifted(keys, CumsumAfter(keys, m), fill);
  }

  /**
   * `get_rank_data`: add `<newName>`, the ascending ordinal rank of the
   * metric within the group, ties broken by table order.  The fill value
   * is not used.
   */
  function RankStep(f: Frame, metric: string, newName: string, granularity: string): (r: Result<Frame, Error>)
    requires f.Valid()
    ensures r.Err? <==> IndexName(granularity) !in f.cols || metric !in f.cols || !AllNum(f.cols[metric])
    ensures r.Ok? ==> r.value.Valid() && r.value.size == f.size
    ensures r.Ok? ==> r.value.cols.Keys == f.cols.Keys + {newName}
    ensures r.Ok? ==> forall c :: c in f.cols && c != newName ==> r.value.cols[c] == f.cols[c]
  {
    var index := IndexName(granularity);
    if index !in f.cols then Err(MissingColumn(index))
    else if metric !in f.cols then Err(MissingColumn(metric))
    else if !AllNum(f.cols[metric]) then Err(NonNumeric(metric))
    else Ok(f.With(newName, ToCells(OrdinalRank(f.cols[index], Nums(f.cols[metric])))))
  }

  /** The table after some steps, and the error that stopped them, if one did. */
  datatype Run = Run(frame: Frame, failure: Option<Error>)

  /**
   * One pass of the driver loop: a cumulative entry at drive scope and then
   * at game scope, anything else as a game-scope rank named after its
   * `new_name`.  A failing call leaves the table as the earlier calls made it.
   */
  function ApplyEntry(f: Frame, e: MetricEntry): (r: Run)
    requires f.Valid()
    ensures r.frame.Valid() && r.frame.size == f.size
  {
    match Interpret(e)
    case None => Run(f, Some(MissingKey("new_name")))
    case Some(Cumulative(m, fill)) =>
      (match CumulativeStep(f, m, "drive" + "_" + m, fill, "drive")
       case Err(x) => Run(f, Some(x))
       case Ok(f1) =>
         match CumulativeStep(f1, m, "game" + "_" + m, fill, "game")
         case Err(x) => Run(f1, Some(x))
         case Ok(f2) => Run(f2, None))
    case Some(Rank(m, n, _)) =>
      match RankStep(f, m, "game" + "_" + n, "game")
      case Err(x) => Run(f, Some(x))
      case Ok(f1) => Run(f1, None)
  }

  /** The driver loop over a metric list, stopping at the first failing entry. */
  function RunEntries(f: Frame, list: seq<MetricEntry>): (r: Run)
    requires f.Valid()
    ensures r.frame.Valid() && r.frame.size == f.size
    ensures |list| == 0 ==> r == Run(f, None)
    decreases |list|
  {
    if |list| == 0 then Run(f, None)
    else
      var r0 := ApplyEntry(f, list[0]);
      if r0.failure.Some? then r0 else RunEntries(r0.frame, list[1..])
  }

  /**
   * `previous_play_in_drive`: the full play type of the previous row of the
   * same drive, and "first_play" where there is none.
   */
  function PreviousPlayStep(f: Frame): (r: Result<Frame, Error>)
    requires f.Valid()
    ensures r.Err? <==> "unique_drive" !in f.cols || "full_play_type" !in f.cols
    ensures r.Ok? ==> r.value.Valid() && r.value.size == f.size
    ensures r.Ok? ==> r.value.cols.Keys == f.cols.Keys + {"previous_play_in_drive"}
    ensures r.Ok? ==> forall c :: c in f.cols && c != "previous_play_in_drive" ==> r.value.cols[c] == f.cols[c]
  {
    if "unique_drive" !in f.cols then Err(MissingColumn("unique_drive"))
    else if "full_play_type" !in f.cols then Err(MissingColumn("full_play_type"))
    else
      var shifted := ShiftInGroup(f.cols["unique_drive"], f.cols["full_play_type"], Missing);
      Ok(f.With("previous_play_in_drive", FillMissing(shifted, Text("first_play"))))
  }

  /**
   * Where every row has a play type, the previous play is the play type of
   * the previous row of the drive, or "first_play" for a drive's first row.
   */
  lemma PreviousPlayColumn(f: Frame)
    requires f.Valid() && "unique_drive" in f.cols && "full_play_type" in f.cols
    requires forall i :: 0 <= i < f.size ==> !f.cols["full_play_type"][i].Missing?
    ensures var g, keys, labels := PreviousPlayStep(f).value, f.cols["unique_drive"], f.cols["full_play_type"];
      forall i :: 0 <= i < f.size ==>
        g.cols["previous_play_in_drive"][i] ==
          match PrevInGroup(keys, i)
          case None => Text("first_play")
          case Some(j) => labels[j]
  {
  }

  /** The whole step: the driver loop, then the previous play. */
  function DriveLevelMetrics(f: Frame, list: seq<MetricEntry>): (r: Run)
    requires f.Valid()
    ensures r.frame.Valid() && r.frame.size == f.size
  {
    var r := RunEntries(f, list);
    if r.failure.Some? then r
    else match PreviousPlayStep(r.frame)
      case Err(x) => Run(r.frame, Some(x))
      case Ok(g) => Run(g, None)
  }

  // ---- what the driver writes ----

  /** The columns the driver reads exist: both group keys and every entry's metric, all integers. */
  predicate Ready(f: Frame, list: seq<MetricEntry>) {
    "unique_drive" in f.cols && "game_id" in f.cols &&
    forall i :: 0 <= i < |list| ==>
      list[i].metric in f.cols && AllNum(f.cols[list[i].metric]) && Interpret(list[i]).Some?
  }

  /**
   * No entry writes a column another entry writes, a metric some entry
   * reads, or a group key.
   */
  predicate Disciplined(list: seq<MetricEntry>) {
    (forall i, j :: 0 <= i < j < |list| ==> Outputs(list[i]) !! Outputs(list[j])) &&
    (forall i, j :: 0 <= i < |list| && 0 <= j < |list| ==> list[j].metric !in Outputs(list[i])) &&
    (forall i :: 0 <= i < |list| ==> "unique_drive" !in Outputs(list[i]) && "game_id" !in Outputs(list[i]))
  }

  function AllOutputs(list: seq<MetricEntry>): set<string> {
    if |list| == 0 then {} else Outputs(list[0]) + AllOutputs(list[1..])
  }

  lemma {:induction false} AllOutputsMember(list: seq<MetricEntry>, c: string)
    ensures c in AllOutputs(list) <==> exists i :: 0 <= i < |list| && c in Outputs(list[i])
  {
    if |list| > 0 {
      AllOutputsMember(list[1..], c);
      if c in AllOutputs(list[1..]) {
        var i :| 0 <= i < |list[1..]| && c in Outputs(list[1..][i]);
        assert list[1..][i] == list[i + 1];
      }
      forall i | 0 < i < |list| && c in Outputs(list[i])
        ensures c in AllOutputs(list[1..])
      {
        assert list[i] == list[1..][i - 1];
      }
    }
  }

  /**
   * The columns entry `e` writes, read against the table `f` the driver
   * started from: for a cumulative entry, the running totals and the
   * "before this play" totals at drive and at game scope; for a rank, the
   * ordinal rank within the game.
   */
  predicate EntryWritten(f: Frame, e: MetricEntry, g: Frame)
    requires f.Valid() && g.Valid() && g.size == f.size
    requires "unique_drive" in f.cols && "game_id" in f.cols && e.metric in f.cols && AllNum(f.cols[e.metric])
  {
    var drives, games, v := f.cols["unique_drive"], f.cols["game_id"], Nums(f.cols[e.metric]);
    match Interpret(e)
    case None => true
    case Some(Cumulative(m, fill)) =>
      OutputName("drive", m, true) in g.cols && g.cols[OutputName("drive", m, true)] == ToCells(CumsumAfter(drives, v)) &&
      OutputName("drive", m, false) in g.cols && g.cols[OutputName("drive", m, false)] == ToCells(CumulativeBefore(drives, v, fill)) &&
      OutputName("game", m, true) in g.cols && g.cols[OutputName("game", m, true)] == ToCells(CumsumAfter(games, v)) &&
      OutputName("game", m, false) in g.cols && g.cols[OutputName("game", m, false)] == ToCells(CumulativeBefore(games, v, fill))
    case Some(Rank(m, n, _)) =>
      OutputName("game", n, false) in g.cols && g.cols[OutputName("game", n, false)] == ToCells(OrdinalRank(games, v))
  }

  /** What an entry wrote depends only on the columns it read and the columns it wrote. */
  lemma EntryWrittenTransfer(f: Frame, f': Frame, e: MetricEntry, g: Frame, g': Frame)
    requires f.Valid() && g.Valid() && g.size == f.size && f'.Valid() && g'.Valid() && g'.size == f'.size
    requires "unique_drive" in f.cols && "game_id" in f.cols && e.metric in f.cols && AllNum(f.cols[e.metric])
    requires "unique_drive" in f'.cols && "game_id" in f'.cols && e.metric in f'.cols
    requires f'.cols["unique_drive"] == f.cols["unique_drive"] && f'.cols["game_id"] == f.cols["game_id"]
    requires f'.cols[e.metric] == f.cols[e.metric]
    requires forall c :: c in Outputs(e) && c in g.cols ==> c in g'.cols && g'.cols[c] == g.cols[c]
    requires EntryWritten(f, e, g)
    ensures EntryWritten(f', e, g')
  {
  }

  lemma EmptySuffix(s: string)
    ensures s + "" == s
  {
  }

  /** One entry, applied to a table that has what it reads and does not collide with what it writes. */
  lemma EntryApplied(f: Frame, e: MetricEntry)
    requires f.Valid() && "unique_drive" in f.cols && "game_id" in f.cols
    requires e.metric in f.cols && AllNum(f.cols[e.metric]) && Interpret(e).Some?
    requires "unique_drive" !in Outputs(e) && "game_id" !in Outputs(e) && e.metric !in Outputs(e)
    ensures var r := ApplyEntry(f, e);
      r.failure.None? && r.frame.cols.Keys == f.cols.Keys + Outputs(e) &&
      (forall c :: c in f.cols && c !in Outputs(e) ==> r.frame.cols[c] == f.cols[c]) &&
      EntryWritten(f, e, r.frame)
  {
    if e.kind == "cumulative_data" {
      CumulativeEntryApplied(f, e);
    } else {
      RankEntryApplied(f, e);
    }
  }

  lemma CumulativeEntryApplied(f: Frame, e: MetricEntry)
    requires f.Valid() && "unique_drive" in f.cols && "game_id" in f.cols
    requires e.metric in f.cols && AllNum(f.cols[e.metric]) && e.kind == "cumulative_data"
    requires "unique_drive" !in Outputs(e) && "game_id" !in Outputs(e) && e.metric !in Outputs(e)
    ensures var r := ApplyEntry(f, e);
      r.failure.None? && r.frame.cols.Keys == f.cols.Keys + Outputs(e) &&
      (forall c :: c in f.cols && c !in Outputs(e) ==> r.frame.cols[c] == f.cols[c]) &&
      EntryWritten(f, e, r.frame)
  {
    var m, fill := e.metric, e.fillBlanks;
    var dn, gn := "drive" + "_" + m, "game" + "_" + m;
    CumulativeNames(e);
    CumulativeStepColumns(f, m, dn, fill, "drive");
    var f1 := CumulativeStep(f, m, dn, fill, "drive").value;
    assert f1.cols["game_id"] == f.cols["game_id"] && f1.cols[m] == f.cols[m];
    CumulativeStepColumns(f1, m, gn, fill, "game");
    var f2 := CumulativeStep(f1, m, gn, fill, "game").value;
    assert ApplyEntry(f, e) == Run(f2, None);
    assert f2.cols[dn] == f1.cols[dn] && f2.cols[dn + "_after"] == f1.cols[dn + "_after"];
  }

  /** The four names a cumulative entry's two calls write, and that they are four different names. */
  lemma CumulativeNames(e: MetricEntry)
    requires e.kind == "cumulative_data"
    ensures var dn, gn := "drive" + "_" + e.metric, "game" + "_" + e.metric;
      dn == OutputName("drive", e.metric, false) && gn == OutputName("game", e.metric, false) &&
      dn + "_after" == OutputName("drive", e.metric, true) && gn + "_after" == OutputName("game", e.metric, true) &&
      Outputs(e) == {dn, dn + "_after", gn, gn + "_after"} &&
      dn != gn && dn != gn + "_after" && dn + "_after" != gn && dn + "_after" != gn + "_after"
  {
    var dn, gn := "drive" + "_" + e.metric, "game" + "_" + e.metric;
    EmptySuffix(dn);
    EmptySuffix(gn);
    assert dn[0] == 'd' && (dn + "_after")[0] == 'd' && gn[0] == 'g' && (gn + "_after")[0] == 'g';
  }

  lemma RankEntryApplied(f: Frame, e: MetricEntry)
    requires f.Valid() && "unique_drive" in f.cols && "game_id" in f.cols
    requires e.metric in f.cols && AllNum(f.cols[e.metric]) && e.kind != "cumulative_data" && e.newName.Some?
    requires "unique_drive" !in Outputs(e) && "game_id" !in Outputs(e) && e.metric !in Outputs(e)
    ensures var r := ApplyEntry(f, e);
      r.failure.None? && r.frame.cols.Keys == f.cols.Keys + Outputs(e) &&
      (forall c :: c in f.cols && c !in Outputs(e) ==> r.frame.cols[c] == f.cols[c]) &&
      EntryWritten(f, e, r.frame)
  {
    var gn := "game" + "_" + e.newName.value;
    EmptySuffix(gn);
    assert gn == OutputName("game", e.newName.value, false);
  }

  lemma DisciplinedTail(list: seq<MetricEntry>)
    requires |list| > 0 && Disciplined(list)
    ensures Disciplined(list[1..])
    ensures forall c :: c in Outputs(list[0]) ==> c !in AllOutputs(list[1..])
    ensures "unique_drive" !in Outputs(list[0]) && "game_id" !in Outputs(list[0])
    ensures forall j :: 0 <= j < |list| ==> list[j].metric !in Outputs(list[0])
  {
    var rest := list[1..];
    assert forall i :: 0 <= i < |rest| ==> rest[i] == list[i + 1];
    forall c | c in Outputs(list[0])
      ensures c !in AllOutputs(rest)
    {
      AllOutputsMember(rest, c);
    }
  }

  lemma ReadyTail(f: Frame, list: seq<MetricEntry>, f1: Frame)
    requires |list| > 0 && Ready(f, list) && Disciplined(list)
    requires forall c :: c in f.cols && c !in Outputs(list[0]) ==> c in f1.cols && f1.cols[c] == f.cols[c]
    ensures Ready(f1, list[1..])
    ensures f1.cols["unique_drive"] == f.cols["unique_drive"] && f1.cols["game_id"] == f.cols["game_id"]
    ensures forall j :: 0 <= j < |list| ==> list[j].metric in f1.cols && f1.cols[list[j].metric] == f.cols[list[j].metric]
  {
    DisciplinedTail(list);
    var rest := list[1..];
    assert forall i :: 0 <= i < |rest| ==> rest[i] == list[i + 1];
  }

  /**
   * The driver over a disciplined list, on a table that has every column
   * the list reads: no entry fails; each entry's columns hold exactly what
   * `EntryWritten` says, computed from the starting table's keys and
   * metrics; every other column is untouched and no row moves.
   */
  lemma {:induction false} DriverOutputs(f: Frame, list: seq<MetricEntry>)
    requires f.Valid() && Ready(f, list) && Disciplined(list)
    ensures var r := RunEntries(f, list);
      r.failure.None? && r.frame.size == f.size &&
      r.frame.cols.Keys == f.cols.Keys + AllOutputs(list) &&
      (forall c :: c in f.cols && c !in AllOutputs(list) ==> r.frame.cols[c] == f.cols[c]) &&
      (forall i :: 0 <= i < |list| ==> EntryWritten(f, list[i], r.frame))
    decreases |list|
  {
    if |list| > 0 {
      var e, rest := list[0], list[1..];
      DisciplinedTail(list);
      EntryApplied(f, e);
      var f1 := ApplyEntry(f, e).frame;
      ReadyTail(f, list, f1);
      DriverOutputs(f1, rest);
      var g := RunEntries(f1, rest).frame;
      assert RunEntries(f, list) == RunEntries(f1, rest);
      EntryWrittenTransfer(f, f, e, f1, g);
      forall i | 0 < i < |list|
        ensures EntryWritten(f, list[i], g)
      {
        assert list[i] == rest[i - 1];
        EntryWrittenTransfer(f1, f, list[i], g, g);
      }
    }
  }

  /** A column whose name starts with neither 'd' nor 'g' is never written by the driver. */
  lemma NotGenerated(list: seq<MetricEntry>, c: string)
    requires |c| > 0 && c[0] != 'd' && c[0] != 'g'
    ensures c !in AllOutputs(list)
  {
    AllOutputsMember(list, c);
    forall i | 0 <= i < |list| && c in Outputs(list[i])
      ensures false
    {
      var s, a := OutputDecompose(list[i], c);
    }
  }

  /**
   * The whole `drive_level_metrics` step over a disciplined list, on a
   * table that has what the list reads and the play types: the driver's
   * columns as `DriverOutputs` says, then `previous_play_in_drive`.
   */
  lemma DriveLevelMetricsOutputs(f: Frame, list: seq<MetricEntry>)
    requires f.Valid() && Ready(f, list) && Disciplined(list) && "full_play_type" in f.cols
    requires forall i :: 0 <= i < f.size ==> !f.cols["full_play_type"][i].Missing?
    ensures var r, drives := DriveLevelMetrics(f, list), f.cols["unique_drive"];
      r.failure.None? && r.frame.size == f.size &&
      r.frame.cols.Keys == f.cols.Keys + AllOutputs(list) + {"previous_play_in_drive"} &&
      (forall i :: 0 <= i < |list| ==> EntryWritten(f, list[i], r.frame)) &&
      (forall i :: 0 <= i < f.size ==>
        r.frame.cols["previous_play_in_drive"][i] ==
          match PrevInGroup(drives, i)
          case None => Text("first_play")
          case Some(j) => f.cols["full_play_type"][j]) &&
      (forall c :: c in f.cols && c !in AllOutputs(list) && c != "previous_play_in_drive" ==>
        r.frame.cols[c] == f.cols[c])
  {
    DriverOutputs(f, list);
    var g := RunEntries(f, list).frame;
    NotGenerated(list, "unique_drive");
    NotGenerated(list, "full_play_type");
    NotGenerated(list, "previous_play_in_drive");
    assert g.cols["unique_drive"] == f.cols["unique_drive"] && g.cols["full_play_type"] == f.cols["full_play_type"];
    PreviousPlayColumn(g);
    PreviousPlayKeepsEntries(f, list, g);
    var h := PreviousPlayStep(g).value;
    assert DriveLevelMetrics(f, list) == Run(h, None);
    forall c | c in f.cols && c !in AllOutputs(list) && c != "previous_play_in_drive"
      ensures h.cols[c] == f.cols[c]
    {
      assert h.cols[c] == g.cols[c];
    }
  }

  /** The previous-play column overwrites no entry's written column. */
  lemma PreviousPlayKeepsEntries(f: Frame, list: seq<MetricEntry>, g: Frame)
    requires f.Valid() && g.Valid() && g.size == f.size && Ready(f, list)
    requires "unique_drive" in g.cols && "full_play_type" in g.cols
    requires forall i :: 0 <= i < |list| ==> EntryWritten(f, list[i], g)
    ensures forall i :: 0 <= i < |list| ==> EntryWritten(f, list[i], PreviousPlayStep(g).value)
  {
    var h := PreviousPlayStep(g).value;
    NotGenerated(list, "previous_play_in_drive");
    AllOutputsMember(list, "previous_play_in_drive");
    forall i | 0 <= i < |list|
      ensures EntryWritten(f, list[i], h)
    {
      assert "previous_play_in_drive" !in Outputs(list[i]);
      EntryWrittenTransfer(f, f, list[i], g, h);
    }
  }

  lemma MetricListReady(f: Frame)
    requires f.Valid() && "unique_drive" in f.cols && "game_id" in f.cols
    requires forall i :: 0 <= i < |MetricList| ==> MetricList[i].metric in f.cols && AllNum(f.cols[MetricList[i].metric])
    ensures Ready(f, MetricList) && Disciplined(MetricList)
  {
    MetricListShape();
    MetricListWellNamed();
    OutputsDisjoint(MetricList);
  }

  /** A cumulative entry's written columns, under the names the flow gives them. */
  lemma CumulativeColumns(f: Frame, e: MetricEntry, g: Frame)
    requires f.Valid() && g.Valid() && g.size == f.size
    requires "unique_drive" in f.cols && "game_id" in f.cols && e.metric in f.cols && AllNum(f.cols[e.metric])
    requires e.kind == "cumulative_data" && EntryWritten(f, e, g)
    ensures var m, v, drives, games := e.metric, Nums(f.cols[e.metric]), f.cols["unique_drive"], f.cols["game_id"];
      "drive_" + m in g.cols && g.cols["drive_" + m] == ToCells(CumulativeBefore(drives, v, e.fillBlanks)) &&
      "game_" + m in g.cols && g.cols["game_" + m] == ToCells(CumulativeBefore(games, v, e.fillBlanks)) &&
      "drive_" + m + "_after" in g.cols && g.cols["drive_" + m + "_after"] == ToCells(CumsumAfter(drives, v)) &&
      "game_" + m + "_after" in g.cols && g.cols["game_" + m + "_after"] == ToCells(CumsumAfter(games, v))
  {
    assert Interpret(e) == Some(Cumulative(e.metric, e.fillBlanks));
    OutputNameSpelled(e.metric);
  }

  /** A rank entry's written column, under the name the flow gives it. */
  lemma RankColumn(f: Frame, e: MetricEntry, g: Frame)
    requires f.Valid() && g.Valid() && g.size == f.size
    requires "unique_drive" in f.cols && "game_id" in f.cols && e.metric in f.cols && AllNum(f.cols[e.metric])
    requires e.kind != "cumulative_data" && e.newName.Some? && EntryWritten(f, e, g)
    ensures "game_" + e.newName.value in g.cols
    ensures g.cols["game_" + e.newName.value] == ToCells(OrdinalRank(f.cols["game_id"], Nums(f.cols[e.metric])))
  {
    assert Interpret(e) == Some(Rank(e.metric, e.newName.value, e.fillBlanks));
    OutputNameSpelled(e.newName.value);
  }

  /**
   * The driver on a list of cumulative entries with blank fill 0 followed by
   * one rank entry: the columns each entry writes, under their flow names.
   */
  lemma CumulativeThenRankOutputs(f: Frame, list: seq<MetricEntry>)
    requires f.Valid() && Ready(f, list) && Disciplined(list) && "full_play_type" in f.cols
    requires forall i :: 0 <= i < f.size ==> !f.cols["full_play_type"][i].Missing?
    requires |list| > 0 && list[|list| - 1].kind != "cumulative_data" && list[|list| - 1].newName.Some?
    requires forall i :: 0 <= i < |list| - 1 ==> list[i].kind == "cumulative_data" && list[i].fillBlanks == 0
    ensures var r, drives, games := DriveLevelMetrics(f, list), f.cols["unique_drive"], f.cols["game_id"];
      r.failure.None? && r.frame.size == f.size &&
      (forall i :: 0 <= i < |list| - 1 ==>
        var m := list[i].metric;
        var v := Nums(f.cols[m]);
        "drive_" + m in r.frame.cols && r.frame.cols["drive_" + m] == ToCells(CumulativeBefore(drives, v, 0)) &&
        "game_" + m in r.frame.cols && r.frame.cols["game_" + m] == ToCells(CumulativeBefore(games, v, 0)) &&
        "drive_" + m + "_after" in r.frame.cols && r.frame.cols["drive_" + m + "_after"] == ToCells(CumsumAfter(drives, v)) &&
        "game_" + m + "_after" in r.frame.cols && r.frame.cols["game_" + m + "_after"] == ToCells(CumsumAfter(games, v))) &&
      "game_" + list[|list| - 1].newName.value in r.frame.cols &&
      r.frame.cols["game_" + list[|list| - 1].newName.value] == ToCells(OrdinalRank(games, Nums(f.cols[list[|list| - 1].metric])))
  {
    DriveLevelMetricsOutputs(f, list);
    var g := DriveLevelMetrics(f, list).frame;
    forall i | 0 <= i < |list| - 1
      ensures var m := list[i].metric;
        var v := Nums(f.cols[m]);
        "drive_" + m in g.cols && g.cols["drive_" + m] == ToCells(CumulativeBefore(f.cols["unique_drive"], v, 0)) &&
        "game_" + m in g.cols && g.cols["game_" + m] == ToCells(CumulativeBefore(f.cols["game_id"], v, 0)) &&
        "drive_" + m + "_after" in g.cols && g.cols["drive_" + m + "_after"] == ToCells(CumsumAfter(f.cols["unique_drive"], v)) &&
        "game_" + m + "_after" in g.cols && g.cols["game_" + m + "_after"] == ToCells(CumsumAfter(f.cols["game_id"], v))
    {
      CumulativeColumns(f, list[i], g);
    }
    RankColumn(f, list[|list| - 1], g);
  }

  /**
   * The whole `drive_level_metrics` step with the shipped metric list, on a
   * table that has the group keys, the play types and every listed metric
   * as integers: nothing fails; `drive_<m>` and `game_<m>` hold the metric
   * summed over the earlier plays of the drive and of the game (0 for the
   * first play), `drive_<m>_after` and `game_<m>_after` the sums including
   * the play; `game_play_count` is the play's ordinal rank by `play_id`
   * within its game.  `DriveLevelMetricsOutputs` gives the previous play
   * and the untouched columns.
   */
  lemma MetricListOutputs(f: Frame)
    requires f.Valid() && "unique_drive" in f.cols && "game_id" in f.cols && "full_play_type" in f.cols
    requires forall i :: 0 <= i < f.size ==> !f.cols["full_play_type"][i].Missing?
    requires forall i :: 0 <= i < |MetricList| ==> MetricList[i].metric in f.cols && AllNum(f.cols[MetricList[i].metric])
    ensures var r, drives, games := DriveLevelMetrics(f, MetricList), f.cols["unique_drive"], f.cols["game_id"];
      r.failure.None? && r.frame.size == f.size &&
      forall i :: 0 <= i < |MetricList| - 1 ==>
        var m := MetricList[i].metric;
        var v := Nums(f.cols[m]);
        "drive_" + m in r.frame.cols && r.frame.cols["drive_" + m] == ToCells(CumulativeBefore(drives, v, 0)) &&
        "game_" + m in r.frame.cols && r.frame.cols["game_" + m] == ToCells(CumulativeBefore(games, v, 0)) &&
        "drive_" + m + "_after" in r.frame.cols && r.frame.cols["drive_" + m + "_after"] == ToCells(CumsumAfter(drives, v)) &&
        "game_" + m + "_after" in r.frame.cols && r.frame.cols["game_" + m + "_after"] == ToCells(CumsumAfter(games, v))
  {
    MetricListReady(f);
    MetricListCumulativeThenRank();
    CumulativeThenRankOutputs(f, MetricList);
  }

  /** The shipped list is cumulative entries with fill 0 followed by one named rank. */
  lemma MetricListCumulativeThenRank()
    ensures |MetricList| > 0
    ensures MetricList[|MetricList| - 1].kind != "cumulative_data" && MetricList[|MetricList| - 1].newName.Some?
    ensures forall i :: 0 <= i < |MetricList| - 1 ==> MetricList[i].kind == "cumulative_data" && MetricList[i].fillBlanks == 0
  {
    MetricListShape();
  }

  /** The shipped list's last entry: `game_play_count` is the play's ordinal rank by `play_id` within its game. */
  lemma MetricListPlayCount(f: Frame)
    requires f.Valid() && "unique_drive" in f.cols && "game_id" in f.cols && "full_play_type" in f.cols
    requires forall i :: 0 <= i < f.size ==> !f.cols["full_play_type"][i].Missing?
    requires forall i :: 0 <= i < |MetricList| ==> MetricList[i].metric in f.cols && AllNum(f.cols[MetricList[i].metric])
    ensures "play_id" in f.cols && AllNum(f.cols["play_id"])
    ensures var r := DriveLevelMetrics(f, MetricList);
      "game_play_count" in r.frame.cols &&
      r.frame.cols["game_play_count"] == ToCells(OrdinalRank(f.cols["game_id"], Nums(f.cols["play_id"])))
  {
    MetricListReady(f);
    MetricListCumulativeThenRank();
    CumulativeThenRankOutputs(f, MetricList);
    LastEntryPlayCount();
  }

  /** The shipped list's last entry ranks `play_id` into `game_play_count`. */
  lemma LastEntryPlayCount()
    ensures |MetricList| > 0 && MetricList[|MetricList| - 1].metric == "play_id"
    ensures MetricList[|MetricList| - 1].newName == Some("play_count")
    ensures "game_" + "play_count" == "game_play_count"
  {
    OnlyRankNamed();
    }
}
