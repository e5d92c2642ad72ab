/**
 * The `start` step of the flow (NFL_Play_By_Play/data_prep.py:20-59): keep
 * one team's real offensive snaps, label each with its full play type, keep
 * the nine labelled directions the analysis uses, and split the yards gained
 * into rushing and passing yards.
 */
module StartStep {
  import opened Frames
  import opened PlayTypes

  /** The columns the step reads from the play-by-play table. */
  predicate HasInputColumns(f: Frame) {
    "posteam" in f.cols && "down" in f.cols && "play_type" in f.cols &&
    "qb_spike" in f.cols && "qb_kneel" in f.cols &&
    "pass_location" in f.cols && "pass_length" in f.cols && "run_location" in f.cols &&
    "yards_gained" in f.cols
  }

  /** The columns the step writes. */
  const AddedColumns: set<string> := {"full_play_type", "rushing_yards_gained", "passing_yards_gained"}

  predicate IsDown(c: Cell) {
    c.Num? && 1 <= c.n <= 4
  }

  /** The row filter: the team has the ball, a down from 1 to 4, a run or a pass, no spike, no kneel. */
  predicate IsTeamPlay(f: Frame, team: string, i: nat)
    requires f.Valid() && HasInputColumns(f) && i < f.size
  {
    f.cols["posteam"][i] == Text(team) &&
    IsDown(f.cols["down"][i]) &&
    (f.cols["play_type"][i] == Text("run") || f.cols["play_type"][i] == Text("pass")) &&
    f.cols["qb_spike"][i] == Num(0) &&
    f.cols["qb_kneel"][i] == Num(0)
  }

  /** A label field the classifier can join: text, or missing (which reads "unknown"). */
  predicate IsLabelField(c: Cell) {
    c.Text? || c.Missing?
  }

  /**
   * A field as the classifier reads it once missing values read "unknown".
   * Only the fields the classifier joins need to be text (`LabelsReady`);
   * any other cell reads as the empty string and is never used.
   */
  function LabelText(c: Cell): string {
    if c.Text? then c.s else if c.Missing? then "unknown" else ""
  }

  /**
   * The fields the classifier joins are text (or missing) on every row the
   * filter keeps: the run location of a run, the pass location and length
   * of any other play.  A number there would make the join raise.
   */
  predicate LabelsReady(f: Frame, team: string)
    requires f.Valid() && HasInputColumns(f)
  {
    forall i :: 0 <= i < f.size && IsTeamPlay(f, team, i) ==>
      if f.cols["play_type"][i] == Text("run") then IsLabelField(f.cols["run_location"][i])
      else IsLabelField(f.cols["pass_location"][i]) && IsLabelField(f.cols["pass_length"][i])
  }

  /** The label the flow gives input row `i`. */
  function RowPlayType(f: Frame, team: string, i: nat): string
    requires f.Valid() && HasInputColumns(f) && LabelsReady(f, team)
    requires i < f.size && IsTeamPlay(f, team, i)
  {
    FullPlayType(LabelText(f.cols["play_type"][i]), LabelText(f.cols["pass_location"][i]),
                 LabelText(f.cols["pass_length"][i]), LabelText(f.cols["run_location"][i]))
  }

  /** Which input rows survive the step: team plays whose label is on the allow-list. */
  function StartMask(f: Frame, team: string): (keep: seq<bool>)
    requires f.Valid() && HasInputColumns(f) && LabelsReady(f, team)
    ensures |keep| == f.size
    ensures forall i :: 0 <= i < f.size ==>
      (keep[i] <==> IsTeamPlay(f, team, i) && RowPlayType(f, team, i) in AllowedPlayTypes)
  {
    seq(f.size, i requires 0 <= i < f.size =>
      IsTeamPlay(f, team, i) && RowPlayType(f, team, i) in AllowedPlayTypes)
  }

  // ---- the step, one pandas statement at a time ----

  function TeamMask(f: Frame, team: string): (keep: seq<bool>)
    requires f.Valid() && HasInputColumns(f)
    ensures |keep| == f.size
    ensures forall i :: 0 <= i < f.size ==> (keep[i] <==> IsTeamPlay(f, team, i))
  {
    seq(f.size, i requires 0 <= i < f.size => IsTeamPlay(f, team, i))
  }

  /** The text of a cell that is known to be text. */
  function TextOf(c: Cell): string {
    if c.Text? then c.s else ""
  }

  /** The `full_play_type` column computed row by row from the four label fields. */
  function PlayTypeColumn(g: Frame): (col: seq<Cell>)
    requires g.Valid() && HasInputColumns(g)
    ensures |col| == g.size
  {
    seq(g.size, k requires 0 <= k < g.size =>
      Text(FullPlayType(TextOf(g.cols["play_type"][k]), TextOf(g.cols["pass_location"][k]),
                        TextOf(g.cols["pass_length"][k]), TextOf(g.cols["run_location"][k]))))
  }

  /** `full_play_type.isin([...])` */
  function AllowedMask(g: Frame): (keep: seq<bool>)
    requires g.Valid() && "full_play_type" in g.cols
    ensures |keep| == g.size
  {
    seq(g.size, k requires 0 <= k < g.size =>
      g.cols["full_play_type"][k].Text? && g.cols["full_play_type"][k].s in AllowedPlayTypes)
  }

  /** `np.where(play_type == kind, yards_gained, 0)` */
  function YardSplit(g: Frame, kind: string): (col: seq<Cell>)
    requires g.Valid() && HasInputColumns(g)
    ensures |col| == g.size
  {
    seq(g.size, k requires 0 <= k < g.size =>
      if g.cols["play_type"][k] == Text(kind) then g.cols["yards_gained"][k] else Num(0))
  }

  function Selected(f: Frame, team: string): (g: Frame)
    requires f.Valid() && HasInputColumns(f)
    ensures g.Valid() && HasInputColumns(g)
  {
    f.SelectRows(TeamMask(f, team))
  }

  function Labelled(f: Frame, team: string): (g: Frame)
    requires f.Valid() && HasInputColumns(f)
    ensures g.Valid() && HasInputColumns(g) && "full_play_type" in g.cols
  {
    var s := Selected(f, team).FillAll(Text("unknown"));
    s.With("full_play_type", PlayTypeColumn(s))
  }

  function Allowed(f: Frame, team: string): (g: Frame)
    requires f.Valid() && HasInputColumns(f)
    ensures g.Valid() && HasInputColumns(g) && "full_play_type" in g.cols
  {
    var s := Labelled(f, team);
    s.SelectRows(AllowedMask(s))
  }

  function WithYardSplit(g: Frame): (h: Frame)
    requires g.Valid() && HasInputColumns(g)
    ensures h.Valid()
  {
    var r := g.With("rushing_yards_gained", YardSplit(g, "run"));
    r.With("passing_yards_gained", YardSplit(r, "pass"))
  }

  /** The table `start` leaves behind. */
  function StartFrame(f: Frame, team: string): (g: Frame)
    requires f.Valid() && HasInputColumns(f) && LabelsReady(f, team)
    ensures g.Valid()
  {
    WithYardSplit(Allowed(f, team))
  }

  /** A cell after `replace(np.nan, 'unknown')`. */
  function Filled(c: Cell): Cell {
    if c.Missing? then Text("unknown") else c
  }

  // ---- what the step keeps, and how the kept rows read ----

  lemma FilledRows(f: Frame, team: string)
    requires f.Valid() && HasInputColumns(f)
    ensures var s, a := Selected(f, team).FillAll(Text("unknown")), Kept(TeamMask(f, team));
      s.size == |a| && s.cols.Keys == f.cols.Keys &&
      (forall k :: 0 <= k < |a| ==> a[k] < f.size && IsTeamPlay(f, team, a[k])) &&
      (forall c, k :: c in f.cols && 0 <= k < s.size ==> s.cols[c][k] == Filled(f.cols[c][a[k]]))
  {
    var a := Kept(TeamMask(f, team));
    var sel := Selected(f, team);
    var s := sel.FillAll(Text("unknown"));
    forall c, k | c in f.cols && 0 <= k < s.size
      ensures s.cols[c][k] == Filled(f.cols[c][a[k]])
    {
      assert sel.cols[c][k] == f.cols[c][a[k]];
    }
  }

  lemma LabelledRows(f: Frame, team: string)
    requires f.Valid() && HasInputColumns(f) && LabelsReady(f, team)
    ensures var g, a := Labelled(f, team), Kept(TeamMask(f, team));
      g.size == |a| && g.cols.Keys == f.cols.Keys + {"full_play_type"} &&
      (forall k :: 0 <= k < |a| ==> a[k] < f.size && IsTeamPlay(f, team, a[k])) &&
      (forall c, k :: c in f.cols && c != "full_play_type" && 0 <= k < g.size ==> g.cols[c][k] == Filled(f.cols[c][a[k]])) &&
      (forall k :: 0 <= k < g.size ==> g.cols["full_play_type"][k] == Text(RowPlayType(f, team, a[k])))
  {
    var a := Kept(TeamMask(f, team));
    var s := Selected(f, team).FillAll(Text("unknown"));
    var g := s.With("full_play_type", PlayTypeColumn(s));
    FilledRows(f, team);
    forall k | 0 <= k < g.size
      ensures g.cols["full_play_type"][k] == Text(RowPlayType(f, team, a[k]))
    {
      var i := a[k];
      assert s.cols["play_type"][k] == Filled(f.cols["play_type"][i]);
      assert s.cols["pass_location"][k] == Filled(f.cols["pass_location"][i]);
      assert s.cols["pass_length"][k] == Filled(f.cols["pass_length"][i]);
      assert s.cols["run_location"][k] == Filled(f.cols["run_location"][i]);
    }
  }

  /** The allow-list filter applied to the team's rows reads the start mask at those rows. */
  lemma AllowedMaskIsSelect(f: Frame, team: string)
    requires f.Valid() && HasInputColumns(f) && LabelsReady(f, team)
    ensures |Labelled(f, team).cols["full_play_type"]| == |Kept(TeamMask(f, team))|
    ensures AllowedMask(Labelled(f, team)) == Select(StartMask(f, team), TeamMask(f, team))
    ensures And(TeamMask(f, team), StartMask(f, team)) == StartMask(f, team)
  {
    LabelledRows(f, team);
  }

  lemma AllowedRows(f: Frame, team: string)
    requires f.Valid() && HasInputColumns(f) && LabelsReady(f, team)
    ensures var g, keep := Allowed(f, team), Kept(StartMask(f, team));
      g.size == |keep| && g.cols.Keys == f.cols.Keys + {"full_play_type"} &&
      (forall k :: 0 <= k < |keep| ==> keep[k] < f.size && IsTeamPlay(f, team, keep[k])) &&
      (forall c, k :: c in f.cols && c != "full_play_type" && 0 <= k < g.size ==> g.cols[c][k] == Filled(f.cols[c][keep[k]])) &&
      (forall k :: 0 <= k < g.size ==> g.cols["full_play_type"][k] == Text(RowPlayType(f, team, keep[k])))
  {
    LabelledRows(f, team);
    AllowedKept(f, team);
    AllowedOtherColumns(f, team);
    AllowedLabelColumn(f, team);
  }

  lemma AllowedOtherColumns(f: Frame, team: string)
    requires f.Valid() && HasInputColumns(f) && LabelsReady(f, team)
    ensures var g, keep := Allowed(f, team), Kept(StartMask(f, team));
      g.size == |keep| && (forall k :: 0 <= k < |keep| ==> keep[k] < f.size) &&
      (forall c, k :: c in f.cols && c != "full_play_type" && 0 <= k < g.size ==> g.cols[c][k] == Filled(f.cols[c][keep[k]]))
  {
    var l := Labelled(f, team);
    var ka, kp, keep := Kept(TeamMask(f, team)), Kept(AllowedMask(l)), Kept(StartMask(f, team));
    var g := Allowed(f, team);
    LabelledRows(f, team);
    AllowedKept(f, team);
    forall c, k | c in f.cols && c != "full_play_type" && 0 <= k < g.size
      ensures g.cols[c][k] == Filled(f.cols[c][keep[k]])
    {
      assert keep[k] == ka[kp[k]];
      assert g.cols[c][k] == l.cols[c][kp[k]];
    }
  }

  lemma AllowedLabelColumn(f: Frame, team: string)
    requires f.Valid() && HasInputColumns(f) && LabelsReady(f, team)
    ensures var g, keep := Allowed(f, team), Kept(StartMask(f, team));
      g.size == |keep| && (forall k :: 0 <= k < |keep| ==> keep[k] < f.size && IsTeamPlay(f, team, keep[k])) &&
      (forall k :: 0 <= k < g.size ==> g.cols["full_play_type"][k] == Text(RowPlayType(f, team, keep[k])))
  {
    var l := Labelled(f, team);
    var ka, kp, keep := Kept(TeamMask(f, team)), Kept(AllowedMask(l)), Kept(StartMask(f, team));
    var g := Allowed(f, team);
    LabelledRows(f, team);
    AllowedKept(f, team);
    forall k | 0 <= k < g.size
      ensures g.cols["full_play_type"][k] == Text(RowPlayType(f, team, keep[k]))
    {
      assert keep[k] == ka[kp[k]];
      assert g.cols["full_play_type"][k] == l.cols["full_play_type"][kp[k]];
    }
  }

  /** The rows kept by the two filters, read through both, are the rows of the start mask. */
  lemma AllowedKept(f: Frame, team: string)
    requires f.Valid() && HasInputColumns(f) && LabelsReady(f, team)
    ensures var ka, kp := Kept(TeamMask(f, team)), Kept(AllowedMask(Labelled(f, team)));
      (forall k :: 0 <= k < |kp| ==> kp[k] < |ka|) && Compose(ka, kp) == Kept(StartMask(f, team))
  {
    AllowedMaskIsSelect(f, team);
    KeptCompose(TeamMask(f, team), StartMask(f, team));
  }

  /**
   * The rows `start` keeps are exactly the input rows the filter and the
   * allow-list accept, in their input order; each kept row carries its
   * input values (missing ones read "unknown") and its full play type.
   */
  lemma StartKeepsExactly(f: Frame, team: string)
    requires f.Valid() && HasInputColumns(f) && LabelsReady(f, team)
    ensures var g, keep := StartFrame(f, team), Kept(StartMask(f, team));
      g.size == |keep| &&
      g.cols.Keys == f.cols.Keys + AddedColumns &&
      (forall k, l :: 0 <= k < l < |keep| ==> keep[k] < keep[l]) &&
      (forall i :: 0 <= i < f.size ==> (i in keep <==> StartMask(f, team)[i])) &&
      (forall k :: 0 <= k < |keep| ==> keep[k] < f.size && IsTeamPlay(f, team, keep[k])) &&
      (forall c, k :: c in f.cols && c !in AddedColumns && 0 <= k < g.size ==> g.cols[c][k] == Filled(f.cols[c][keep[k]])) &&
      (forall k :: 0 <= k < g.size ==> g.cols["full_play_type"][k] == Text(RowPlayType(f, team, keep[k])))
  {
    StartRows(f, team);
    StartKeys(f, team);
    StartColumns(f, team);
  }

  lemma StartKeys(f: Frame, team: string)
    requires f.Valid() && HasInputColumns(f) && LabelsReady(f, team)
    ensures StartFrame(f, team).cols.Keys == f.cols.Keys + AddedColumns
  {
    AllowedRows(f, team);
    WithYardSplitRows(Allowed(f, team));
  }

  lemma StartRows(f: Frame, team: string)
    requires f.Valid() && HasInputColumns(f) && LabelsReady(f, team)
    ensures var g, keep := StartFrame(f, team), Kept(StartMask(f, team));
      g.size == |keep| &&
      (forall k, l :: 0 <= k < l < |keep| ==> keep[k] < keep[l]) &&
      (forall i :: 0 <= i < f.size ==> (i in keep <==> StartMask(f, team)[i])) &&
      (forall k :: 0 <= k < |keep| ==> keep[k] < f.size && IsTeamPlay(f, team, keep[k]))
  {
    AllowedRows(f, team);
    KeptSpec(StartMask(f, team));
    WithYardSplitRows(Allowed(f, team));
  }

  lemma StartColumns(f: Frame, team: string)
    requires f.Valid() && HasInputColumns(f) && LabelsReady(f, team)
    ensures var g, keep := StartFrame(f, team), Kept(StartMask(f, team));
      g.size == |keep| &&
      (forall k :: 0 <= k < |keep| ==> keep[k] < f.size) &&
      (forall c, k :: c in f.cols && c !in AddedColumns && 0 <= k < g.size ==> g.cols[c][k] == Filled(f.cols[c][keep[k]])) &&
      (forall k :: 0 <= k < g.size ==> g.cols["full_play_type"][k] == Text(RowPlayType(f, team, keep[k])))
  {
    var al, keep := Allowed(f, team), Kept(StartMask(f, team));
    AllowedRows(f, team);
    WithYardSplitRows(al);
    var g := StartFrame(f, team);
    forall c, k | c in f.cols && c !in AddedColumns && 0 <= k < g.size
      ensures g.cols[c][k] == Filled(f.cols[c][keep[k]])
    {
      assert g.cols[c] == al.cols[c];
    }
    assert g.cols["full_play_type"] == al.cols["full_play_type"];
  }

  /**
   * The yard columns of the kept rows, read from the input row each one
   * comes from: the yards gained of a run (resp. a pass), and 0 otherwise.
   */
  lemma StartYardColumns(f: Frame, team: string)
    requires f.Valid() && HasInputColumns(f) && LabelsReady(f, team)
    ensures var g, keep := StartFrame(f, team), Kept(StartMask(f, team));
      g.size == |keep| &&
      (forall k :: 0 <= k < g.size ==>
         keep[k] < f.size &&
         g.cols["rushing_yards_gained"][k] ==
           (if f.cols["play_type"][keep[k]] == Text("run") then Filled(f.cols["yards_gained"][keep[k]]) else Num(0)) &&
         g.cols["passing_yards_gained"][k] ==
           (if f.cols["play_type"][keep[k]] == Text("pass") then Filled(f.cols["yards_gained"][keep[k]]) else Num(0)))
  {
    var al, keep := Allowed(f, team), Kept(StartMask(f, team));
    AllowedRows(f, team);
    WithYardSplitRows(al);
    var g := StartFrame(f, team);
    forall k | 0 <= k < g.size
      ensures g.cols["rushing_yards_gained"][k] ==
                (if f.cols["play_type"][keep[k]] == Text("run") then Filled(f.cols["yards_gained"][keep[k]]) else Num(0))
      ensures g.cols["passing_yards_gained"][k] ==
                (if f.cols["play_type"][keep[k]] == Text("pass") then Filled(f.cols["yards_gained"][keep[k]]) else Num(0))
    {
      assert al.cols["play_type"][k] == Filled(f.cols["play_type"][keep[k]]);
      assert al.cols["yards_gained"][k] == Filled(f.cols["yards_gained"][keep[k]]);
    }
  }

  /**
   * Every kept row is a run or a pass, so its rushing and passing yards
   * split its yards gained: one of them is the yards gained, the other 0.
   */
  lemma YardSplitSums(f: Frame, team: string)
    requires f.Valid() && HasInputColumns(f) && LabelsReady(f, team)
    ensures var g := StartFrame(f, team);
      g.cols.Keys >= {"play_type", "yards_gained", "rushing_yards_gained", "passing_yards_gained"} &&
      forall k :: 0 <= k < g.size ==>
        (g.cols["play_type"][k] == Text("run") || g.cols["play_type"][k] == Text("pass")) &&
        g.cols["rushing_yards_gained"][k] == (if g.cols["play_type"][k] == Text("run") then g.cols["yards_gained"][k] else Num(0)) &&
        g.cols["passing_yards_gained"][k] == (if g.cols["play_type"][k] == Text("pass") then g.cols["yards_gained"][k] else Num(0)) &&
        (g.cols["yards_gained"][k].Num? ==>
           g.cols["rushing_yards_gained"][k].n + g.cols["passing_yards_gained"][k].n == g.cols["yards_gained"][k].n)
  {
    KeptRunsAndPasses(f, team);
    SplitOfRunsAndPasses(Allowed(f, team));
  }

  /** The yard split of a table of runs and passes. */
  lemma SplitOfRunsAndPasses(al: Frame)
    requires al.Valid() && HasInputColumns(al)
    requires forall k :: 0 <= k < al.size ==> al.cols["play_type"][k] == Text("run") || al.cols["play_type"][k] == Text("pass")
    ensures var g := WithYardSplit(al);
      g.cols.Keys >= {"play_type", "yards_gained", "rushing_yards_gained", "passing_yards_gained"} &&
      forall k :: 0 <= k < g.size ==>
        (g.cols["play_type"][k] == Text("run") || g.cols["play_type"][k] == Text("pass")) &&
        g.cols["rushing_yards_gained"][k] == (if g.cols["play_type"][k] == Text("run") then g.cols["yards_gained"][k] else Num(0)) &&
        g.cols["passing_yards_gained"][k] == (if g.cols["play_type"][k] == Text("pass") then g.cols["yards_gained"][k] else Num(0)) &&
        (g.cols["yards_gained"][k].Num? ==>
           g.cols["rushing_yards_gained"][k].n + g.cols["passing_yards_gained"][k].n == g.cols["yards_gained"][k].n)
  {
    WithYardSplitRows(al);
  }

  lemma KeptRunsAndPasses(f: Frame, team: string)
    requires f.Valid() && HasInputColumns(f) && LabelsReady(f, team)
    ensures var al := Allowed(f, team);
      forall k :: 0 <= k < al.size ==> al.cols["play_type"][k] == Text("run") || al.cols["play_type"][k] == Text("pass")
  {
    var al, keep := Allowed(f, team), Kept(StartMask(f, team));
    AllowedRows(f, team);
    forall k | 0 <= k < al.size
      ensures al.cols["play_type"][k] == Text("run") || al.cols["play_type"][k] == Text("pass")
    {
      assert al.cols["play_type"][k] == Filled(f.cols["play_type"][keep[k]]);
      assert IsTeamPlay(f, team, keep[k]);
    }
  }

  lemma WithYardSplitRows(al: Frame)
    requires al.Valid() && HasInputColumns(al)
    ensures var g := WithYardSplit(al);
      g.size == al.size && g.cols.Keys == al.cols.Keys + {"rushing_yards_gained", "passing_yards_gained"} &&
      (forall c :: c in al.cols && c != "rushing_yards_gained" && c != "passing_yards_gained" ==> g.cols[c] == al.cols[c]) &&
      forall k :: 0 <= k < g.size ==>
        g.cols["play_type"][k] == al.cols["play_type"][k] &&
        g.cols["yards_gained"][k] == al.cols["yards_gained"][k] &&
        g.cols["rushing_yards_gained"][k] == (if al.cols["play_type"][k] == Text("run") then al.cols["yards_gained"][k] else Num(0)) &&
        g.cols["passing_yards_gained"][k] == (if al.cols["play_type"][k] == Text("pass") then al.cols["yards_gained"][k] else Num(0))
  {
  }

  /**
   * The team filter keeps no row exactly when no input row is a team play,
   * and then the allow-list keeps none either.
   */
  lemma NoTeamPlayNoStartRow(f: Frame, team: string)
    requires f.Valid() && HasInputColumns(f) && LabelsReady(f, team)
    ensures |Kept(TeamMask(f, team))| == 0 <==> forall i :: 0 <= i < f.size ==> !IsTeamPlay(f, team, i)
    ensures |Kept(TeamMask(f, team))| == 0 ==> |Kept(StartMask(f, team))| == 0
  {
    var tm, sm := TeamMask(f, team), StartMask(f, team);
    KeptSpec(tm);
    if |Kept(tm)| > 0 {
      assert IsTeamPlay(f, team, Kept(tm)[0]);
    }
    if |Kept(sm)| > 0 {
      var i := Kept(sm)[0];
      assert tm[i];
    }
  }

  /**
   * The start mask in terms of the raw fields: a team play is kept exactly
   * when it is a run to the left, middle or right, or a pass to the left,
   * middle or right that is short or deep (a missing field reads "unknown",
   * which is none of these).
   */
  lemma StartMaskFields(f: Frame, team: string, i: nat)
    requires f.Valid() && HasInputColumns(f) && LabelsReady(f, team) && i < f.size
    ensures StartMask(f, team)[i] <==>
      IsTeamPlay(f, team, i) &&
      ((f.cols["play_type"][i] == Text("run") && LabelText(f.cols["run_location"][i]) in Directions) ||
       (f.cols["play_type"][i] == Text("pass") && LabelText(f.cols["pass_location"][i]) in Directions &&
        LabelText(f.cols["pass_length"][i]) in PassLengths))
  {
    if IsTeamPlay(f, team, i) {
      AllowedPlayTypeFields(LabelText(f.cols["play_type"][i]), LabelText(f.cols["pass_location"][i]),
                            LabelText(f.cols["pass_length"][i]), LabelText(f.cols["run_location"][i]));
    }
  }
}
