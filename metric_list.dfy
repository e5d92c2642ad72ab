/**
 * The declarative metric configuration of NFL_Play_By_Play/metric_list.py:
 * each entry names a play-level column, how the engine aggregates it
 * (`type`), the `fill_blanks` value for a group's first row and, for a
 * rank, the `new_name` of its output.
 */
module Metrics {
  import opened Wrappers

  /** One dictionary of the list; `new_name` is present only where the source writes it. */
  datatype MetricEntry = MetricEntry(metric: string, kind: string, newName: Option<string>, fillBlanks: int)

  /** The aggregation an entry requests, as the driver reads it. */
  datatype Aggregation = Cumulative(metric: string, fill: int) | Rank(metric: string, newName: string, fill: int)

  function CumulativeEntry(metric: string): MetricEntry {
    MetricEntry(metric, "cumulative_data", None, 0)
  }

  const MetricList: seq<MetricEntry> := [
    CumulativeEntry("yards_gained"),
    CumulativeEntry("rushing_yards_gained"),
    CumulativeEntry("passing_yards_gained"),
    CumulativeEntry("sack"),
    CumulativeEntry("incomplete_pass"),
    CumulativeEntry("no_huddle"),
    CumulativeEntry("interception"),
    CumulativeEntry("first_down_rush"),
    CumulativeEntry("first_down_pass"),
    CumulativeEntry("first_down_penalty"),
    CumulativeEntry("third_down_converted"),
    CumulativeEntry("third_down_failed"),
    CumulativeEntry("fumble"),
    CumulativeEntry("qb_hit"),
    CumulativeEntry("rush_attempt"),
    CumulativeEntry("pass_attempt"),
    CumulativeEntry("touchdown"),
    CumulativeEntry("pass_touchdown"),
    CumulativeEntry("rush_touchdown"),
    MetricEntry("play_id", "rank", Some("play_count"), 0)
  ]

  /** How the driver reads an entry: anything not `cumulative_data` is ranked, and needs `new_name`. */
  function Interpret(e: MetricEntry): (agg: Option<Aggregation>)
    ensures agg.Some? ==> agg.value.metric == e.metric && agg.value.fill == e.fillBlanks
    ensures agg.None? <==> e.kind != "cumulative_data" && e.newName.None?
    ensures agg.Some? && agg.value.Rank? ==> e.kind != "cumulative_data" && Some(agg.value.newName) == e.newName
  {
    if e.kind == "cumulative_data" then Some(Cumulative(e.metric, e.fillBlanks))
    else if e.newName.Some? then Some(Rank(e.metric, e.newName.value, e.fillBlanks))
    else None
  }

  /**
   * The list as shipped: nineteen cumulative entries followed by one rank of
   * `play_id` named `play_count`; every `fill_blanks` is 0 and only the rank
   * carries `new_name`.
   */
  lemma MetricListShape()
    ensures |MetricList| == 20
    ensures forall i :: 0 <= i < |MetricList| ==> MetricList[i].kind in {"cumulative_data", "rank"}
    ensures forall i :: 0 <= i < |MetricList| ==> (MetricList[i].kind == "cumulative_data" <==> i < 19)
    ensures forall i :: 0 <= i < |MetricList| ==> (MetricList[i].newName.Some? <==> MetricList[i].kind == "rank")
    ensures forall i :: 0 <= i < |MetricList| ==> MetricList[i].fillBlanks == 0
    ensures forall i :: 0 <= i < 19 ==> Interpret(MetricList[i]) == Some(Cumulative(MetricList[i].metric, 0))
    ensures Interpret(MetricList[19]) == Some(Rank("play_id", "play_count", 0))
  {
  }

  predicate StartsWith(s: string, prefix: string) {
    |prefix| <= |s| && s[..|prefix|] == prefix
  }

  predicate EndsWith(s: string, suffix: string) {
    |suffix| <= |s| && s[|s| - |suffix|..] == suffix
  }

  /** `<scope>_<base>`, followed by `_after` for the running total that includes the row itself. */
  function OutputName(scope: string, base: string, after: bool): string {
    scope + "_" + base + (if after then "_after" else "")
  }

  /** The generated names as the flow spells them. */
  lemma OutputNameSpelled(m: string)
    ensures OutputName("drive", m, false) == "drive_" + m
    ensures OutputName("game", m, false) == "game_" + m
    ensures OutputName("drive", m, true) == "drive_" + m + "_after"
    ensures OutputName("game", m, true) == "game_" + m + "_after"
  {
    assert "drive" + "_" == "drive_";
    assert "game" + "_" == "game_";
    assert "drive_" + m + "" == "drive_" + m;
    assert "game_" + m + "" == "game_" + m;
  }

  /**
   * The column names the driver writes for one entry: both scopes of a
   * cumulative entry with their `_after` companions, or the game-scope rank.
   */
  function Outputs(e: MetricEntry): set<string> {
    if e.kind == "cumulative_data" then
      {OutputName("drive", e.metric, false), OutputName("drive", e.metric, true),
       OutputName("game", e.metric, false), OutputName("game", e.metric, true)}
    else if e.newName.Some? then {OutputName("game", e.newName.value, false)}
    else {}
  }

  /** A metric name that cannot be mistaken for a generated column or a group key. */
  predicate PlainName(name: string) {
    !StartsWith(name, "drive_") && !StartsWith(name, "game_") && !EndsWith(name, "_after") && name != "id"
  }

  /**
   * The naming discipline under which the driver's outputs never collide:
   * metrics are distinct plain names, and a rank's `new_name` is a plain
   * name that is no entry's metric and no other rank's `new_name`.
   */
  predicate WellNamed(list: seq<MetricEntry>) {
    (forall i, j :: 0 <= i < j < |list| ==> list[i].metric != list[j].metric) &&
    (forall i :: 0 <= i < |list| ==> PlainName(list[i].metric)) &&
    (forall i :: 0 <= i < |list| && list[i].newName.Some? ==> !EndsWith(list[i].newName.value, "_after") && list[i].newName.value != "id") &&
    (forall i, j :: 0 <= i < |list| && 0 <= j < |list| && list[i].newName.Some? ==> list[i].newName.value != list[j].metric) &&
    (forall i, j :: 0 <= i < j < |list| && list[i].newName.Some? && list[j].newName.Some? ==> list[i].newName.value != list[j].newName.value)
  }

  /** Generated names determine their scope, base and companion flag. */
  lemma OutputNameInjective(s1: string, b1: string, a1: bool, s2: string, b2: string, a2: bool)
    requires s1 in {"drive", "game"} && s2 in {"drive", "game"}
    requires !EndsWith(b1, "_after") && !EndsWith(b2, "_after")
    requires OutputName(s1, b1, a1) == OutputName(s2, b2, a2)
    ensures s1 == s2 && b1 == b2 && a1 == a2
  {
    var n := OutputName(s1, b1, a1);
    AfterEndsWithAfter(b1);
    AfterEndsWithAfter(b2);
    assert n[0] == s1[0] && n[0] == s2[0];
    var r1, r2 := b1 + (if a1 then "_after" else ""), b2 + (if a2 then "_after" else "");
    assert n == s1 + "_" + r1 && n == s2 + "_" + r2;
    assert r1 == n[|s1| + 1..] && r2 == n[|s2| + 1..];
    if a1 && a2 {
      assert b1 == r1[..|r1| - 6] && b2 == r2[..|r2| - 6];
    } else if !a1 && !a2 {
      assert r1 == b1 && r2 == b2;
    }
  }

  lemma AfterEndsWithAfter(b: string)
    ensures EndsWith(b + "_after", "_after")
  {
    assert (b + "_after")[|b|..] == "_after";
  }

  /** A plain name is never a generated one. */
  lemma PlainNotOutput(m: string, s: string, b: string, a: bool)
    requires PlainName(m) && s in {"drive", "game"}
    ensures m != OutputName(s, b, a)
  {
    var n := OutputName(s, b, a);
    assert n[..|s| + 1] == s + "_";
  }

  /** The group keys are never generated names of plain bases. */
  lemma KeyNotOutput(s: string, b: string, a: bool)
    requires s in {"drive", "game"} && !EndsWith(b, "_after") && b != "id"
    ensures OutputName(s, b, a) != "unique_drive" && OutputName(s, b, a) != "game_id"
  {
    var n := OutputName(s, b, a);
    assert n[0] == s[0];
    if n == "game_id" {
      OutputNameInjective(s, b, a, "game", "id", false);
    }
  }

  /** The name every output of an entry is built from. */
  function Base(e: MetricEntry): string {
    if e.kind == "cumulative_data" then e.metric
    else if e.newName.Some? then e.newName.value
    else ""
  }

  lemma OutputDecompose(e: MetricEntry, n: string) returns (scope: string, after: bool)
    requires n in Outputs(e)
    ensures scope in {"drive", "game"} && n == OutputName(scope, Base(e), after)
  {
    if e.kind == "cumulative_data" {
      if n == OutputName("drive", e.metric, false) {
        scope, after := "drive", false;
      } else if n == OutputName("drive", e.metric, true) {
        scope, after := "drive", true;
      } else if n == OutputName("game", e.metric, false) {
        scope, after := "game", false;
      } else {
        scope, after := "game", true;
      }
    } else {
      scope, after := "game", false;
    }
  }

  /**
   * Under the naming discipline no two entries write the same column, no
   * entry overwrites a metric any entry reads, and no entry overwrites a
   * group key.
   */
  lemma {:induction false} OutputsDisjoint(list: seq<MetricEntry>)
    requires WellNamed(list)
    ensures forall i, j :: 0 <= i < j < |list| ==> Outputs(list[i]) !! Outputs(list[j])
    ensures forall i, j :: 0 <= i < |list| && 0 <= j < |list| ==> list[j].metric !in Outputs(list[i])
    ensures forall i :: 0 <= i < |list| ==> "unique_drive" !in Outputs(list[i]) && "game_id" !in Outputs(list[i])
  {
    forall i, j | 0 <= i < j < |list|
      ensures Outputs(list[i]) !! Outputs(list[j])
    {
      forall n | n in Outputs(list[i]) && n in Outputs(list[j])
        ensures false
      {
        var s1, a1 := OutputDecompose(list[i], n);
        var s2, a2 := OutputDecompose(list[j], n);
        OutputNameInjective(s1, Base(list[i]), a1, s2, Base(list[j]), a2);
      }
    }
    forall i, j | 0 <= i < |list| && 0 <= j < |list|
      ensures list[j].metric !in Outputs(list[i])
    {
      if list[j].metric in Outputs(list[i]) {
        var s, a := OutputDecompose(list[i], list[j].metric);
        PlainNotOutput(list[j].metric, s, Base(list[i]), a);
      }
    }
    forall i, n | 0 <= i < |list| && n in Outputs(list[i])
      ensures n != "unique_drive" && n != "game_id"
    {
      var s, a := OutputDecompose(list[i], n);
      KeyNotOutput(s, Base(list[i]), a);
    }
  }

  lemma MetricListWellNamed()
    ensures WellNamed(MetricList)
  {
    MetricNamesDistinct();
    MetricNamesPlain();
    OnlyRankNamed();
  }

  /** Only the last entry, the rank of `play_id`, carries a `new_name`. */
  lemma OnlyRankNamed()
    ensures forall i :: 0 <= i < |MetricList| && MetricList[i].newName.Some? ==> i == |MetricList| - 1
    ensures MetricList[|MetricList| - 1] == MetricEntry("play_id", "rank", Some("play_count"), 0)
    ensures forall j :: 0 <= j < |MetricList| ==> MetricList[j].metric != "play_count"
  {
  }

  lemma MetricNamesDistinct()
    ensures forall i, j :: 0 <= i < j < |MetricList| ==> MetricList[i].metric != MetricList[j].metric
  {
  }

  /** A name whose first letter is neither 'd' nor 'g' and whose last letter is not 'r' is plain. */
  lemma PlainByEnds(name: string)
    requires |name| > 0 && name[0] != 'd' && name[0] != 'g' && name[|name| - 1] != 'r' && name != "id"
    ensures PlainName(name)
  {
  }

  lemma MetricNamesPlain()
    ensures forall i :: 0 <= i < |MetricList| ==> PlainName(MetricList[i].metric)
  {
    forall i | 0 <= i < |MetricList|
      ensures PlainName(MetricList[i].metric)
    {
      PlainByEnds(MetricList[i].metric);
    }
  }
}
