/**
 * The play classifier of NFL_Play_By_Play/modules.py: a play's
 * `full_play_type` joins its play type with where (and, for a pass, how
 * deep) the ball went, separated by underscores.  Missing location and
 * length fields reach the classifier as the text "unknown".
 */
module PlayTypes {

  /** `get_full_play_type`: "run_<run location>" for runs, "<type>_<pass location>_<pass length>" otherwise. */
  function FullPlayType(playType: string, passLocation: string, passLength: string, runLocation: string): (full: string)
    ensures |full| > |playType| && full[..|playType| + 1] == playType + "_"
  {
    if playType == "run" then playType + "_" + runLocation
    else playType + "_" + passLocation + "_" + passLength
  }

  /** The nine play types the flow keeps, in the order the flow lists them. */
  const AllowedPlayTypes: seq<string> := [
    "pass_left_short", "pass_left_deep", "pass_middle_short", "pass_middle_deep",
    "pass_right_short", "pass_right_deep", "run_left", "run_middle", "run_right"]

  const Directions: seq<string> := ["left", "middle", "right"]
  const PassLengths: seq<string> := ["short", "deep"]

  /** A run's play type is fixed by its run location; the pass fields are not read. */
  lemma RunPlayType(passLocation: string, passLength: string, runLocation: string, passLocation': string, passLength': string)
    ensures FullPlayType("run", passLocation, passLength, runLocation) == "run_" + runLocation
    ensures FullPlayType("run", passLocation, passLength, runLocation) ==
            FullPlayType("run", passLocation', passLength', runLocation)
  {
  }

  /** Any other play's type is fixed by its pass location and length; the run location is not read. */
  lemma OtherPlayType(playType: string, passLocation: string, passLength: string, runLocation: string, runLocation': string)
    requires playType != "run"
    ensures FullPlayType(playType, passLocation, passLength, runLocation) == playType + "_" + passLocation + "_" + passLength
    ensures FullPlayType(playType, passLocation, passLength, runLocation) ==
            FullPlayType(playType, passLocation, passLength, runLocation')
  {
  }

  /** In p + "_" + r with no underscore in p or r, the only underscore sits right after p. */
  lemma OneUnderscore(p: string, r: string)
    requires '_' !in p && '_' !in r
    ensures forall i :: 0 <= i < |p + "_" + r| && (p + "_" + r)[i] == '_' ==> i == |p|
  {
  }

  /** In p + "_" + l + "_" + n with no underscore in p, l or n, underscores sit only at the two separators. */
  lemma TwoUnderscores(p: string, l: string, n: string)
    requires '_' !in p && '_' !in l && '_' !in n
    ensures forall i :: 0 <= i < |p + "_" + l + "_" + n| && (p + "_" + l + "_" + n)[i] == '_' ==>
      i == |p| || i == |p| + 1 + |l|
  {
  }

  /** Reading a one-separator play type back: the parts are determined. */
  lemma SplitOne(u: string, w: string, p: string, r: string)
    requires '_' !in p && '_' !in r
    requires u + "_" + w == p + "_" + r
    ensures u == p && w == r
  {
    var x := p + "_" + r;
    OneUnderscore(p, r);
    assert x[|u|] == (u + "_" + w)[|u|];
    assert u == x[..|u|] && w == x[|u| + 1..];
  }

  /** Reading a two-separator play type back: the parts are determined. */
  lemma SplitTwo(u: string, v: string, w: string, p: string, l: string, n: string)
    requires '_' !in p && '_' !in l && '_' !in n
    requires u + "_" + v + "_" + w == p + "_" + l + "_" + n
    ensures u == p && v == l && w == n
  {
    var y := u + "_" + v + "_" + w;
    TwoUnderscores(p, l, n);
    assert y[|u|] == '_' && y[|u| + 1 + |v|] == '_';
    assert u == y[..|u|] && v == y[|u| + 1..|u| + 1 + |v|] && w == y[|u| + |v| + 2..];
  }

  /** Two play types that each start with an underscore-free word start with the same word. */
  lemma FirstWord(u: string, w: string, p: string, r: string)
    requires '_' !in u && '_' !in p
    requires u + "_" + w == p + "_" + r
    ensures u == p
  {
    var x, y := u + "_" + w, p + "_" + r;
    assert x[|u|] == '_' && y[|p|] == '_';
    assert |u| == |p|;
    assert u == x[..|u|] && p == y[..|p|];
  }

  /** Each allow-list entry, taken apart into its fields. */
  lemma AllowedEntry(i: int)
    requires 0 <= i < |AllowedPlayTypes|
    ensures i < 6 ==> AllowedPlayTypes[i] == "pass" + "_" + Directions[i / 2] + "_" + PassLengths[i % 2]
    ensures 6 <= i ==> AllowedPlayTypes[i] == "run" + "_" + Directions[i - 6]
  {
    if i == 0 {
      assert "pass_left_short" == "pass" + "_" + "left" + "_" + "short";
    } else if i == 1 {
      assert "pass_left_deep" == "pass" + "_" + "left" + "_" + "deep";
    } else if i == 2 {
      assert "pass_middle_short" == "pass" + "_" + "middle" + "_" + "short";
    } else if i == 3 {
      assert "pass_middle_deep" == "pass" + "_" + "middle" + "_" + "deep";
    } else if i == 4 {
      assert "pass_right_short" == "pass" + "_" + "right" + "_" + "short";
    } else if i == 5 {
      assert "pass_right_deep" == "pass" + "_" + "right" + "_" + "deep";
    } else if i == 6 {
      assert "run_left" == "run" + "_" + "left";
    } else if i == 7 {
      assert "run_middle" == "run" + "_" + "middle";
    } else {
      assert "run_right" == "run" + "_" + "right";
    }
  }

  lemma NoUnderscoreInFields()
    ensures '_' !in "run" && '_' !in "pass"
    ensures forall d :: d in Directions ==> '_' !in d
    ensures forall n :: n in PassLengths ==> '_' !in n
  {
  }

  /**
   * The allow-list, read back into the fields: a play is kept exactly when
   * it is a run to the left, middle or right, or a pass to the left, middle
   * or right that is short or deep.
   */
  lemma AllowedPlayTypeFields(playType: string, passLocation: string, passLength: string, runLocation: string)
    ensures FullPlayType(playType, passLocation, passLength, runLocation) in AllowedPlayTypes <==>
      (playType == "run" && runLocation in Directions) ||
      (playType == "pass" && passLocation in Directions && passLength in PassLengths)
  {
    var full := FullPlayType(playType, passLocation, passLength, runLocation);
    if full in AllowedPlayTypes {
      var i :| 0 <= i < |AllowedPlayTypes| && AllowedPlayTypes[i] == full;
      if playType == "run" {
        RunEntryFields(runLocation, i);
      } else {
        OtherEntryFields(playType, passLocation, passLength, i);
      }
    } else if playType == "run" && runLocation in Directions {
      var j :| 0 <= j < 3 && Directions[j] == runLocation;
      AllowedEntry(6 + j);
    } else if playType == "pass" && passLocation in Directions && passLength in PassLengths {
      var j :| 0 <= j < 3 && Directions[j] == passLocation;
      var k :| 0 <= k < 2 && PassLengths[k] == passLength;
      AllowedEntry(2 * j + k);
    }
  }

  lemma RunEntryFields(runLocation: string, i: int)
    requires 0 <= i < |AllowedPlayTypes| && AllowedPlayTypes[i] == "run" + "_" + runLocation
    ensures runLocation in Directions
  {
    AllowedEntry(i);
    NoUnderscoreInFields();
    if i < 6 {
      FirstWord("run", runLocation, "pass", Directions[i / 2] + "_" + PassLengths[i % 2]);
    } else {
      SplitOne("run", runLocation, "run", Directions[i - 6]);
    }
  }

  lemma OtherEntryFields(playType: string, passLocation: string, passLength: string, i: int)
    requires playType != "run"
    requires 0 <= i < |AllowedPlayTypes| && AllowedPlayTypes[i] == playType + "_" + passLocation + "_" + passLength
    ensures playType == "pass" && passLocation in Directions && passLength in PassLengths
  {
    AllowedEntry(i);
    NoUnderscoreInFields();
    if i < 6 {
      SplitTwo(playType, passLocation, passLength, "pass", Directions[i / 2], PassLengths[i % 2]);
    } else {
      var rest := passLocation + "_" + passLength;
      assert rest[|passLocation|] == '_';
      assert playType + "_" + passLocation + "_" + passLength == playType + "_" + rest;
      SplitOne(playType, rest, "run", Directions[i - 6]);
    }
  }
}
