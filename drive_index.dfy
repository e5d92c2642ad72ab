/**
 * The `drive_level_index` step (NFL_Play_By_Play/data_prep.py:61-67): every
 * row gets `unique_drive`, its game id and its drive number as text joined
 * by an underscore, so that drives of different games never share a key.
 */
module DriveIndex {
  import opened Wrappers
  import opened Frames
  import opened PlayTypes

  function Digit(d: nat): (c: char)
    requires d < 10
    ensures '0' <= c <= '9'
  {
    (('0' as int) + d) as char
  }

  /** Python's `str` of a non-negative integer: its decimal digits, no leading zeros. */
  function NatToString(n: nat): (s: string)
    ensures |s| > 0 && (n < 10 <==> |s| == 1)
    ensures forall k :: 0 <= k < |s| ==> '0' <= s[k] <= '9'
  {
    if n < 10 then [Digit(n)] else NatToString(n / 10) + [Digit(n % 10)]
  }

  /** Python's `str` of an integer: a minus sign before the digits of a negative one. */
  function IntToString(n: int): (s: string)
    ensures '_' !in s
    ensures |s| > 0 && ((n < 0) <==> (s[0] == '-'))
  {
    if n < 0 then "-" + NatToString(-n) else NatToString(n)
  }

  /** Distinct numbers print differently. */
  lemma {:induction false} NatToStringInjective(a: nat, b: nat)
    requires NatToString(a) == NatToString(b)
    ensures a == b
    decreases a
  {
    var s := NatToString(a);
    if a >= 10 && b >= 10 {
      assert s[|s| - 1] == Digit(a % 10) == Digit(b % 10);
      assert NatToString(a / 10) == s[..|s| - 1] == NatToString(b / 10);
      NatToStringInjective(a / 10, b / 10);
    }
  }

  lemma IntToStringInjective(a: int, b: int)
    requires IntToString(a) == IntToString(b)
    ensures a == b
  {
    if a < 0 && b < 0 {
      assert NatToString(-a) == IntToString(a)[1..];
      assert NatToString(-b) == IntToString(b)[1..];
      NatToStringInjective(-a, -b);
    } else if a >= 0 && b >= 0 {
      NatToStringInjective(a, b);
    }
  }

  /** `str(x)` of a cell: numbers in decimal, text as is, a missing value as "nan". */
  function CellStr(c: Cell): string {
    match c
    case Num(n) => IntToString(n)
    case Text(s) => s
    case Missing => "nan"
  }

  /** `str(game_id) + '_' + str(drive)` */
  function DriveKey(game: Cell, drive: Cell): (key: string)
    ensures game.Num? && drive.Num? ==> key == IntToString(game.n) + "_" + IntToString(drive.n)
  {
    CellStr(game) + "_" + CellStr(drive)
  }

  /**
   * For numeric game ids and drive numbers, two rows share a drive key
   * exactly when they share both the game and the drive.
   */
  lemma DriveKeyInjective(game: int, drive: int, game': int, drive': int)
    ensures DriveKey(Num(game), Num(drive)) == DriveKey(Num(game'), Num(drive')) <==>
      game == game' && drive == drive'
  {
    if DriveKey(Num(game), Num(drive)) == DriveKey(Num(game'), Num(drive')) {
      SplitOne(IntToString(game), IntToString(drive), IntToString(game'), IntToString(drive'));
      IntToStringInjective(game, game');
      IntToStringInjective(drive, drive');
    }
  }

  /** The `unique_drive` column, row by row. */
  function DriveKeyColumn(f: Frame): (col: seq<Cell>)
    requires f.Valid() && "game_id" in f.cols && "drive" in f.cols
    ensures |col| == f.size
    ensures forall i :: 0 <= i < f.size ==> col[i].Text? && '_' in col[i].s
  {
    seq(f.size, i requires 0 <= i < f.size => Text(DriveKey(f.cols["game_id"][i], f.cols["drive"][i])))
  }

  /**
   * The step adds `unique_drive` and changes nothing else: same rows, same
   * order, every other column as it was.
   */
  function DriveIndexFrame(f: Frame): (g: Frame)
    requires f.Valid() && "game_id" in f.cols && "drive" in f.cols
    ensures g.Valid() && g.size == f.size
    ensures g.cols.Keys == f.cols.Keys + {"unique_drive"}
    ensures forall c :: c in f.cols && c != "unique_drive" ==> g.cols[c] == f.cols[c]
    ensures forall i :: 0 <= i < g.size ==>
      g.cols["unique_drive"][i] == Text(DriveKey(f.cols["game_id"][i], f.cols["drive"][i]))
  {
    f.With("unique_drive", DriveKeyColumn(f))
  }

  /**
   * The step as the flow runs it: the row-wise apply over a table with no
   * rows yields a table rather than a column, and storing it under
   * `unique_drive` raises; any other table gains the drive key.
   */
  function DriveIndexStep(f: Frame): (r: Result<Frame, Error>)
    requires f.Valid() && "game_id" in f.cols && "drive" in f.cols
    ensures r.Err? <==> f.size == 0
    ensures r.Err? ==> r.error == EmptyApply("unique_drive")
    ensures r.Ok? ==> r.value.size == f.size && r.value.cols.Keys == f.cols.Keys + {"unique_drive"}
  {
    if f.size == 0 then Err(EmptyApply("unique_drive"))
    else Ok(DriveIndexFrame(f))
  }
}
