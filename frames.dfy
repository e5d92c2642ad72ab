/**
 * A columnar table of plays, as the flow keeps it in a pandas DataFrame:
 * every column is a named sequence of cells, all of the same length.
 * Row selection by a boolean mask, missing-value filling and the
 * integer/cell conversions the aggregation columns need live here.
 */
module Frames {
  import opened Wrappers

  /** One cell of the table: an integer, a text value, or a missing value (NaN). */
  datatype Cell = Num(n: int) | Text(s: string) | Missing

  /** What makes a pandas step raise instead of producing a table. */
  datatype Error =
    | MissingColumn(column: string)   // KeyError on a column label
    | MissingKey(key: string)         // KeyError on a metric-list dictionary
    | NonNumeric(column: string)      // a summed or ranked column holds a non-integer cell
    | MissingArgument(param: string)  // TypeError: a required positional argument was not passed
    | EmptyApply(column: string)      // ValueError: a row-wise apply over no rows yields a table, not a column

  datatype Frame = Frame(size: nat, cols: map<string, seq<Cell>>) {

    /** Every column has one cell per row. */
    predicate Valid() {
      forall c :: c in cols ==> |cols[c]| == size
    }

    /** `df[name] = col`: add the column, or replace the one of that name. */
    function With(name: string, col: seq<Cell>): (f: Frame)
      requires Valid() && |col| == size
      ensures f.Valid() && f.size == size
      ensures f.cols.Keys == cols.Keys + {name}
      ensures f.cols[name] == col
      ensures forall c :: c in cols && c != name ==> f.cols[c] == cols[c]
    {
      Frame(size, cols[name := col])
    }

    /** `df[mask]`: keep the rows whose mask entry is true, in their order. */
    function SelectRows(keep: seq<bool>): (f: Frame)
      requires Valid() && |keep| == size
      ensures f.Valid() && f.size == |Kept(keep)|
      ensures f.cols.Keys == cols.Keys
      ensures forall c, k :: c in cols && 0 <= k < f.size ==> f.cols[c][k] == cols[c][Kept(keep)[k]]
    {
      Frame(|Kept(keep)|, map c | c in cols :: Select(cols[c], keep))
    }

    /** `df.replace(np.nan, v)`: every missing cell of every column becomes `v`. */
    function FillAll(v: Cell): (f: Frame)
      requires Valid()
      ensures f.Valid() && f.size == size && f.cols.Keys == cols.Keys
      ensures forall c, k :: c in cols && 0 <= k < size ==>
        f.cols[c][k] == if cols[c][k].Missing? then v else cols[c][k]
    {
      Frame(size, map c | c in cols :: FillMissing(cols[c], v))
    }
  }

  /** The indices of the true entries of `keep`, in increasing order. */
  function Kept(keep: seq<bool>): (idx: seq<nat>)
    ensures |idx| <= |keep|
    ensures forall k :: 0 <= k < |idx| ==> idx[k] < |keep| && keep[idx[k]]
  {
    if |keep| == 0 then []
    else
      var n := |keep| - 1;
      var prefix := Kept(keep[..n]);
      prefix + (if keep[n] then [n] else [])
  }

  /** `Kept(keep)` enumerates every true entry exactly once, in increasing order. */
  lemma {:induction false} KeptSpec(keep: seq<bool>)
    ensures forall k, l :: 0 <= k < l < |Kept(keep)| ==> Kept(keep)[k] < Kept(keep)[l]
    ensures forall i :: 0 <= i < |keep| && keep[i] ==> i in Kept(keep)
  {
    if |keep| > 0 {
      var n := |keep| - 1;
      KeptSpec(keep[..n]);
      assert forall i :: 0 <= i < n ==> keep[..n][i] == keep[i];
    }
  }

  /** The elements of `s` at the true entries of `keep`, in their order. */
  function Select<T>(s: seq<T>, keep: seq<bool>): (r: seq<T>)
    requires |s| == |keep|
    ensures |r| == |Kept(keep)|
  {
    var idx := Kept(keep);
    seq(|idx|, k requires 0 <= k < |idx| => s[idx[k]])
  }

  lemma KeptSnoc(keep: seq<bool>, b: bool)
    ensures Kept(keep + [b]) == Kept(keep) + (if b then [|keep|] else [])
  {
    assert (keep + [b])[..|keep|] == keep;
  }

  /** Pointwise conjunction of two masks. */
  function And(a: seq<bool>, b: seq<bool>): (r: seq<bool>)
    requires |a| == |b|
    ensures |r| == |a| && forall i :: 0 <= i < |a| ==> r[i] == (a[i] && b[i])
  {
    seq(|a|, i requires 0 <= i < |a| => a[i] && b[i])
  }

  /** The entries of `outer` at the positions listed in `inner`. */
  function Compose(outer: seq<nat>, inner: seq<nat>): (r: seq<nat>)
    requires forall k :: 0 <= k < |inner| ==> inner[k] < |outer|
    ensures |r| == |inner|
  {
    seq(|inner|, k requires 0 <= k < |inner| => outer[inner[k]])
  }

  lemma ComposeStep(outer: seq<nat>, inner: seq<nat>, inner1: seq<nat>, n: nat, b: bool)
    requires forall k :: 0 <= k < |inner| ==> inner[k] < |outer|
    requires inner1 == inner + (if b then [|outer|] else [])
    ensures forall k :: 0 <= k < |inner1| ==> inner1[k] < |outer| + 1
    ensures Compose(outer + [n], inner1) == Compose(outer, inner) + (if b then [n] else [])
  {
  }

  lemma SelectSnoc<T>(s: seq<T>, keep: seq<bool>, x: T, b: bool)
    requires |s| == |keep|
    ensures Select(s + [x], keep + [b]) == Select(s, keep) + (if b then [x] else [])
  {
    KeptSnoc(keep, b);
  }

  lemma AndSnoc(a: seq<bool>, p: seq<bool>, x: bool, y: bool)
    requires |a| == |p|
    ensures And(a + [x], p + [y]) == And(a, p) + [x && y]
  {
  }

  /** What `KeptCompose` states, for one pair of masks. */
  predicate ComposeHolds(a: seq<bool>, p: seq<bool>)
    requires |a| == |p|
  {
    (forall k :: 0 <= k < |Kept(Select(p, a))| ==> Kept(Select(p, a))[k] < |Kept(a)|) &&
    Compose(Kept(a), Kept(Select(p, a))) == Kept(And(a, p))
  }

  lemma ComposeHoldsKeep(a: seq<bool>, p: seq<bool>, y: bool)
    requires |a| == |p| && ComposeHolds(a, p)
    ensures ComposeHolds(a + [true], p + [y])
  {
    var sel := Select(p, a);
    KeptSnoc(a, true);
    AndSnoc(a, p, true, y);
    KeptSnoc(And(a, p), y);
    SelectSnoc(p, a, y, true);
    KeptSnoc(sel, y);
    ComposeStep(Kept(a), Kept(sel), Kept(sel + [y]), |a|, y);
  }

  lemma ComposeHoldsDrop(a: seq<bool>, p: seq<bool>, y: bool)
    requires |a| == |p| && ComposeHolds(a, p)
    ensures ComposeHolds(a + [false], p + [y])
  {
    KeptSnoc(a, false);
    AndSnoc(a, p, false, y);
    KeptSnoc(And(a, p), false);
    SelectSnoc(p, a, y, false);
    assert Select(p + [y], a + [false]) == Select(p, a);
  }

  /**
   * Filtering twice is filtering once by the conjunction: selecting with `a`
   * and then with `p` restricted to the survivors of `a` keeps exactly the
   * rows that satisfy both, in the same order.
   */
  lemma {:induction false} KeptCompose(a: seq<bool>, p: seq<bool>)
    requires |a| == |p|
    ensures ComposeHolds(a, p)
  {
    if |a| > 0 {
      var n := |a| - 1;
      var a', p' := a[..n], p[..n];
      assert a == a' + [a[n]] && p == p' + [p[n]];
      KeptCompose(a', p');
      if a[n] {
        ComposeHoldsKeep(a', p', p[n]);
      } else {
        ComposeHoldsDrop(a', p', p[n]);
      }
    }
  }

  /** `fillna(v)`: replace each missing cell by `v`. */
  function FillMissing(s: seq<Cell>, v: Cell): (r: seq<Cell>)
    ensures |r| == |s|
    ensures forall i :: 0 <= i < |s| ==> r[i] == if s[i].Missing? then v else s[i]
  {
    seq(|s|, i requires 0 <= i < |s| => if s[i].Missing? then v else s[i])
  }

  predicate AllNum(s: seq<Cell>) {
    forall i :: 0 <= i < |s| ==> s[i].Num?
  }

  function Nums(s: seq<Cell>): (r: seq<int>)
    requires AllNum(s)
    ensures |r| == |s|
  {
    seq(|s|, i requires 0 <= i < |s| => s[i].n)
  }

  function ToCells(s: seq<int>): (r: seq<Cell>)
    ensures |r| == |s| && AllNum(r) && Nums(r) == s
  {
    seq(|s|, i requires 0 <= i < |s| => Num(s[i]))
  }
}
