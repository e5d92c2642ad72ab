/**
 * The grouped sequence operations the flow asks pandas for, stated on
 * plain sequences: `keys[i]` is row i's group (its drive key or its game
 * id) and rows keep their input order throughout.
 *
 * - `CumsumAfter`      groupby(key)[metric].cumsum()
 * - `ShiftInGroup`     groupby(key)[column].shift(1), with the value for a
 *                      row that has no predecessor in its group given
 * - `CumulativeBefore` the shifted running total: the "before this play" value
 * - `OrdinalRank`      groupby(key)[metric].rank(ascending=True, method='first')
 */
module Grouped {
  import opened Wrappers

  /** The last row before `n` whose key is `k`, if there is one. */
  function LastIndex<K(==)>(keys: seq<K>, k: K, n: nat): (r: Option<nat>)
    requires n <= |keys|
    ensures r.Some? ==> r.value < n && keys[r.value] == k
    ensures r.Some? ==> forall t :: r.value < t < n ==> keys[t] != k
    ensures r.None? ==> forall t :: 0 <= t < n ==> keys[t] != k
  {
    if n == 0 then None
    else if keys[n - 1] == k then Some(n - 1)
    else LastIndex(keys, k, n - 1)
  }

  /** The previous row of row i's group, if row i is not the first of its group. */
  function PrevInGroup<K(==)>(keys: seq<K>, i: nat): (r: Option<nat>)
    requires i < |keys|
  {
    LastIndex(keys, keys[i], i)
  }

  /** The sum of `m` over the rows before `n` whose key is `k`. */
  function GroupSum<K(==)>(keys: seq<K>, m: seq<int>, k: K, n: nat): int
    requires |m| == |keys| && n <= |keys|
  {
    if n == 0 then 0
    else GroupSum(keys, m, k, n - 1) + (if keys[n - 1] == k then m[n - 1] else 0)
  }

  /** A group sum reads only the rows of its own group before its bound. */
  lemma {:induction false} GroupSumLocal<K>(keys: seq<K>, m: seq<int>, m': seq<int>, k: K, n: nat)
    requires |m| == |keys| && |m'| == |keys| && n <= |keys|
    requires forall t :: 0 <= t < n && keys[t] == k ==> m[t] == m'[t]
    ensures GroupSum(keys, m, k, n) == GroupSum(keys, m', k, n)
  {
    if n > 0 {
      GroupSumLocal(keys, m, m', k, n - 1);
    }
  }

  /** Rows of other groups between `lo` and `hi` add nothing to the group sum. */
  lemma {:induction false} GroupSumSkip<K>(keys: seq<K>, m: seq<int>, k: K, lo: nat, hi: nat)
    requires |m| == |keys| && lo <= hi <= |keys|
    requires forall t :: lo <= t < hi ==> keys[t] != k
    ensures GroupSum(keys, m, k, hi) == GroupSum(keys, m, k, lo)
  {
    if lo < hi {
      GroupSumSkip(keys, m, k, lo, hi - 1);
    }
  }

  /** The group sum over a prefix of the table is the group sum over that prefix's rows. */
  lemma {:induction false} GroupSumPrefix<K>(keys: seq<K>, m: seq<int>, k: K, p: nat, n: nat)
    requires |m| == |keys| && n <= p <= |keys|
    ensures GroupSum(keys[..p], m[..p], k, n) == GroupSum(keys, m, k, n)
  {
    if n > 0 {
      GroupSumPrefix(keys, m, k, p, n - 1);
    }
  }

  /**
   * The inclusive running total of `m` within each group, computed as a
   * scan: a row adds its own value to the running total of its group's
   * previous row.  Its contract says what it is: the group's sum up to and
   * including the row.
   */
  function CumsumAfter<K(==)>(keys: seq<K>, m: seq<int>): (after: seq<int>)
    requires |m| == |keys|
    ensures |after| == |m|
    ensures forall i :: 0 <= i < |m| ==> after[i] == GroupSum(keys, m, keys[i], i + 1)
    decreases |m|
  {
    if |m| == 0 then []
    else
      var n := |m| - 1;
      var prefix := CumsumAfter(keys[..n], m[..n]);
      var total := match LastIndex(keys, keys[n], n)
        case None => 0
        case Some(j) => prefix[j];
      var after := prefix + [total + m[n]];
      CumsumAfterStep(keys, m, prefix, total);
      after
  }

  lemma CumsumAfterStep<K>(keys: seq<K>, m: seq<int>, prefix: seq<int>, total: int)
    requires |m| == |keys| && |keys| > 0 && |prefix| == |keys| - 1
    requires forall i :: 0 <= i < |prefix| ==>
      prefix[i] == GroupSum(keys[..|prefix|], m[..|prefix|], keys[..|prefix|][i], i + 1)
    requires total == match LastIndex(keys, keys[|prefix|], |prefix|)
      case None => 0
      case Some(j) => prefix[j]
    ensures forall i :: 0 <= i < |m| ==>
      (prefix + [total + m[|prefix|]])[i] == GroupSum(keys, m, keys[i], i + 1)
  {
    var n := |prefix|;
    forall i | 0 <= i < n
      ensures prefix[i] == GroupSum(keys, m, keys[i], i + 1)
    {
      GroupSumPrefix(keys, m, keys[i], n, i + 1);
    }
    match LastIndex(keys, keys[n], n)
    case None =>
      GroupSumSkip(keys, m, keys[n], 0, n);
    case Some(j) =>
      GroupSumSkip(keys, m, keys[n], j + 1, n);
  }

  /**
   * Each row receives the value of `col` at the previous row of its group,
   * and `fill` when it is the first row of its group.
   */
  function ShiftInGroup<K(==), T>(keys: seq<K>, col: seq<T>, fill: T): (r: seq<T>)
    requires |col| == |keys|
    ensures |r| == |col|
  {
    seq(|col|, i requires 0 <= i < |col| =>
      match PrevInGroup(keys, i)
      case None => fill
      case Some(j) => col[j])
  }

  /**
   * The "before this play" value: the running total shifted by one row
   * within the group.  It is `fill` for the first row of a group, and
   * otherwise the sum of the metric over the strictly earlier rows of the
   * group, so a row's own value never enters it.
   */
  function CumulativeBefore<K(==)>(keys: seq<K>, m: seq<int>, fill: int): (before: seq<int>)
    requires |m| == |keys|
    ensures |before| == |m|
    ensures forall i :: 0 <= i < |m| ==>
      before[i] == (if PrevInGroup(keys, i).None? then fill else GroupSum(keys, m, keys[i], i))
  {
    var after := CumsumAfter(keys, m);
    var before := ShiftInGroup(keys, after, fill);
    forall i | 0 <= i < |m| && PrevInGroup(keys, i).Some?
      ensures before[i] == GroupSum(keys, m, keys[i], i)
    {
      var j := PrevInGroup(keys, i).value;
      GroupSumSkip(keys, m, keys[i], j + 1, i);
    }
    before
  }

  /**
   * No leakage and partition isolation: a row's "before" value depends only
   * on the metric at the earlier rows of its own group.  Changing the row's
   * own value, a later row's value, or any value in another group leaves it
   * as it was.
   */
  lemma CumulativeBeforeLocal<K>(keys: seq<K>, m: seq<int>, m': seq<int>, fill: int, i: nat)
    requires |m| == |keys| && |m'| == |keys| && i < |keys|
    requires forall t :: 0 <= t < i && keys[t] == keys[i] ==> m[t] == m'[t]
    ensures CumulativeBefore(keys, m, fill)[i] == CumulativeBefore(keys, m', fill)[i]
  {
    GroupSumLocal(keys, m, m', keys[i], i);
  }

  /**
   * The "before" value of a row that has a predecessor in its group is the
   * predecessor's running total, which is the predecessor's own "before"
   * value plus its metric (for a predecessor that is itself first in the
   * group, this needs the fill value to be 0).
   */
  lemma CumulativeChain<K>(keys: seq<K>, m: seq<int>, fill: int, i: nat, j: nat)
    requires |m| == |keys| && i < |keys|
    requires PrevInGroup(keys, i) == Some(j)
    ensures CumulativeBefore(keys, m, fill)[i] == CumsumAfter(keys, m)[j]
    ensures PrevInGroup(keys, j).Some? || fill == 0 ==>
      CumulativeBefore(keys, m, fill)[i] == CumulativeBefore(keys, m, fill)[j] + m[j]
  {
    match PrevInGroup(keys, j)
    case None =>
      GroupSumSkip(keys, m, keys[j], 0, j);
    case Some(h) =>
      GroupSumSkip(keys, m, keys[j], h + 1, j);
  }

  // ---------------------------------------------------------------------
  // Ordinal rank

  /** Row j comes before row i in i's group: smaller value, or equal value earlier in the table. */
  predicate RanksBefore<K(==)>(keys: seq<K>, v: seq<int>, j: nat, i: nat)
    requires |v| == |keys| && j < |v| && i < |v|
  {
    keys[j] == keys[i] && (v[j] < v[i] || (v[j] == v[i] && j < i))
  }

  /** The rows of group `k` before row `n`. */
  function GroupBefore<K(==)>(keys: seq<K>, k: K, n: nat): (g: set<nat>)
    requires n <= |keys|
    ensures forall j: nat :: j in g <==> j < n && keys[j] == k
  {
    if n == 0 then {}
    else GroupBefore(keys, k, n - 1) + (if keys[n - 1] == k then {n - 1} else {})
  }

  /** The rows of group `k`. */
  function Group<K(==)>(keys: seq<K>, k: K): (g: set<nat>)
    ensures forall j: nat :: j in g <==> j < |keys| && keys[j] == k
  {
    GroupBefore(keys, k, |keys|)
  }

  /** The rows that rank before row i in its group. */
  function RankedBefore<K(==)>(keys: seq<K>, v: seq<int>, i: nat): set<nat>
    requires |v| == |keys| && i < |v|
  {
    set j: nat | j < |v| && RanksBefore(keys, v, j, i)
  }

  /**
   * The stable ordinal rank of each row's value within its group: one more
   * than the number of rows of the group that rank before it.
   */
  function OrdinalRank<K(==)>(keys: seq<K>, v: seq<int>): (rank: seq<int>)
    requires |v| == |keys|
    ensures |rank| == |v|
  {
    seq(|v|, i requires 0 <= i < |v| => 1 + |RankedBefore(keys, v, i)|)
  }

  /** The numbers 1 to n. */
  function Ranks(n: nat): (r: set<int>)
    ensures forall x :: x in r <==> 1 <= x <= n
    ensures |r| == n
  {
    if n == 0 then {} else Ranks(n - 1) + {n}
  }

  lemma CardSplit<T>(a: set<T>, b: set<T>)
    requires a <= b
    ensures |b| == |a| + |b - a|
  {
    assert b == a + (b - a);
  }

  lemma CardEqual<T>(a: set<T>, b: set<T>)
    requires a <= b && |a| == |b|
    ensures a == b
  {
    CardSplit(a, b);
    assert b - a == {};
  }

  /** Ranks lie between 1 and the size of the row's group. */
  lemma RankBounds<K>(keys: seq<K>, v: seq<int>, i: nat)
    requires |v| == |keys| && i < |v|
    ensures 1 <= OrdinalRank(keys, v)[i] <= |Group(keys, keys[i])|
  {
    var g := Group(keys, keys[i]);
    CardSplit(RankedBefore(keys, v, i), g - {i});
    CardSplit({i}, g);
  }

  /**
   * Within a group, a row ranks lower exactly when its value is smaller, or
   * equal and earlier in the table: ascending order, ties broken by input order.
   */
  lemma RankOrder<K>(keys: seq<K>, v: seq<int>, i: nat, j: nat)
    requires |v| == |keys| && i < |v| && j < |v| && keys[i] == keys[j]
    ensures RanksBefore(keys, v, j, i) <==> OrdinalRank(keys, v)[j] < OrdinalRank(keys, v)[i]
  {
    if RanksBefore(keys, v, j, i) {
      RankedBeforeGrows(keys, v, j, i);
    } else if j != i {
      RankedBeforeGrows(keys, v, i, j);
    }
  }

  lemma RankedBeforeGrows<K>(keys: seq<K>, v: seq<int>, j: nat, i: nat)
    requires |v| == |keys| && i < |v| && j < |v| && RanksBefore(keys, v, j, i)
    ensures |RankedBefore(keys, v, j)| < |RankedBefore(keys, v, i)|
  {
    var before, smaller := RankedBefore(keys, v, i), RankedBefore(keys, v, j);
    assert smaller <= before - {j};
    CardSplit(smaller, before - {j});
    CardSplit({j}, before);
  }

  /** Two rows of a group never share a rank. */
  lemma RankInjective<K>(keys: seq<K>, v: seq<int>, i: nat, j: nat)
    requires |v| == |keys| && i < |v| && j < |v| && keys[i] == keys[j] && i != j
    ensures OrdinalRank(keys, v)[i] != OrdinalRank(keys, v)[j]
  {
    RankOrder(keys, v, i, j);
    RankOrder(keys, v, j, i);
  }

  /** The ranks held by the rows of group `k` before row `n`. */
  function GroupRanksBefore<K(==)>(keys: seq<K>, rank: seq<int>, k: K, n: nat): set<int>
    requires |rank| == |keys| && n <= |keys|
  {
    if n == 0 then {}
    else GroupRanksBefore(keys, rank, k, n - 1) + (if keys[n - 1] == k then {rank[n - 1]} else {})
  }

  /** A rank held by a later row of an injectively ranked group is not among the earlier rows' ranks. */
  lemma {:induction false} RankNotYetTaken<K>(keys: seq<K>, rank: seq<int>, k: K, n: nat, t: nat)
    requires |rank| == |keys| && n <= t < |keys| && keys[t] == k
    requires forall i, j :: 0 <= i < j < |keys| && keys[i] == k && keys[j] == k ==> rank[i] != rank[j]
    ensures rank[t] !in GroupRanksBefore(keys, rank, k, n)
  {
    if n > 0 {
      RankNotYetTaken(keys, rank, k, n - 1, t);
    }
  }

  /** Injectively ranked rows hold as many distinct ranks as there are rows. */
  lemma {:induction false} GroupRanksCard<K>(keys: seq<K>, rank: seq<int>, k: K, n: nat)
    requires |rank| == |keys| && n <= |keys|
    requires forall i, j :: 0 <= i < j < |keys| && keys[i] == k && keys[j] == k ==> rank[i] != rank[j]
    ensures |GroupRanksBefore(keys, rank, k, n)| == |GroupBefore(keys, k, n)|
  {
    if n > 0 {
      GroupRanksCard(keys, rank, k, n - 1);
      if keys[n - 1] == k {
        RankNotYetTaken(keys, rank, k, n - 1, n - 1);
      }
      GroupRanksStep(keys, rank, k, n);
    }
  }

  /** One more row: the group's rank set grows with its row set, given that a new row brings a new rank. */
  lemma GroupRanksStep<K>(keys: seq<K>, rank: seq<int>, k: K, n: nat)
    requires |rank| == |keys| && 0 < n <= |keys|
    requires |GroupRanksBefore(keys, rank, k, n - 1)| == |GroupBefore(keys, k, n - 1)|
    requires keys[n - 1] == k ==> rank[n - 1] !in GroupRanksBefore(keys, rank, k, n - 1)
    ensures |GroupRanksBefore(keys, rank, k, n)| == |GroupBefore(keys, k, n)|
  {
    var ranks, rows := GroupRanksBefore(keys, rank, k, n - 1), GroupBefore(keys, k, n - 1);
    if keys[n - 1] == k {
      assert GroupBefore(keys, k, n) == rows + {n - 1};
      assert n - 1 !in rows;
    } else {
      assert GroupBefore(keys, k, n) == rows;
    }
  }

  /** Ranks bounded by `top` stay bounded by it. */
  lemma {:induction false} GroupRanksBounded<K>(keys: seq<K>, rank: seq<int>, k: K, n: nat, top: nat)
    requires |rank| == |keys| && n <= |keys|
    requires forall j :: 0 <= j < |keys| && keys[j] == k ==> 1 <= rank[j] <= top
    ensures GroupRanksBefore(keys, rank, k, n) <= Ranks(top)
  {
    if n > 0 {
      GroupRanksBounded(keys, rank, k, n - 1, top);
    }
  }

  /**
   * Rank bijection: the ranks of a group of k rows are exactly 1..k, each
   * held by one row.
   */
  lemma RankPermutation<K>(keys: seq<K>, v: seq<int>, k: K)
    requires |v| == |keys|
    ensures GroupRanksBefore(keys, OrdinalRank(keys, v), k, |keys|) == Ranks(|Group(keys, k)|)
  {
    var rank := OrdinalRank(keys, v);
    forall i, j | 0 <= i < j < |keys| && keys[i] == k && keys[j] == k
      ensures rank[i] != rank[j]
    {
      RankInjective(keys, v, i, j);
    }
    forall j | 0 <= j < |keys| && keys[j] == k
      ensures 1 <= rank[j] <= |Group(keys, k)|
    {
      RankBounds(keys, v, j);
    }
    GroupRanksCard(keys, rank, k, |keys|);
    GroupRanksBounded(keys, rank, k, |keys|, |Group(keys, k)|);
    CardEqual(GroupRanksBefore(keys, rank, k, |keys|), Ranks(|Group(keys, k)|));
  }

  /** Partition isolation for ranks: a row's rank reads only the values of its own group. */
  lemma RankLocal<K>(keys: seq<K>, v: seq<int>, v': seq<int>, i: nat)
    requires |v| == |keys| && |v'| == |keys| && i < |keys|
    requires forall t :: 0 <= t < |keys| && keys[t] == keys[i] ==> v[t] == v'[t]
    ensures OrdinalRank(keys, v)[i] == OrdinalRank(keys, v')[i]
  {
    assert RankedBefore(keys, v, i) == RankedBefore(keys, v', i);
  }

  /**
   * When the values increase along each group (as play ids do), a row's
   * rank is its position in its group: 1 for the group's first row, and
   * one more than the number of earlier rows of the group otherwise.
   */
  lemma RankOfIncreasing<K>(keys: seq<K>, v: seq<int>, i: nat)
    requires |v| == |keys| && i < |keys|
    requires forall s, t :: 0 <= s < t < |keys| && keys[s] == keys[t] ==> v[s] < v[t]
    ensures OrdinalRank(keys, v)[i] == 1 + |GroupBefore(keys, keys[i], i)|
  {
    assert RankedBefore(keys, v, i) == GroupBefore(keys, keys[i], i);
  }
}
