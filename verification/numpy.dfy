/**
 * The numerical building blocks the scripts call into, stated over exact reals:
 * np.arange, np.diff, np.searchsorted (both sides), np.histogram with an
 * explicit edge array, np.append, and the bin-centre expression
 * `edges[1:] - np.diff(edges)/2`.
 */
module Numpy {

  /** Ascending order with ties allowed: what np.searchsorted asks of its array. */
  predicate Sorted(a: seq<real>) {
    forall i, j :: 0 <= i <= j < |a| ==> a[i] <= a[j]
  }

  predicate StrictlyIncreasing(a: seq<real>) {
    forall i, j :: 0 <= i < j < |a| ==> a[i] < a[j]
  }

  // ---------------------------------------------------------------------------
  // np.arange(start, stop, step)
  // ---------------------------------------------------------------------------

  function Ceil(x: real): int {
    -((-x).Floor)
  }

  /** numpy's element count `ceil((stop - start) / step)`, and 0 when that is not positive. */
  function ArangeLength(start: real, stop: real, step: real): (n: nat)
    requires step != 0.0
    ensures n == 0 <==> (stop - start) / step <= 0.0
    ensures n > 0 ==> (n - 1) as real < (stop - start) / step <= n as real
  {
    var q := (stop - start) / step;
    if q <= 0.0 then 0 else Ceil(q)
  }

  /** The k-th value of the progression that starts at `start` with increment `step`. */
  function Step(start: real, step: real, k: nat): real {
    start + k as real * step
  }

  /** A value has not yet reached `stop`, in the direction of `step`. */
  predicate BeforeStop(stop: real, step: real, x: real) {
    if step > 0.0 then x < stop else x > stop
  }

  lemma MulLessMonotone(k: real, q: real, step: real)
    requires step > 0.0
    ensures k * step < q * step <==> k < q
  {
    if k < q {
      assert (q - k) * step > 0.0;
    } else {
      assert (k - q) * step >= 0.0;
    }
  }

  /** The k-th progression value precedes `stop` exactly when k is below numpy's count. */
  lemma {:induction false} ArangeLengthExact(start: real, stop: real, step: real, k: nat)
    requires step != 0.0
    ensures k < ArangeLength(start, stop, step) <==> BeforeStop(stop, step, Step(start, step, k))
  {
    var q := (stop - start) / step;
    assert stop - start == q * step;
    var c := Ceil(q);
    assert c as real - 1.0 < q <= c as real;
    if step > 0.0 {
      MulLessMonotone(k as real, q, step);
    } else {
      MulLessMonotone(k as real, q, -step);
      assert k as real * step > q * step <==> k as real * -step < q * -step;
    }
  }

  /**
   * np.arange(start, stop, step) for a non-zero step (numpy raises on a zero
   * step; callers model that failure). Every element is on the progression,
   * and a progression value is present exactly when it lies before `stop`:
   * none lies beyond it and none short of it is omitted.
   */
  function Arange(start: real, stop: real, step: real): (r: seq<real>)
    requires step != 0.0
    ensures forall k: nat :: k < |r| ==> r[k] == Step(start, step, k)
    ensures forall k: nat :: k < |r| <==> BeforeStop(stop, step, Step(start, step, k))
  {
    forall k: nat ensures k < ArangeLength(start, stop, step) <==> BeforeStop(stop, step, Step(start, step, k)) {
      ArangeLengthExact(start, stop, step, k);
    }
    seq(ArangeLength(start, stop, step), k requires 0 <= k => Step(start, step, k))
  }

  /** With a positive step the values of np.arange increase strictly, by exactly `step`. */
  lemma ArangeIncreasing(start: real, stop: real, step: real)
    requires step > 0.0
    ensures StrictlyIncreasing(Arange(start, stop, step))
    ensures forall i :: 0 <= i < |Arange(start, stop, step)| - 1 ==>
      Arange(start, stop, step)[i + 1] - Arange(start, stop, step)[i] == step
  {
    var r := Arange(start, stop, step);
    forall i, j | 0 <= i < j < |r| ensures r[i] < r[j] {
      assert r[j] - r[i] == (j - i) as real * step;
      MulLessMonotone(0.0, (j - i) as real, step);
    }
  }

  /**
   * For a positive step, a value from the first value of np.arange up to (not
   * including) its last lies in the half-open interval of exactly one pair of
   * neighbouring values: the one numbered `floor((t - start) / step)`.
   */
  lemma ArangeBinOf(start: real, stop: real, step: real, t: real)
    requires step > 0.0
    requires |Arange(start, stop, step)| >= 2
    requires start <= t < Arange(start, stop, step)[|Arange(start, stop, step)| - 1]
    ensures 0 <= ((t - start) / step).Floor < |Arange(start, stop, step)| - 1
    ensures Arange(start, stop, step)[((t - start) / step).Floor] <= t < Arange(start, stop, step)[((t - start) / step).Floor + 1]
  {
    var r := Arange(start, stop, step);
    var n := |r|;
    assert r[n - 1] == start + (n - 1) as real * step;
    FloorBin(start, step, t, n - 1);
    var i := ((t - start) / step).Floor;
    assert r[i] == start + i as real * step;
    assert r[i + 1] == start + (i + 1) as real * step;
  }

  /** The arithmetic behind ArangeBinOf: `floor((t - start) / step)` numbers the step holding t. */
  lemma FloorBin(start: real, step: real, t: real, m: int)
    requires step > 0.0 && m >= 1
    requires start <= t < start + m as real * step
    ensures 0 <= ((t - start) / step).Floor < m
    ensures start + ((t - start) / step).Floor as real * step <= t
    ensures t < start + (((t - start) / step).Floor + 1) as real * step
  {
    var q := (t - start) / step;
    var i := q.Floor;
    assert t - start == q * step;
    assert i as real <= q < i as real + 1.0;
    MulLessMonotone(q, 0.0, step);
    MulLessMonotone(q, m as real, step);
    MulLessMonotone(q, i as real, step);
    var j := (i + 1) as real;
    assert q < j;
    MulLessMonotone(q, j, step);
    assert q * step < j * step;
    assert t < start + j * step;
  }

  // ---------------------------------------------------------------------------
  // np.diff and the bin-centre expression
  // ---------------------------------------------------------------------------

  /** np.diff on a real array: successive differences, empty for fewer than two values. */
  function Diff(a: seq<real>): (d: seq<real>)
    ensures |d| == if |a| == 0 then 0 else |a| - 1
    ensures forall i :: 0 <= i < |d| ==> a[i] + d[i] == a[i + 1]
  {
    if |a| <= 1 then [] else seq(|a| - 1, i requires 0 <= i < |a| - 1 => a[i + 1] - a[i])
  }

  /** np.diff on an integer array. */
  function IntDiff(a: seq<int>): (d: seq<int>)
    ensures |d| == if |a| == 0 then 0 else |a| - 1
    ensures forall i :: 0 <= i < |d| ==> a[i] + d[i] == a[i + 1]
  {
    if |a| <= 1 then [] else seq(|a| - 1, i requires 0 <= i < |a| - 1 => a[i + 1] - a[i])
  }

  function Sum(a: seq<int>): int {
    if |a| == 0 then 0 else a[0] + Sum(a[1..])
  }

  /** The differences of a sequence add up, by telescoping, to last minus first. */
  lemma {:induction false} SumIntDiff(a: seq<int>)
    requires |a| >= 1
    ensures Sum(IntDiff(a)) == a[|a| - 1] - a[0]
  {
    if |a| > 1 {
      assert IntDiff(a)[1..] == IntDiff(a[1..]);
      SumIntDiff(a[1..]);
    }
  }

  /** A sorted array has no negative difference. */
  lemma DiffOfSortedNonNegative(a: seq<real>)
    requires Sorted(a)
    ensures forall i :: 0 <= i < |Diff(a)| ==> Diff(a)[i] >= 0.0
  {
  }

  /**
   * `edges[1:] - np.diff(edges)/2`: one value per pair of neighbouring edges,
   * the midpoint of the pair, and for increasing edges strictly between them.
   */
  function BinCentres(edges: seq<real>): (c: seq<real>)
    ensures |c| == if |edges| == 0 then 0 else |edges| - 1
    ensures forall i :: 0 <= i < |c| ==> 2.0 * c[i] == edges[i] + edges[i + 1]
    ensures forall i :: 0 <= i < |c| && edges[i] < edges[i + 1] ==> edges[i] < c[i] < edges[i + 1]
  {
    var d := Diff(edges);
    if |edges| == 0 then [] else seq(|edges| - 1, i requires 0 <= i < |edges| - 1 => edges[i + 1] - d[i] / 2.0)
  }

  // ---------------------------------------------------------------------------
  // Counting and np.searchsorted
  // ---------------------------------------------------------------------------

  /** np.searchsorted's `side` argument. */
  datatype Side = Left | Right

  /**
   * The value `t` would be placed before an insertion of `x` on the given side:
   * strictly below it for 'left', at or below it for 'right'.
   */
  predicate Precedes(side: Side, t: real, x: real) {
    match side
    case Left => t < x
    case Right => t <= x
  }

  /** The number of elements of `a` that precede `x` on the given side. */
  function CountBefore(a: seq<real>, x: real, side: Side): (n: nat)
    ensures n <= |a|
  {
    if |a| == 0 then 0
    else (if Precedes(side, a[0], x) then 1 else 0) + CountBefore(a[1..], x, side)
  }

  /**
   * The bin membership test: `lo <= t` and `t` below `hi`, strictly for a
   * half-open bin (Left), or at most `hi` for a closed one (Right).
   */
  predicate Within(t: real, lo: real, hi: real, side: Side) {
    lo <= t && Precedes(side, t, hi)
  }

  /** The number of elements of `a` inside the bin from `lo` to `hi`. */
  function CountWithin(a: seq<real>, lo: real, hi: real, side: Side): (n: nat)
    ensures n <= |a|
  {
    if |a| == 0 then 0
    else (if Within(a[0], lo, hi, side) then 1 else 0) + CountWithin(a[1..], lo, hi, side)
  }

  /** Counting below `hi` is counting below `lo` plus counting in the bin between them. */
  lemma {:induction false} CountBeforeSplit(a: seq<real>, lo: real, hi: real, side: Side)
    requires lo <= hi
    ensures CountBefore(a, hi, side) == CountBefore(a, lo, Left) + CountWithin(a, lo, hi, side)
  {
    if |a| > 0 {
      CountBeforeSplit(a[1..], lo, hi, side);
    }
  }

  lemma CountBeforeMonotone(a: seq<real>, lo: real, hi: real, side: Side)
    requires lo <= hi
    ensures CountBefore(a, lo, Left) <= CountBefore(a, hi, side)
  {
    CountBeforeSplit(a, lo, hi, side);
  }

  /** When the first k elements precede x and the rest do not, exactly k precede x. */
  lemma {:induction false} CountBeforeAtPartition(a: seq<real>, x: real, side: Side, k: nat)
    requires k <= |a|
    requires forall j :: 0 <= j < k ==> Precedes(side, a[j], x)
    requires forall j :: k <= j < |a| ==> !Precedes(side, a[j], x)
    ensures CountBefore(a, x, side) == k
  {
    if |a| > 0 {
      CountBeforeAtPartition(a[1..], x, side, if k == 0 then 0 else k - 1);
    }
  }

  /**
   * np.searchsorted(a, x, side) for one value: binary search for the insertion
   * index that keeps the sorted array sorted. Everything before the index
   * precedes `x`, nothing from it on does, and so the index is the number of
   * elements that precede `x`.
   */
  method SearchSorted(a: seq<real>, x: real, side: Side) returns (i: nat)
    requires Sorted(a)
    ensures i <= |a|
    ensures forall j :: 0 <= j < i ==> Precedes(side, a[j], x)
    ensures forall j :: i <= j < |a| ==> !Precedes(side, a[j], x)
    ensures i == CountBefore(a, x, side)
  {
    var lo, hi := 0, |a|;
    while lo < hi
      invariant 0 <= lo <= hi <= |a|
      invariant forall j :: 0 <= j < lo ==> Precedes(side, a[j], x)
      invariant forall j :: hi <= j < |a| ==> !Precedes(side, a[j], x)
      decreases hi - lo
    {
      var mid := (lo + hi) / 2;
      if Precedes(side, a[mid], x) {
        lo := mid + 1;
      } else {
        hi := mid;
      }
    }
    CountBeforeAtPartition(a, x, side, lo);
    i := lo;
  }

  /** np.searchsorted(a, v, side) for an array `v` of values, on sorted `a`. */
  function SearchSortedAll(a: seq<real>, v: seq<real>, side: Side): (idx: seq<int>)
    requires Sorted(a)
    ensures |idx| == |v|
    ensures forall j :: 0 <= j < |v| ==> 0 <= idx[j] <= |a|
  {
    seq(|v|, j requires 0 <= j < |v| => CountBefore(a, v[j], side))
  }

  /**
   * For a sorted array and non-decreasing edges, the differences of the 'left' insertion indices
   * count the elements of each half-open bin `[edges[i], edges[i+1])`, and they
   * add up to the number of elements in `[edges[0], edges[last])`.
   */
  lemma BinCountsFromSearch(a: seq<real>, edges: seq<real>)
    requires Sorted(a) && Sorted(edges)
    ensures forall i :: 0 <= i < |edges| - 1 ==>
      IntDiff(SearchSortedAll(a, edges, Left))[i] == CountWithin(a, edges[i], edges[i + 1], Left)
    ensures |edges| >= 1 ==>
      Sum(IntDiff(SearchSortedAll(a, edges, Left))) == CountWithin(a, edges[0], edges[|edges| - 1], Left)
  {
    var idx := SearchSortedAll(a, edges, Left);
    forall i | 0 <= i < |edges| - 1
      ensures IntDiff(idx)[i] == CountWithin(a, edges[i], edges[i + 1], Left)
    {
      CountBeforeSplit(a, edges[i], edges[i + 1], Left);
    }
    if |edges| >= 1 {
      SumIntDiff(idx);
      CountBeforeSplit(a, edges[0], edges[|edges| - 1], Left);
    }
  }

  // ---------------------------------------------------------------------------
  // np.histogram(x, edges) with an explicit, non-decreasing edge array
  // ---------------------------------------------------------------------------

  /** Every bin but the last is half-open; the last one also holds its right edge. */
  function BinSide(edges: seq<real>, i: int): (s: Side)
    ensures s == Right <==> i + 1 == |edges| - 1
  {
    if i == |edges| - 2 then Right else Left
  }

  /** `t` falls in bin `i` of `edges` under np.histogram's rule. */
  predicate InBin(t: real, edges: seq<real>, i: int)
    requires 0 <= i < |edges| - 1
    ensures InBin(t, edges, i) ==> edges[i] <= t <= edges[i + 1]
    ensures InBin(t, edges, i) && t == edges[i + 1] ==> i == |edges| - 2
  {
    Within(t, edges[i], edges[i + 1], BinSide(edges, i))
  }

  /**
   * np.histogram on explicit edges: numpy sorts the data and takes 'left'
   * insertion indices of all edges but the last, whose index is taken on the
   * 'right', then differences them. The counts are those of the sorted data,
   * which are the counts of `x` itself. Bin i holds exactly the values that
   * np.histogram's rule puts in it.
   */
  function Histogram(x: seq<real>, edges: seq<real>): (h: seq<int>)
    requires Sorted(edges)
    ensures |h| == if |edges| == 0 then 0 else |edges| - 1
    ensures forall i :: 0 <= i < |h| ==> h[i] == CountWithin(x, edges[i], edges[i + 1], BinSide(edges, i))
  {
    var cum := seq(|edges|, j requires 0 <= j < |edges| =>
      CountBefore(x, edges[j], if j == |edges| - 1 then Right else Left));
    forall i | 0 <= i < |edges| - 1
      ensures cum[i + 1] - cum[i] == CountWithin(x, edges[i], edges[i + 1], BinSide(edges, i))
    {
      CountBeforeSplit(x, edges[i], edges[i + 1], BinSide(edges, i));
    }
    IntDiff(cum)
  }

  /**
   * With at least two edges, the histogram's total is the number of values in
   * the closed range `[edges[0], edges[last]]`, so at most the number of values.
   */
  lemma HistogramTotal(x: seq<real>, edges: seq<real>)
    requires Sorted(edges) && |edges| >= 2
    ensures Sum(Histogram(x, edges)) == CountWithin(x, edges[0], edges[|edges| - 1], Right)
    ensures Sum(Histogram(x, edges)) <= |x|
  {
    var cum := seq(|edges|, j requires 0 <= j < |edges| =>
      CountBefore(x, edges[j], if j == |edges| - 1 then Right else Left));
    assert Histogram(x, edges) == IntDiff(cum);
    SumIntDiff(cum);
    CountBeforeSplit(x, edges[0], edges[|edges| - 1], Right);
  }

  /** Under non-decreasing edges, as np.histogram accepts them, no value falls in two bins. */
  lemma BinsDisjoint(t: real, edges: seq<real>, i: int, j: int)
    requires Sorted(edges)
    requires 0 <= i < j < |edges| - 1
    ensures !(InBin(t, edges, i) && InBin(t, edges, j))
  {
    assert edges[i + 1] <= edges[j];
  }

  // ---------------------------------------------------------------------------
  // np.append, repeated
  // ---------------------------------------------------------------------------

  /** The in-order concatenation of a sequence of arrays. */
  function Flatten(parts: seq<seq<real>>): (r: seq<real>)
    ensures |r| == TotalLength(parts)
  {
    if |parts| == 0 then [] else Flatten(parts[..|parts| - 1]) + parts[|parts| - 1]
  }

  /** The sum of the part lengths; no single part is longer. */
  function TotalLength(parts: seq<seq<real>>): (n: nat)
    ensures forall p :: 0 <= p < |parts| ==> |parts[p]| <= n
  {
    if |parts| == 0 then 0 else TotalLength(parts[..|parts| - 1]) + |parts[|parts| - 1]|
  }

  /**
   * Element j of part p sits in the flattened array right after all elements
   * of the parts before p.
   */
  lemma {:induction false} FlattenIndex(parts: seq<seq<real>>, p: int, j: int)
    requires 0 <= p < |parts| && 0 <= j < |parts[p]|
    ensures TotalLength(parts[..p]) + j < |Flatten(parts)|
    ensures Flatten(parts)[TotalLength(parts[..p]) + j] == parts[p][j]
  {
    var n := |parts|;
    var init := parts[..n - 1];
    if p < n - 1 {
      FlattenIndex(init, p, j);
      assert init[..p] == parts[..p];
    } else {
      assert parts[..p] == init;
    }
  }
}
