/**
 * The count-rate estimator of compare_count_rates.py: time stamps of one
 * detector (ns), shifted by the board's clock offset, are binned over the
 * window from 40 s to 80 s and turned into counts per second per bin.
 */
module CompareCountRates {
  import opened Wrappers
  import opened Numpy

  /** The first bin edge, in seconds. */
  const WindowStart: real := 40.0
  /** Edges stay strictly below this, in seconds. */
  const WindowEnd: real := 80.0
  /** The factor `1E-9` that turns nanosecond stamps into seconds. */
  const SecondsPerNanosecond: real := 0.000000001

  /** np.arange raises when asked for a zero step, here a zero bin width. */
  datatype Error = ZeroWidth

  /** The curve returned by count_rate: bin centres and counts per unit width. */
  datatype RateCurve = RateCurve(centres: seq<real>, rates: seq<real>)

  /**
   * import_tofu after the stamps and the offset are fetched: every stamp is
   * reduced by the offset, which is 0 when the offset lookup failed (None).
   */
  function ImportTofu(timeStamps: seq<real>, offset: Option<real>): (r: seq<real>)
    ensures |r| == |timeStamps|
    ensures forall i :: 0 <= i < |r| ==> r[i] + offset.GetOr(0.0) == timeStamps[i]
  {
    seq(|timeStamps|, i requires 0 <= i < |timeStamps| => timeStamps[i] - offset.GetOr(0.0))
  }

  /** A failed offset lookup leaves the stamps as they are. */
  lemma ImportTofuWithoutOffset(timeStamps: seq<real>)
    ensures ImportTofu(timeStamps, None) == timeStamps
  {
  }

  /** Subtracting one offset keeps the stamps in order. */
  lemma ImportTofuSorted(timeStamps: seq<real>, offset: Option<real>)
    requires Sorted(timeStamps)
    ensures Sorted(ImportTofu(timeStamps, offset))
  {
  }

  /** A bin of the shifted stamps holds what the bin moved by the offset held before. */
  lemma {:induction false} ImportTofuShiftsBins(timeStamps: seq<real>, off: real, lo: real, hi: real, side: Side)
    ensures CountWithin(ImportTofu(timeStamps, Some(off)), lo, hi, side) == CountWithin(timeStamps, lo + off, hi + off, side)
  {
    if |timeStamps| > 0 {
      assert ImportTofu(timeStamps, Some(off))[1..] == ImportTofu(timeStamps[1..], Some(off));
      ImportTofuShiftsBins(timeStamps[1..], off, lo, hi, side);
    }
  }

  /** `time_stamps*1E-9`: nanosecond stamps in seconds. */
  function ToSeconds(timeStamps: seq<real>): (r: seq<real>)
    ensures |r| == |timeStamps|
    ensures forall i :: 0 <= i < |r| ==> r[i] * 1000000000.0 == timeStamps[i]
  {
    seq(|timeStamps|, i requires 0 <= i < |timeStamps| => timeStamps[i] * SecondsPerNanosecond)
  }

  /** Scaling to seconds keeps the stamps in order, so they can be searched. */
  lemma ToSecondsSorted(timeStamps: seq<real>)
    requires Sorted(timeStamps)
    ensures Sorted(ToSeconds(timeStamps))
  {
  }

  /** A bin in seconds holds the stamps of the same bin in nanoseconds. */
  lemma {:induction false} ToSecondsBins(timeStamps: seq<real>, lo: real, hi: real, side: Side)
    ensures CountWithin(ToSeconds(timeStamps), lo, hi, side)
         == CountWithin(timeStamps, lo * 1000000000.0, hi * 1000000000.0, side)
  {
    if |timeStamps| > 0 {
      assert ToSeconds(timeStamps)[1..] == ToSeconds(timeStamps[1..]);
      ToSecondsBins(timeStamps[1..], lo, hi, side);
    }
  }

  /**
   * `time_steps = np.arange(40, 80, width)`: the bin edges, ascending, and
   * present at all only for a positive width.
   */
  function TimeSteps(width: real): (e: seq<real>)
    requires width != 0.0
    ensures Sorted(e)
    ensures |e| >= 1 <==> width > 0.0
  {
    var e := Arange(WindowStart, WindowEnd, width);
    if width > 0.0 then
      ArangeIncreasing(WindowStart, WindowEnd, width);
      assert BeforeStop(WindowEnd, width, Step(WindowStart, width, 0));
      e
    else
      assert !BeforeStop(WindowEnd, width, Step(WindowStart, width, 0));
      e
  }

  /**
   * The edges for a positive width: they start at 40, go up by exactly
   * `width`, all lie below 80, and every `40 + k*width` below 80 is one of them.
   */
  lemma TimeStepsWindow(width: real)
    requires width > 0.0
    ensures |TimeSteps(width)| >= 1 && TimeSteps(width)[0] == WindowStart
    ensures StrictlyIncreasing(TimeSteps(width))
    ensures forall i :: 0 <= i < |TimeSteps(width)| - 1 ==> TimeSteps(width)[i + 1] - TimeSteps(width)[i] == width
    ensures forall i :: 0 <= i < |TimeSteps(width)| ==> TimeSteps(width)[i] < WindowEnd
    ensures forall k: nat :: Step(WindowStart, width, k) < WindowEnd ==>
      k < |TimeSteps(width)| && TimeSteps(width)[k] == Step(WindowStart, width, k)
  {
    ArangeIncreasing(WindowStart, WindowEnd, width);
    var e := TimeSteps(width);
    assert Step(WindowStart, width, 0) < WindowEnd;
    forall i | 0 <= i < |e| ensures e[i] < WindowEnd {
      assert BeforeStop(WindowEnd, width, Step(WindowStart, width, i));
    }
  }

  /**
   * The stretch `[edges[last], 80)`, whose stamps no bin counts, is non-empty
   * and at most one width long.
   */
  lemma LastEdgeGap(width: real)
    requires width > 0.0
    ensures |TimeSteps(width)| >= 1
    ensures 0.0 < WindowEnd - TimeSteps(width)[|TimeSteps(width)| - 1] <= width
  {
    TimeStepsWindow(width);
    var e := TimeSteps(width);
    var n := |e|;
    assert !BeforeStop(WindowEnd, width, Step(WindowStart, width, n));
    assert e[n - 1] == Step(WindowStart, width, n - 1);
    assert Step(WindowStart, width, n) == e[n - 1] + width;
  }

  /** A negative width gives no edges at all. */
  lemma TimeStepsNegativeWidth(width: real)
    requires width < 0.0
    ensures TimeSteps(width) == []
  {
    assert !BeforeStop(WindowEnd, width, Step(WindowStart, width, 0));
  }


  /**
   * `np.diff(np.searchsorted(time_stamps*1E-9, time_steps))`: the number of
   * stamps in each bin.
   */
  function BinCounts(timeStamps: seq<real>, width: real): (c: seq<int>)
    requires Sorted(timeStamps) && width != 0.0
    ensures |c| == if |TimeSteps(width)| == 0 then 0 else |TimeSteps(width)| - 1
    ensures forall i :: 0 <= i < |c| ==>
      c[i] == CountWithin(ToSeconds(timeStamps), TimeSteps(width)[i], TimeSteps(width)[i + 1], Left)
  {
    ToSecondsSorted(timeStamps);
    BinCountsFromSearch(ToSeconds(timeStamps), TimeSteps(width));
    IntDiff(SearchSortedAll(ToSeconds(timeStamps), TimeSteps(width), Left))
  }

  /**
   * count_rate(time_stamps, width) on nanosecond stamps. A zero width fails
   * as np.arange does. Otherwise there is one centre and one rate per pair of
   * neighbouring edges; centre i is the midpoint of its bin, and rate i is the
   * number of stamps (in seconds) in `[edges[i], edges[i+1])` divided by the width.
   */
  function CountRate(timeStamps: seq<real>, width: real): (r: Result<RateCurve, Error>)
    requires Sorted(timeStamps)
    ensures r.Failure? <==> width == 0.0
    ensures r.Success? ==>
      var e := TimeSteps(width);
      && |r.value.centres| == |r.value.rates| == (if |e| == 0 then 0 else |e| - 1)
      && (forall i :: 0 <= i < |r.value.rates| ==>
            r.value.rates[i] == CountWithin(ToSeconds(timeStamps), e[i], e[i + 1], Left) as real / width)
      && (forall i :: 0 <= i < |r.value.centres| ==> 2.0 * r.value.centres[i] == e[i] + e[i + 1])
  {
    if width == 0.0 then Failure(ZeroWidth)
    else
      var timeSteps := TimeSteps(width);
      var counts := BinCounts(timeStamps, width);
      Success(RateCurve(BinCentres(timeSteps),
                        seq(|counts|, i requires 0 <= i < |counts| => counts[i] as real / width)))
  }

  /** For a positive width every rate is non-negative and every centre lies strictly inside its bin. */
  lemma CountRateWellFormed(timeStamps: seq<real>, width: real)
    requires Sorted(timeStamps) && width > 0.0
    ensures forall i :: 0 <= i < |CountRate(timeStamps, width).value.rates| ==>
      CountRate(timeStamps, width).value.rates[i] >= 0.0
    ensures forall i :: 0 <= i < |CountRate(timeStamps, width).value.centres| ==>
      TimeSteps(width)[i] < CountRate(timeStamps, width).value.centres[i] < TimeSteps(width)[i + 1]
  {
    TimeStepsWindow(width);
    var c := CountRate(timeStamps, width).value;
    var e := TimeSteps(width);
    forall i | 0 <= i < |c.rates| ensures c.rates[i] >= 0.0 {
      QuotientNonNegative(CountWithin(ToSeconds(timeStamps), e[i], e[i + 1], Left) as real, width);
    }
  }

  lemma QuotientNonNegative(x: real, w: real)
    requires x >= 0.0 && w > 0.0
    ensures x / w >= 0.0
  {
    MulLessMonotone(x / w, 0.0, w);
  }

  /**
   * The bin counts add up, by telescoping, to the number of stamps in
   * `[40, edges[last])`.
   */
  lemma CountRateTotal(timeStamps: seq<real>, width: real)
    requires Sorted(timeStamps) && width > 0.0
    ensures var e := TimeSteps(width);
      Sum(BinCounts(timeStamps, width)) == CountWithin(ToSeconds(timeStamps), WindowStart, e[|e| - 1], Left)
  {
    TimeStepsWindow(width);
    ToSecondsSorted(timeStamps);
    BinCountsFromSearch(ToSeconds(timeStamps), TimeSteps(width));
  }

  /**
   * A stamp (in seconds) before 40 or at or after the last edge is in no bin;
   * one in between is in exactly one bin, number `floor((t - 40) / width)`.
   */
  lemma StampBin(t: real, width: real)
    requires width > 0.0
    ensures var e := TimeSteps(width);
      (t < WindowStart || t >= e[|e| - 1]) ==>
        forall i :: 0 <= i < |e| - 1 ==> !Within(t, e[i], e[i + 1], Left)
    ensures var e := TimeSteps(width);
      var k := ((t - WindowStart) / width).Floor;
      WindowStart <= t < e[|e| - 1] ==>
        && 0 <= k < |e| - 1
        && Within(t, e[k], e[k + 1], Left)
        && forall i :: 0 <= i < |e| - 1 && i != k ==> !Within(t, e[i], e[i + 1], Left)
  {
    TimeStepsWindow(width);
    var e := TimeSteps(width);
    var n := |e|;
    if t < WindowStart || t >= e[n - 1] {
      forall i | 0 <= i < n - 1 ensures !Within(t, e[i], e[i + 1], Left) {
        assert e[0] <= e[i] && e[i + 1] <= e[n - 1];
      }
    }
    if WindowStart <= t < e[n - 1] {
      ArangeBinOf(WindowStart, WindowEnd, width, t);
      var k := ((t - WindowStart) / width).Floor;
      forall i | 0 <= i < n - 1 && i != k ensures !Within(t, e[i], e[i + 1], Left) {
        if i < k {
          assert e[i + 1] <= e[k];
        } else {
          assert e[k + 1] <= e[i];
        }
      }
    }
  }

  /** Without stamps every rate is zero. */
  lemma CountRateNoStamps(width: real)
    requires width != 0.0
    ensures forall i :: 0 <= i < |CountRate([], width).value.rates| ==> CountRate([], width).value.rates[i] == 0.0
  {
    var none := CountRate([], width).value;
    var e := TimeSteps(width);
    var secs := ToSeconds([]);
    assert secs == [];
    forall i | 0 <= i < |none.rates| ensures none.rates[i] == 0.0 {
      assert CountWithin(secs, e[i], e[i + 1], Left) == 0;
      assert none.rates[i] == 0.0 / width;
    }
  }

  /** The centres depend on the width alone, not on the stamps. */
  lemma CountRateCentresIndependent(stamps1: seq<real>, stamps2: seq<real>, width: real)
    requires Sorted(stamps1) && Sorted(stamps2) && width != 0.0
    ensures CountRate(stamps1, width).value.centres == CountRate(stamps2, width).value.centres
  {
  }

  lemma TimeStepsTenSeconds()
    ensures TimeSteps(10.0) == [40.0, 50.0, 60.0, 70.0]
  {
    var e := TimeSteps(10.0);
    assert BeforeStop(WindowEnd, 10.0, Step(WindowStart, 10.0, 3));
    assert !BeforeStop(WindowEnd, 10.0, Step(WindowStart, 10.0, 4));
    assert |e| == 4;
    assert e[0] == 40.0 && e[1] == 50.0 && e[2] == 60.0 && e[3] == 70.0;
  }

  /**
   * A worked case with 10 s bins: the edges are 40, 50, 60 and 70, so there
   * are three bins; the stamp at 79 s is after the last edge and is not
   * counted, though it lies inside the 40 s to 80 s window.
   */
  lemma CountRateTenSecondBins(stamps: seq<real>)
    requires stamps == [45000000000.0, 52000000000.0, 55000000000.0, 79000000000.0]
    ensures CountRate(stamps, 10.0) == Success(RateCurve([45.0, 55.0, 65.0], [0.1, 0.2, 0.0]))
  {
    TenSecondRates(stamps);
    TenSecondCentres(stamps);
  }

  lemma TenSecondRates(stamps: seq<real>)
    requires stamps == [45000000000.0, 52000000000.0, 55000000000.0, 79000000000.0]
    ensures CountRate(stamps, 10.0).Success? && CountRate(stamps, 10.0).value.rates == [0.1, 0.2, 0.0]
  {
    var c := CountRate(stamps, 10.0).value;
    TimeStepsTenSeconds();
    var secs := ToSeconds(stamps);
    assert secs == [45.0, 52.0, 55.0, 79.0];
    assert CountWithin([45.0, 52.0, 55.0, 79.0], 40.0, 50.0, Left) == 1;
    assert CountWithin([45.0, 52.0, 55.0, 79.0], 50.0, 60.0, Left) == 2;
    assert CountWithin([45.0, 52.0, 55.0, 79.0], 60.0, 70.0, Left) == 0;
    assert |c.rates| == 3;
    assert c.rates[0] == 1.0 / 10.0;
    assert c.rates[1] == 2.0 / 10.0;
    assert c.rates[2] == 0.0 / 10.0;
  }

  lemma TenSecondCentres(stamps: seq<real>)
    requires stamps == [45000000000.0, 52000000000.0, 55000000000.0, 79000000000.0]
    ensures CountRate(stamps, 10.0).Success? && CountRate(stamps, 10.0).value.centres == [45.0, 55.0, 65.0]
  {
    var c := CountRate(stamps, 10.0).value;
    TimeStepsTenSeconds();
    assert |c.centres| == 3;
    assert c.centres[0] == 45.0 && c.centres[1] == 55.0 && c.centres[2] == 65.0;
  }
}
