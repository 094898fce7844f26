/**
 * The inter-arrival histogram of dead_time.py: time stamps of all S1
 * detectors are appended one detector after another, successive differences
 * are taken, and the differences are histogrammed over the edges 0, 2, ..., 260.
 */
module DeadTime {
  import opened Wrappers
  import opened Numpy

  /** `width = 2`: the bin width, in ns. */
  const BinWidth: real := 2.0
  /** The last bin edge, in ns. */
  const LastEdge: real := 260.0
  /** 131 edges give 130 bins. */
  const BinTotal: nat := 130

  /** `np.arange(0, 260+width, width)`: increasing, as np.histogram demands of its edges. */
  function BinEdges(): (e: seq<real>)
    ensures StrictlyIncreasing(e) && Sorted(e)
  {
    ArangeIncreasing(0.0, LastEdge + BinWidth, BinWidth);
    Arange(0.0, LastEdge + BinWidth, BinWidth)
  }

  /** The edges are exactly 0, 2, ..., 260. */
  lemma BinEdgesValues()
    ensures |BinEdges()| == BinTotal + 1
    ensures forall k :: 0 <= k <= BinTotal ==> BinEdges()[k] == 2.0 * k as real
  {
    assert BeforeStop(LastEdge + BinWidth, BinWidth, Step(0.0, BinWidth, BinTotal));
    assert !BeforeStop(LastEdge + BinWidth, BinWidth, Step(0.0, BinWidth, BinTotal + 1));
  }

  /** The side np.histogram uses for the right edge of bin i: only the last bin is closed. */
  function EdgeSide(i: int): Side {
    BinSide(BinEdges(), i)
  }

  /** np.histogram over these edges: bin i counts the values in `[2i, 2i+2)`, the last one closed. */
  lemma HistogramOnBinEdges(x: seq<real>)
    ensures |Histogram(x, BinEdges())| == BinTotal
    ensures forall i :: 0 <= i < BinTotal ==>
      Histogram(x, BinEdges())[i] == CountWithin(x, 2.0 * i as real, 2.0 * i as real + 2.0, EdgeSide(i))
  {
    BinEdgesValues();
    var e := BinEdges();
    var h := Histogram(x, e);
    forall i | 0 <= i < BinTotal
      ensures h[i] == CountWithin(x, 2.0 * i as real, 2.0 * i as real + 2.0, EdgeSide(i))
    {
      assert e[i] == 2.0 * i as real && e[i + 1] == 2.0 * i as real + 2.0;
    }
  }

  /** What plot_delta_t computes before plotting: the bin centres and both histograms. */
  datatype DeltaHistograms = DeltaHistograms(centres: seq<real>, tofu: seq<int>, tofor: seq<int>)

  /**
   * The delta-t histograms of plot_delta_t. There are 130 bins with centres
   * 1, 3, ..., 259; bin i of each histogram counts the differences of
   * successive stamps that lie in `[2i, 2i+2)`, the last bin `[258, 260]`
   * closed on the right.
   */
  function PlotDeltaT(tofuT: seq<real>, toforT: seq<real>): (h: DeltaHistograms)
    ensures |h.centres| == |h.tofu| == |h.tofor| == BinTotal
    ensures forall i :: 0 <= i < BinTotal ==> h.centres[i] == 2.0 * i as real + 1.0
    ensures forall i :: 0 <= i < BinTotal ==>
      h.tofu[i] == CountWithin(Diff(tofuT), 2.0 * i as real, 2.0 * i as real + 2.0, EdgeSide(i))
    ensures forall i :: 0 <= i < BinTotal ==>
      h.tofor[i] == CountWithin(Diff(toforT), 2.0 * i as real, 2.0 * i as real + 2.0, EdgeSide(i))
  {
    var binEdges := BinEdges();
    BinEdgesValues();
    var tofuDt := Diff(tofuT);
    var toforDt := Diff(toforT);
    HistogramOnBinEdges(tofuDt);
    HistogramOnBinEdges(toforDt);
    DeltaHistograms(BinCentres(binEdges), Histogram(tofuDt, binEdges), Histogram(toforDt, binEdges))
  }

  /** The bin a delta belongs to, or None when it is below 0 or above 260. */
  function DeltaBin(d: real): Option<nat> {
    if 0.0 <= d < LastEdge then Some((d / BinWidth).Floor)
    else if d == LastEdge then Some(BinTotal - 1)
    else None
  }

  /**
   * A delta lies in bin i of np.histogram's edges exactly when i is its bin:
   * `2i <= d < 2i+2` for d below 260, the last bin for d = 260, and no bin at
   * all for a negative delta or one above 260.
   */
  lemma DeltaLandsInOneBin(d: real)
    ensures DeltaBin(d).Some? ==> DeltaBin(d).value < BinTotal
    ensures DeltaBin(d).None? <==> d < 0.0 || d > LastEdge
    ensures forall i :: 0 <= i < BinTotal ==> (InBin(d, BinEdges(), i) <==> DeltaBin(d) == Some(i))
  {
    BinEdgesValues();
    var e := BinEdges();
    var b := DeltaBin(d);
    if 0.0 <= d < LastEdge {
      assert b.value as real <= d / BinWidth < b.value as real + 1.0;
    }
    forall i | 0 <= i < BinTotal ensures InBin(d, e, i) <==> b == Some(i) {
      assert e[i] == 2.0 * i as real && e[i + 1] == 2.0 * i as real + 2.0;
      if b.Some? {
        assert b == Some(i) <==> b.value == i;
      } else {
        assert d < 0.0 || d > LastEdge;
      }
    }
  }

  /**
   * Each histogram's total is the number of deltas in `[0, 260]`, so at most
   * the number of deltas, one fewer than the number of stamps.
   */
  lemma DeltaHistogramTotal(tofuT: seq<real>, toforT: seq<real>)
    ensures Sum(PlotDeltaT(tofuT, toforT).tofu) == CountWithin(Diff(tofuT), 0.0, LastEdge, Right)
    ensures Sum(PlotDeltaT(tofuT, toforT).tofor) == CountWithin(Diff(toforT), 0.0, LastEdge, Right)
    ensures Sum(PlotDeltaT(tofuT, toforT).tofu) <= if |tofuT| == 0 then 0 else |tofuT| - 1
    ensures Sum(PlotDeltaT(tofuT, toforT).tofor) <= if |toforT| == 0 then 0 else |toforT| - 1
  {
    BinEdgesValues();
    HistogramTotal(Diff(tofuT), BinEdges());
    HistogramTotal(Diff(toforT), BinEdges());
  }

  /**
   * Appending one detector's stamps after another's puts one extra difference
   * between them, from the last stamp of the first to the first of the second.
   */
  lemma DiffOfAppend(a: seq<real>, b: seq<real>)
    requires |a| >= 1 && |b| >= 1
    ensures Diff(a + b) == Diff(a) + [b[0] - a[|a| - 1]] + Diff(b)
  {
  }

  /** `get_data(shot_number, detector)`: one detector's TOFu and TOFOR stamps. */
  datatype DetectorData = DetectorData(tofu: seq<real>, tofor: seq<real>)

  function TofuParts(data: seq<DetectorData>): seq<seq<real>> {
    seq(|data|, i requires 0 <= i < |data| => data[i].tofu)
  }

  function ToforParts(data: seq<DetectorData>): seq<seq<real>> {
    seq(|data|, i requires 0 <= i < |data| => data[i].tofor)
  }

  /**
   * The module-level loop: starting from empty arrays, each detector's stamps
   * are appended with np.append. The results are the in-order concatenations
   * of the per-detector arrays, as long as their lengths together.
   */
  method CollectStamps(data: seq<DetectorData>) returns (tofuT: seq<real>, toforT: seq<real>)
    ensures tofuT == Flatten(TofuParts(data)) && toforT == Flatten(ToforParts(data))
    ensures |tofuT| == TotalLength(TofuParts(data)) && |toforT| == TotalLength(ToforParts(data))
  {
    tofuT := [];
    toforT := [];
    var i := 0;
    while i < |data|
      invariant 0 <= i <= |data|
      invariant tofuT == Flatten(TofuParts(data[..i]))
      invariant toforT == Flatten(ToforParts(data[..i]))
    {
      assert TofuParts(data[..i + 1])[..i] == TofuParts(data[..i]);
      assert ToforParts(data[..i + 1])[..i] == ToforParts(data[..i]);
      tofuT := tofuT + data[i].tofu;
      toforT := toforT + data[i].tofor;
      i := i + 1;
    }
    assert data[..i] == data;
  }
}
