# Binned count rates and inter-arrival histograms, verified in Dafny

This project models the two counting computations in a set of analysis
scripts. The scripts compare neutron count rates of detector systems during
single pulses of a fusion experiment.

- `compare_count_rates.py`, `count_rate`: a detector's time stamps (ns) are
  shifted by its board's clock offset (`import_tofu`), turned into seconds and
  binned. The bins are the half-open intervals between edges
  `np.arange(40, 80, width)`. The counts are the differences of the
  `np.searchsorted` insertion indices of the edges, divided by `width`. The
  bin centres are midpoints.
- `dead_time.py`, `plot_delta_t` and the module-level loop: the stamps of all
  detectors are appended one detector after another, successive differences
  are taken with `np.diff`, and the differences are histogrammed with
  `np.histogram` over the edges `0, 2, ..., 260`.

Time is an exact `real` throughout. The numpy operations the scripts call are
modelled from their documented behaviour (module `Numpy`, file `numpy.dfy`):

- `np.arange` is the exact progression with numpy's element count.
- `np.searchsorted` is a binary search. On sorted input it is proved to return
  the number of elements that precede the value.
- `np.histogram` with an explicit edge array follows numpy's cumulative
  path. That path takes the 'left' insertion index of every edge but the last,
  and the 'right' index of the last edge, then differences them.

Files: `wrappers.dfy` (Option, Result), `numpy.dfy`, `count_rates.dfy`
(module `CompareCountRates`), `dead_time.dfy` (module `DeadTime`).

Behaviour at the edges:

- Edges are strictly below 80, because `np.arange` excludes its stop. The
  stamps in `[e[last], 80)` are therefore not counted. That stretch is longer
  than 0 and at most one width (`LastEdgeGap`, `StampBin`,
  `CountRateTotal`).
- Insertion indices count the stamps strictly below an edge (`side='left'`),
  not the stamps at or below it.
- A zero width fails, because numpy refuses a zero step. A negative width is
  not an error: it gives an empty curve (`TimeStepsNegativeWidth`).
- The window is fixed at 40 s to 80 s.

## Model

| member | source | states |
|---|---|---|
| `Numpy.ArangeLength` | compare_count_rates.py:64 | numpy's element count: 0 exactly when `(stop-start)/step <= 0`, otherwise the least n with `(stop-start)/step <= n` |
| `Numpy.Arange` | compare_count_rates.py:64 | every element is `start + k*step`, and `start + k*step` is present exactly when it lies before `stop` (nothing beyond it, nothing short of it omitted) |
| `Numpy.ArangeLengthExact` | compare_count_rates.py:64 | numpy's count `ceil((stop-start)/step)` admits index k exactly when the k-th progression value is before `stop`, for either sign of the step |
| `Numpy.ArangeIncreasing` | compare_count_rates.py:64 | with a positive step the edges increase strictly, each by exactly `step` |
| `Numpy.ArangeBinOf` | compare_count_rates.py:64-68 | a value from the first edge up to the last lies between edges `floor((t-start)/step)` and the next one |
| `Numpy.Diff` | dead_time.py:30-31 | `np.diff` has length n-1 (0 when n is 0 or 1), and element i is `t[i+1] - t[i]` |
| `Numpy.IntDiff` | compare_count_rates.py:68 | `np.diff` of the insertion indices: length n-1, element i is `a[i+1] - a[i]` |
| `Numpy.SumIntDiff` | compare_count_rates.py:68 | the differences sum, by telescoping, to last minus first |
| `Numpy.DiffOfSortedNonNegative` | dead_time.py:30-31 | the deltas of sorted stamps are all >= 0 |
| `Numpy.BinCentres` | compare_count_rates.py:71 | one centre per pair of neighbouring edges, each the midpoint of its pair and strictly inside it when the pair increases |
| `Numpy.CountBefore` | compare_count_rates.py:67 | the number of elements preceding a value is at most the array length |
| `Numpy.CountWithin` | compare_count_rates.py:67-68 | the number of elements in a bin is at most the array length |
| `Numpy.CountBeforeSplit` | compare_count_rates.py:67-68 | the count below `hi` is the count below `lo` plus the count in the bin from `lo` to `hi` |
| `Numpy.CountBeforeMonotone` | compare_count_rates.py:67-68 | insertion counts do not decrease as the edge grows, so no bin count is negative |
| `Numpy.CountBeforeAtPartition` | compare_count_rates.py:67 | if exactly the first k elements precede a value, the count is k |
| `Numpy.SearchSorted` | compare_count_rates.py:67 | binary search on a sorted array: every element before the index precedes the value, none after does, and the index is the number of preceding elements |
| `Numpy.SearchSortedAll` | compare_count_rates.py:67 | on a sorted array, one insertion index per edge, each between 0 and the array length |
| `Numpy.BinCountsFromSearch` | compare_count_rates.py:67-68 | for a sorted array and sorted edges, index difference i is the number of stamps in `[e[i], e[i+1])`, and the differences sum to the number in `[e[0], e[last])` |
| `Numpy.Histogram` | dead_time.py:37-38 | np.histogram on explicit edges: one count per bin, bin i counting the values in `[e[i], e[i+1])`, the last bin closed on the right |
| `Numpy.BinSide` | dead_time.py:37-38 | the 'right' insertion index is used exactly for the last edge |
| `Numpy.InBin` | dead_time.py:37-38 | a value in bin i lies between its two edges, and it equals the right edge only in the last bin |
| `Numpy.HistogramTotal` | dead_time.py:37-38 | the histogram total is the number of values in `[e[0], e[last]]`, at most the number of values |
| `Numpy.BinsDisjoint` | dead_time.py:37-38 | with non-decreasing edges no value lies in two bins |
| `Numpy.Flatten` | dead_time.py:53-58 | the concatenation's length is the sum of the part lengths |
| `Numpy.TotalLength` | dead_time.py:53-58 | the sum of the part lengths is at least the length of every part |
| `Numpy.FlattenIndex` | dead_time.py:55-58 | element j of part p sits right after all elements of the earlier parts |
| `CompareCountRates.ImportTofu` | compare_count_rates.py:33-36 | same length as the stamps, each stamp reduced by the offset, or by 0 when the lookup failed |
| `CompareCountRates.ImportTofuWithoutOffset` | compare_count_rates.py:33-34 | a failed offset lookup leaves the stamps unchanged |
| `CompareCountRates.ImportTofuSorted` | compare_count_rates.py:36 | subtracting the offset keeps sorted stamps sorted |
| `CompareCountRates.ImportTofuShiftsBins` | compare_count_rates.py:36 | a bin of the shifted stamps holds what the bin moved by the offset held before |
| `CompareCountRates.ToSeconds` | compare_count_rates.py:67 | `time_stamps*1E-9`: same length, each stamp scaled to seconds |
| `CompareCountRates.ToSecondsSorted` | compare_count_rates.py:67 | scaling keeps sorted stamps sorted, so they can be searched |
| `CompareCountRates.ToSecondsBins` | compare_count_rates.py:67 | a bin in seconds holds the stamps of the same bin in nanoseconds |
| `CompareCountRates.TimeSteps` | compare_count_rates.py:64 | the edges are ascending, and there is at least one exactly when the width is positive |
| `CompareCountRates.TimeStepsWindow` | compare_count_rates.py:64 | edges start at 40, increase by exactly `width`, stay below 80, and every `40 + k*width` below 80 is an edge |
| `CompareCountRates.LastEdgeGap` | compare_count_rates.py:64 | the last edge lies below 80 by more than 0 and at most one width, so the uncounted stretch `[e[last], 80)` is never empty and never longer than a bin |
| `CompareCountRates.TimeStepsNegativeWidth` | compare_count_rates.py:64 | a negative width gives no edges |
| `CompareCountRates.BinCounts` | compare_count_rates.py:67-68 | for sorted stamps, one count per pair of neighbouring edges, count i being the number of stamps, in seconds, in `[e[i], e[i+1])` |
| `CompareCountRates.CountRate` | compare_count_rates.py:58-73 | fails exactly for a zero width; otherwise centres and rates both have length `len(edges) - 1`, rate i is the number of stamps in `[e[i], e[i+1])` divided by the width, and centre i is the midpoint of its bin |
| `CompareCountRates.CountRateWellFormed` | compare_count_rates.py:68-71 | for a positive width every rate is >= 0 and every centre lies strictly inside its bin |
| `CompareCountRates.CountRateTotal` | compare_count_rates.py:67-68 | the bin counts sum to the number of stamps in `[40, e[last])` |
| `CompareCountRates.StampBin` | compare_count_rates.py:64-68 | a stamp before 40 or at/after the last edge is in no bin; one in between is in exactly bin `floor((t-40)/width)` |
| `CompareCountRates.CountRateNoStamps` | compare_count_rates.py:58-73 | without stamps every rate is 0 |
| `CompareCountRates.CountRateCentresIndependent` | compare_count_rates.py:71 | the centres depend on the width only, not on the stamps |
| `CompareCountRates.CountRateTenSecondBins` | compare_count_rates.py:58-73 | with 10 s bins the edges are 40, 50, 60, 70; stamps at 45, 52, 55, 79 s give rates 0.1, 0.2, 0 and centres 45, 55, 65 (the 79 s stamp is dropped) |
| `DeadTime.BinEdges` | dead_time.py:34-35 | the histogram edges are strictly increasing |
| `DeadTime.BinEdgesValues` | dead_time.py:34-35 | there are 131 edges, edge k being `2k`: 0, 2, ..., 260 |
| `DeadTime.HistogramOnBinEdges` | dead_time.py:37-38 | over these edges, bin i counts the values in `[2i, 2i+2)`, the last bin `[258, 260]` closed |
| `DeadTime.PlotDeltaT` | dead_time.py:25-38 | 130 centres 1, 3, ..., 259; bin i of each histogram counts the deltas of that detector system in `[2i, 2i+2)`, the last bin closed |
| `DeadTime.DeltaLandsInOneBin` | dead_time.py:37-38 | a delta is in bin i exactly when `DeltaBin(d)` is `Some(i)`: `floor(d/2)` for `0 <= d < 260`, the last bin for d = 260; `DeltaBin(d)` is `None`, and the delta in no bin, exactly when it is below 0 or above 260 |
| `DeadTime.DeltaHistogramTotal` | dead_time.py:37-38 | each histogram's total is the number of deltas in `[0, 260]`, at most one fewer than the number of stamps |
| `DeadTime.DiffOfAppend` | dead_time.py:30-31 | appending one detector's stamps after another's adds one delta between them: the first stamp of the second minus the last of the first |
| `DeadTime.CollectStamps` | dead_time.py:53-58 | the loop's arrays are the in-order concatenations of the per-detector arrays, with the sum of their lengths |

## Left out

- Data retrieval (`dfs.get_times`, `dfs.get_board_name`, `dfs.get_offset`, `udfs.get_tofor_times`, `ppf.ppfget`, `dfs.get_dictionaries`, hence `import_tofor`, `import_kn1`, `get_data`): these are foreign calls. Their results are parameters. The offset lookup's failure is the `None` of `ImportTofu`'s offset.
- All plotting, styling, legends, titles and the printed ratio in `plot_count_rate` and `plot_delta_t`: output only.
- `normalize` (`np.trapz`) and the masked trapezoidal normalisation constants in `plot_count_rate`: floating-point integration with no counting logic.
- `main` and the hard-coded shot and detector choices: driver code that only selects inputs.
- Floating-point rounding: `np.arange` with a float step, the `1E-9` scaling and `counts/width` are exact here. A float step can give numpy a different edge count than the exact one.
- CountRate: requires sorted stamps, as `np.searchsorted` does. What numpy returns for unsorted stamps is not modelled.
- Numpy.SearchSortedAll: requires a sorted array, the documented precondition of `np.searchsorted`; numpy's binary search on unsorted input is not modelled.
- Numpy.BinCountsFromSearch: requires a sorted array and non-decreasing edges, for the same reason.
- CompareCountRates.BinCounts: requires sorted stamps, for the same reason; so does `CompareCountRates.CountRateTotal`.
- Numpy.Histogram: requires ascending edges. numpy raises ValueError for other edges, and the fixed edges of `plot_delta_t` never trigger it.
- Numpy.Arange: requires a non-zero step. numpy raises for a zero step; `CountRate` models that failure as `Failure(ZeroWidth)`.
- Numpy.Histogram: the data is not sorted as numpy does before searching. Counts do not depend on order, so the model counts the unsorted values directly. Non-finite values (NaN) are not modelled.
