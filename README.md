# Mirror measurement planning: quad variance tree and Monte Carlo estimator

This project models the measurement-planning core of a mirror-surface analysis tool.

The **quad variance tree** (QVT, `qvt.py`) partitions the grid of surface heights into rectangular regions. The root is the bounding box of the grid. It carries the global height range and the global variance.

Each generation visits every region of the current list. For each region it:
- bisects the box at its midpoints;
- measures the height variance inside each quadrant's half-open mask;
- replaces the region by its four quadrants when the region's own variance divided by the mean quadrant variance is below one, and carries the region over unchanged otherwise.

The **Monte Carlo estimator** (`mc.py`):
- orders the terminal regions by descending variance with a stable sort;
- draws measurement points, giving each region `int(N * variance / last variance)` points;
- scores a draw by its RMS error against the surface model;
- finds the first run whose error is below an accuracy threshold;
- runs two drivers: a fixed-budget one and a budget sweep that averages the errors budget by budget.

Modelling choices:
- Numbers are exact reals. A numpy statistic that can be NaN is a `Measure` (`Value(v)` or `NaN`). Every comparison with NaN is false, as with floats.
- The 2-D `X`, `Y`, `Z` arrays are a flat list of grid nodes `Sample(x, y, z)`. Minima, maxima, variances and masks do not depend on the order; `Z[mask]` keeps grid order.
- A region record `(xrange, yrange, zrange, variance)` is the datatype `Region`.
- Every region the tree produces carries a number as its variance:
  - the root's variance comes from a non-empty grid;
  - a region is split only when all four quadrant masks are non-empty (`SplitRule`).
- The surface model and the square root are function parameters. The random draws are nondeterministic choices. An operation that raises returns `Failure` of a `Result`.
- The QVT loops are modelled as methods, each proved equal to a specification function:
  - `NextGeneration` equals `Generation`;
  - `BuildQvt` equals `Refine`.

  The properties of the tree are then proved about those functions.

Where the code and its comments disagree, the model follows the code:
- **Divisor of the point counts.** The code (`mc.py:24`) divides each count by the variance of the list's last element, `subregions[-1][3]`, which for a prioritized (descending) list is the smallest variance. The comment at `mc.py:16` says the loop starts "with the highest-variance subregions", so the last element was evidently taken to be the most variable one. `DescendingAllocation` shows the consequence: every region receives at least `N` points, so a draw holds at least `N` points per region rather than `N` in all.
- **Visiting order.** The code visits the regions from the back of the list, so the least variable region comes first, although its comment says the most variable ones come first.
- **Re-testing.** The code re-tests regions that were already carried over, in every later generation. The test depends only on the grid and the region, so a region carried over once stays for good (`FrozenPersists`).

## Model

| member | source | states |
|---|---|---|
| Numerics.Variance | qvt.py:9 | `np.var` is NaN exactly when there is no data, and otherwise a non-negative number |
| Numerics.ConstantVariance | qvt.py:36 | heights that are all equal have variance exactly zero |
| Numerics.AverageDefined | qvt.py:40 | the mean of the quadrant variances is a number exactly when the list is non-empty and holds no NaN |
| Numerics.AverageNonNegative | qvt.py:40 | the mean of non-negative variances is non-negative |
| Numerics.MinOf | qvt.py:12 | `np.min` is an element of the data and no element is smaller |
| Numerics.MaxOf | qvt.py:12 | `np.max` is an element of the data and no element is larger |
| Qvt.Children | qvt.py:47-53 | the four records that replace a split region carry the quadrant boxes in order, the global height range, and each quadrant mask's variance |
| QvtProperties.RootRegion | qvt.py:9-12 | the root's ranges are attained by grid nodes and contain every node; its height range is the global one; its variance is `np.var(Z)` |
| QvtProperties.QuadrantsInside | qvt.py:22-29 | the four quadrants are well-formed boxes inside the parent: lower-left, lower-right, upper-left, upper-right, split at the midpoints |
| QvtProperties.QuadrantsTile | qvt.py:34 | a point is in a quadrant's half-open mask iff it is in the parent's mask and that quadrant is the one its position selects, so the quadrant masks partition the parent's mask |
| QvtProperties.QuadrantsCoverClosed | qvt.py:22-29 | the closed quadrants cover exactly the closed parent box |
| QvtProperties.MaskedHeightsNonEmpty | qvt.py:34-35 | `Z[mask]` is non-empty iff some grid node lies in the mask |
| QvtProperties.RatioTest | qvt.py:43-46 | `parent / avg < 1` on floats holds iff the mean is a number and the parent's variance is below it; NaN and 0 / 0 never split |
| QvtProperties.SplitRule | qvt.py:31-46 | the mean quadrant variance is a number iff all four masks hold a node, and a region splits iff its variance is below that mean |
| QvtProperties.GenerationAppend | qvt.py:20-57 | a generation treats regions independently: the generation of a concatenation is the concatenation of the generations |
| QvtProperties.GenerationAt | qvt.py:20-57 | each region's contribution appears in place, between those of the regions before and after it |
| QvtProperties.GenerationLength | qvt.py:46-57 | each split adds three regions: the new list has `|rs| + 3 * splits` regions, with at most one split per region |
| QvtProperties.RefineLength | qvt.py:15-60 | after `n` generations the list is at least as long as before and at most `4^n` times as long |
| QvtProperties.BuildLength | qvt.py:12-60 | the tree from the root has between 1 and `4^n` regions after `n` generations |
| QvtProperties.FrozenCarried | qvt.py:56-57 | a region that does not split is carried into the next generation |
| QvtProperties.FrozenPersists | qvt.py:15-60 | a region that does not split stays in the list through every later generation |
| QvtProperties.GenerationWithin | qvt.py:47-53 | a generation keeps every region a well-formed box inside the root box |
| QvtProperties.RefineWithin | qvt.py:12-60 | every region of the tree is a well-formed box inside the root's box |
| QvtProperties.StepCover | qvt.py:22-57 | a region's contribution covers each point of its half-open mask exactly once and nothing else |
| QvtProperties.GenerationCover | qvt.py:20-57 | a generation preserves how many regions cover each point |
| QvtProperties.Partition | qvt.py:12-60 | after any number of generations, every point of the root's half-open mask lies in exactly one region, and no other point lies in any |
| QvtProperties.MaxEdgeExcluded | qvt.py:34 | grid nodes on the grid's largest x or y never enter any quadrant mask |
| QvtProperties.FlatNeverSplits | qvt.py:40-46 | on a flat surface no region splits (the ratio is 0 / 0 or NaN) |
| QvtProperties.FlatSurface | qvt.py:7-63 | on a flat surface the tree is the root region alone, for every level count |
| QvtBuilder.MeasureQuadrants | qvt.py:32-37 | the loop over the quadrant masks yields the four quadrant variances |
| QvtBuilder.AppendStep | qvt.py:21-57 | processing one region appends exactly its contribution: the four children or the region itself |
| QvtBuilder.NextGeneration | qvt.py:17-60 | the loop over the regions builds the next generation |
| QvtBuilder.BuildGuarantees | qvt.py:7-63 | the tree after `n` generations has 1 to `4^n` regions, all inside the root box, partitioning the root's half-open mask |
| QvtBuilder.BuildQvt | qvt.py:9-63 | the generation loop returns the `maxLevel`-th refinement of the root, with the size bound, containment and partition |
| QvtBuilder.QuadVarianceTree | qvt.py:7-63 | `QVT` raises exactly on an empty grid; a level count of zero or below returns the root alone |
| Prioritize.SortPermutes | mc.py:41 | the sort returns a permutation of the regions |
| Prioritize.SortDescending | mc.py:41 | the sorted list has non-increasing variance |
| Prioritize.SortStable | mc.py:41 | the sort is stable: regions of equal variance keep their input order |
| Prioritize.PrioritizeSubregions | mc.py:39-50 | the copied list is the stable descending sort, a permutation of the input with non-increasing variance |
| Sampling.Reverse | mc.py:17 | `s[::-1]` has element `|s| - 1 - i` at position `i` |
| Sampling.PointCount | mc.py:24 | `int(N * v / vlast)` is the largest integer not above the ratio |
| Sampling.PointCountOfDivisor | mc.py:24 | the region whose variance is the divisor gets exactly `N` points |
| Sampling.PointCountAtLeast | mc.py:24 | a region at least as variable as the divisor gets at least `N` points |
| Sampling.DrawUniform | mc.py:27-32 | a block of exactly the requested number of points, each within the region's x, y and z ranges |
| Sampling.SelectMeasurementPoints | mc.py:12-35 | raises exactly when the last variance is zero; otherwise returns the reversed list and points that are, region by region in that order, blocks of each region's count drawn inside it |
| Sampling.FitsLength | mc.py:17-33 | the number of points drawn is the sum of the regions' counts |
| Sampling.FitsInside | mc.py:26-33 | every point drawn lies in one of the visited regions |
| Sampling.AllocatedSize | mc.py:12-35 | a draw from a non-empty list holds the summed counts, at least `N` points, each inside some region |
| Sampling.DescendingAllocation | mc.py:17-24 | for a prioritized list the last region gets `N` points, every region at least `N`, and the draw at least `N` per region |
| MonteCarlo.SquaredResiduals | mc.py:56-59 | the summed squared residuals are non-negative |
| MonteCarlo.MeanSquareError | mc.py:59 | the mean square error is NaN exactly for no points, and otherwise non-negative |
| MonteCarlo.SquaredResidualsZero | mc.py:59 | the squared residuals sum to zero iff the model reproduces every measured height |
| MonteCarlo.MeanSquareErrorZero | mc.py:54-61 | the mean square error of a non-empty set is zero iff every measured height matches the model |
| MonteCarlo.RmsError | mc.py:54-61 | `calculate_RMS_error` is NaN exactly for an empty point set |
| MonteCarlo.RmsErrorMeaning | mc.py:59 | with a true square root, the RMS error is non-negative, squares to the mean square error, and is zero iff every height matches the model |
| MonteCarlo.AllocatedErrorDefined | mc.py:96-99 | a positive budget on a non-empty region list always gives a numeric error |
| MonteCarlo.FirstBelowUnique | mc.py:65-77 | at most one answer satisfies the threshold search's specification |
| MonteCarlo.AnalyzeMonteCarloResults | mc.py:65-77 | returns the 1-based position of the first error strictly below the threshold, or -1 when none is (NaN never is) |
| MonteCarlo.GetMask | mc.py:80-86 | `get_mask` marks exactly the nodes inside the region's closed x and y ranges |
| MonteCarlo.GetMaskVersusVarianceMask | mc.py:80-86 | `get_mask` selects the nodes of the variance mask plus exactly those on the region's upper x or y edge |
| MonteCarlo.FixedBudgetSimulation | mc.py:89-151 | raises exactly with no run or a zero last variance; otherwise one error per run, each the RMS error of a full-budget draw, and the first run below the accuracy threshold |
| MonteCarlo.TakeTake | mc.py:161-169 | `P[:m][:k]` is `P[:k]` for `k <= m` |
| MonteCarlo.DividesByZeroWitness | mc.py:161-169 | a budget that raises exposes a zero variance among the first `max_num_measurements` regions |
| MonteCarlo.ZeroAmongFirstDivides | mc.py:161-169 | a zero variance among the first `max_num_measurements` regions makes some budget raise |
| MonteCarlo.SweepPoint | mc.py:169-172 | budget `k` raises exactly when the first `k` regions end in a zero variance; otherwise it draws from them with budget `k` and records the RMS error |
| MonteCarlo.SweepRun | mc.py:161-175 | a run raises exactly on a zero variance among the first `max_num_measurements` regions; otherwise it records one error per budget from 0 to the maximum |
| MonteCarlo.ColumnMeanMeaning | mc.py:185 | `np.mean(axis=0)` gives a number for budget `k` exactly when there is at least one run and every run's budget-`k` error is a number (NaN propagates); the mean of non-negative errors is non-negative |
| MonteCarlo.ColumnIsErrors | mc.py:156-185 | column `k` of the error table holds the errors of budget `k` of every run |
| MonteCarlo.BudgetSweepSimulation | mc.py:154-200 | raises exactly with no run or a zero variance among the first `max_num_measurements` regions; otherwise a curve of `max + 1` means whose entry `k` averages the errors of budget-`k` draws from the first `k` regions, starting with NaN for budget 0 |

## Left out

- Plotting, progress messages and printed counts (`mc.py:104-106`, `mc.py:111-148`, `mc.py:181-182`, `mc.py:187-197`) are not modelled; only their effect of reading the last run's points is kept, as the failure for zero runs.
- `mirror.py` (the surface model) and `main.py` (the script that wires the pieces together) are not part of this model. The surface is a function parameter.
- Floating point is not modelled: numbers are exact reals, with no rounding, no overflow to infinity and no loss in `int()`. NaN is modelled only where a statistic of no data produces it.
- Randomness: a draw is any point within the closed ranges between each pair of bounds. The model states neither the uniform distribution nor the half-open upper bound of `np.random.uniform`.
- The square root is a function parameter. `RmsErrorMeaning` assumes it is a true square root; the square root of NaN is NaN.
- Sampling.SelectMeasurementPoints: requires non-negative variances, as QVT produces. A caller passing a negative variance would get a negative count and a numpy error, which is not modelled.
- MonteCarlo.FixedBudgetSimulation: the budget and the run count are natural numbers. A negative budget (a numpy error) and a negative run count (no runs) are not modelled. The grid arguments, which only the plot uses, are dropped.
- MonteCarlo.BudgetSweepSimulation: with zero runs numpy's mean is a single NaN, which the plot accepts only when the largest budget is 0; the model reports a failure for zero runs whatever the budget. The grid arguments and the unused `desired_accuracy` argument are dropped.
- The 2-D grid arrays are a flat list of nodes, and the object arrays of region records are lists of `Region` values.
