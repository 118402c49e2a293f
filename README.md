# Resampling confidence scores (PaGE / PADE), modelled in Dafny

This project models the arithmetic core of the PaGE/PADE differential-expression
tools. Each feature (gene) gets a statistic. The statistics are binned. Observed
"at or above" counts per bin are compared with mean counts from label
permutations, and the null count is corrected by a fixed five-step recurrence.
The result is a confidence score per bin. The score is repaired to be
non-decreasing and read back per feature. It is summarised per confidence
level and reported as up, down or none.

The project covers both generations of the code:

- the older `python/page` package (up/down directions per condition);
- the newer `pade` package (layouts, orderings, the web views' arithmetic and
  the command-line option checks).

Floating-point values are Dafny `real`s. Where the code can produce NaN or
infinity, the model either returns an error value (`None`, `Err`,
`ok == false`) or excludes the case with a `requires` that is listed under
"## Left out". The only exception is the `+inf` sentinel bin edge, which is
the `PosInf` case of `PageBins.Edge`. Python's `int()` is `PageScores.Trunc`,
truncation toward zero. numpy arrays that the code fills in place are Dafny
arrays filled by methods with loops. Expression-like code is functions.

Modules, following the source files:

| module | file | models |
|---|---|---|
| `Sequences`, `Wrappers` | sequences.dfy, wrappers.dfy | sums, counts, joins, `Option`/`Result` |
| `BiasCorrection` | bias_correction.dfy | the `adjust_num_diff` recurrence and `fill_bin` |
| `PageBins` | page_bins.dfy | `get_bins`, numpy's histogram on monotone edges, `assign_bins`, `accumulate_bins`, `bisect_right` |
| `PageScores` | page_scores.dfy | `adjust_num_diff`, `ensure_increases`, `make_confidence_bins`, `get_gene_confidences`, `get_count_by_conf_level`, `breakdown_tables` |
| `PagePerms` | page_perms.dfy | `all_subsets`, `init_perms`, `get_permuted_means` |
| `PageStat` | page_stat.dfy | `apply_layout`, `mean_and_rss`, `Ftest.__call__` of python/page/stat.py |
| `PageReport` | page_report.dfy | `ensure_decreases` and the determination loop of the report |
| `Layout` | layout.dfy | an assumed `intersect_layouts` and `layout_is_paired` |
| `PadeCommon` | pade_common.dfy | `adjust_num_diff` on vectors, `assignment_name`, `double_sum` |
| `FStat`, `PadeStat` | f_stat.dfy, pade_stat.dfy | the F ratio; `group_means`, `residuals`, `rss`, `Ftest`, `MeansRatio`, `OneSampleDifferenceTTest` |
| `PadeTasks` | pade_tasks.dfy | `compute_orderings` (via `np.lexsort`) and `compute_conf_scores` |
| `PadeServer` | pade_server.dfy | the bin lookup and scores of `feature()`, the filter and paging of `details()` |
| `PadeMain` | pade_main.dfy | `quote_and_join`, `validate_settings`, `args_to_settings` |

Where the code disagrees with its docstrings or with what one might expect of
it, the model follows the code:

- `adjust_num_diff(10, 20, 100)` gives 9, 8.9, 8.89, 8.889, 8.8889, which is
  below V0. Nothing brackets the result between V0 and R
  (`BiasCorrection.WorkedExample`, `BiasCorrection.AdjustedAtMostNull`).
- The score formula is guarded against a zero observed count only in
  `fill_bin`. The web view's `new_scores` has no guard, so a zero count gives
  no score there (`PadeServer.NewScoreMatchesFillBin`).
- `double_sum`'s docstring says it sums the first two axes. The code sums the
  last two (`PadeCommon.DoubleSum`).
- `ensure_increases`'s docstring promises a copy. The code mutates its argument
  and returns nothing (`PageScores.EnsureIncreases`).

## Model

| member | source | states |
|---|---|---|
| BiasCorrection.Iterate | python/page/core.py:463-466 | defines V[k] of V[0] = V0, V[k] = V0 - V0/num_ids * (R - V[k-1]), the loop of both `adjust_num_diff`s; its properties are the lemmas below |
| BiasCorrection.Adjusted | pade/common.py:91-96 | defines the corrected null count as the fifth iterate, the value both `adjust_num_diff`s return |
| BiasCorrection.ZeroNullStaysZero | pade/common.py:95 | with V0 = 0 every iterate of the recurrence is 0 |
| BiasCorrection.EqualCountsFixed | pade/common.py:95 | with R = V0 every iterate equals V0 |
| BiasCorrection.AdjustedAtMostNull | pade/common.py:93-96 | for 0 <= V0 <= R and num_ids > 0 the fifth iterate is at most V0 (it is not bracketed by V0 and R) |
| BiasCorrection.IterateAtMostNull | pade/common.py:94-95 | under the same conditions every iterate stays at or below V0 |
| BiasCorrection.WorkedExample | pade/common.py:93-96 | the iterates for (10, 20, 100) are exactly 9, 8.9, 8.89, 8.889, 8.8889 |
| BiasCorrection.FillBin | python/page/core.py:381-385 | defines `fill_bin`: (unperm - adjusted null count) / unperm for a positive observed count, else 0; a feature count is needed only on the first path |
| BiasCorrection.FillBinNoObservations | python/page/core.py:381-385 | a bin with no observed count (unperm <= 0) scores 0, for any feature count including 0 |
| BiasCorrection.FillBinNoNull | python/page/core.py:381-385 | a positive observed count with a zero null count scores 1 |
| BiasCorrection.FillBinNonNegative | python/page/core.py:381-385 | a null count between 0 and the observed count never gives a negative score |
| PageScores.AdjustNumDiff | python/page/core.py:462-467 | the six-slot loop returns exactly the fifth iterate of V[i] = V[0] - V[0]/num_ids*(R - V[i-1]) |
| PageBins.GetBins | python/page/core.py:507-516 | n + 1 edges |
| PageBins.GetBinsShape | python/page/core.py:507-516 | n finite edges from 0 to maxval, then +inf |
| PageBins.GetBinsEvenlySpaced | python/page/core.py:511 | consecutive finite edges are maxval/(n-1) apart |
| PageBins.GetBinsMonotone | python/page/core.py:474-478 | the edges pass numpy's monotonicity test iff maxval >= 0 or at most one finite edge |
| PageBins.BisectRight | pade/server.py:114 | `bisect_right` never exceeds the number of edges |
| PageBins.BisectRightSplits | pade/server.py:114 | on monotone edges every edge before the insertion point is <= v and every edge from it on is > v |
| PageBins.Histogram | python/page/core.py:477-478 | a histogram has one count fewer than it has edges |
| PageBins.HistogramNonNegative | python/page/core.py:477-478 | every count is non-negative |
| PageBins.BinOfInBin | python/page/core.py:477-478 | on monotone edges the bin chosen for v is k iff edges[k] <= v < edges[k+1] |
| PageBins.HistogramBinCount | python/page/core.py:477-478 | on monotone edges count k is the number of values v with edges[k] <= v < edges[k+1] |
| PageBins.HistogramTotal | python/page/core.py:477-478 | edges from 0 up to +inf catch exactly the non-negative values |
| PageBins.CountNegated | python/page/core.py:478-480 | negating the values turns "at least 0" into "at most 0" |
| PageBins.AssignBins | python/page/core.py:470-482 | defines `assign_bins`: the up histogram of the values on `get_bins(num_bins+1, maxval)` and the down histogram of the negated values on `get_bins(num_bins+1, -minval)`, with the negative (positive) values added to bin 0; no result where numpy rejects the edges |
| PageBins.AssignBinsDefined | python/page/core.py:470-482 | `assign_bins` succeeds iff both edge lists are monotone (num_bins = 0, or maxval >= 0 and minval <= 0) |
| PageBins.AssignBinsTotals | python/page/core.py:470-482 | both histograms have num_bins + 1 non-negative bins and, with the out-of-range signs folded into bin 0, each accounts for every value exactly once |
| PageBins.CumSum | python/page/core.py:234 | `np.cumsum` keeps the length |
| PageBins.CumSumAt | python/page/core.py:234 | entry i of the cumsum is the sum of the first i + 1 entries |
| PageBins.AccumulateBins | python/page/core.py:233-234 | `accumulate_bins` keeps the length |
| PageBins.AccumulateBinsAt | python/page/core.py:233-234 | entry i is the sum of bins[i..] |
| PageBins.AccumulateBinsProperties | python/page/core.py:233-234 | the first entry is the total, the last equals the last bin, and consecutive entries differ by one bin |
| PageBins.AccumulateBinsNonIncreasing | python/page/core.py:233-234 | non-negative bins give a non-negative, non-increasing result |
| PageScores.PrefixMax | python/page/core.py:392-393 | defines the running maximum that `ensure_increases` leaves behind; it keeps the length |
| PageScores.PrefixMaxAt | python/page/core.py:392-393 | entry i of the running maximum bounds s[0..i] and equals one of them |
| PageScores.PrefixMaxSnoc | python/page/core.py:392-393 | appending x appends max(last running maximum, x) |
| PageScores.PrefixMaxNonDecreasing | python/page/core.py:392-393 | the repaired sequence is non-decreasing |
| PageScores.PrefixMaxFixesSorted | python/page/core.py:392-393 | a non-decreasing sequence is left unchanged |
| PageScores.PrefixMaxIdempotent | python/page/report.py:14-15 | repairing twice equals repairing once, and the first entry is kept |
| PageScores.PrefixMaxLeast | python/page/core.py:392-393 | the repair is the least non-decreasing sequence lying above the input |
| PageScores.EnsureIncreases | python/page/core.py:388-393 | the array is overwritten in place by its running maximum (the same loop as python/page/report.py:10-15) |
| PageScores.FillRow | python/page/core.py:296-297 | each bin of a row is scored by `fill_bin` |
| PageScores.ScoreRow | python/page/core.py:295-297 | the first loop on one row fills a fresh array with the row's `fill_bin` scores |
| PageScores.MakeConfidenceBins | python/page/core.py:294-302 | every row is the running maximum of its `fill_bin` scores and is therefore non-decreasing |
| PageScores.CellConf | python/page/core.py:451-457 | defines one cell of a condition other than 0: the up score read at int(num_bins*stat/max) for stat >= 0, the down score at int(num_bins*stat/min) otherwise; no result where Python raises or numpy yields inf/nan |
| PageScores.GeneConfCell | python/page/core.py:444-457 | defines cell (j, c): zero for condition 0, `CellConf` with num_bins = width of the score table - 1 otherwise |
| PageScores.CellConfOneDirection | python/page/core.py:452-457 | a stat >= 0 sets only the up score, read at int(num_bins*stat/max); a negative stat sets only the down score, read at int(num_bins*stat/min) |
| PageScores.CellConfUpInRange | python/page/core.py:452-454 | for 0 <= stat <= max (max > 0) the up bin lies in [0, num_bins] and the score is read there without wrap-around |
| PageScores.CellConfDownInRange | python/page/core.py:455-457 | for min <= stat < 0 the down bin lies in [0, num_bins] and the score is read there |
| PageScores.GetGeneConfidences | python/page/core.py:437-459 | the tables have the statistics' shape; ok iff no cell raises; each cell holds its up/down score, condition 0 stays 0 |
| PageScores.Column | python/page/core.py:430 | column j of the (features x conditions) table |
| PageScores.GetCountByConfLevel | python/page/core.py:421-434 | counts[i, j, k] is the number of features whose score is strictly greater than level k |
| PageScores.WriteCounts | python/page/core.py:431-432 | fills one (i, j) row of counts, leaving the others unchanged |
| PageScores.CountAboveAntitone | python/page/core.py:432 | a higher level never counts more features, and no level counts more than all |
| PageScores.ArgMax | python/page/core.py:406-407 | `np.argmax`: the first index of a maximum |
| PageScores.TuningColumn | python/page/core.py:415-416 | the values of one (condition, level) cell across the tuning parameters |
| PageScores.BreakdownCellIsBest | python/page/core.py:406-416 | column 0 is the level; columns 1 and 2 are the maxima over the tuning parameters of the up and down counts, each attained by some parameter |
| PageScores.WriteBreakdownRow | python/page/core.py:413-416 | fills every level of condition c and leaves the other conditions unchanged |
| PageScores.BreakdownTables | python/page/core.py:396-418 | the (conditions x levels x 3) table is the breakdown cell everywhere; condition 0 stays 0 |
| PagePerms.Combinations | python/page/core.py:210 | defines `itertools.combinations(range(lo, n), k)` by its recursive order: combinations starting with lo first, then those from lo + 1 on |
| PagePerms.Prefixed | python/page/core.py:210 | the listed combinations with x put in front |
| PagePerms.CombinationsSound | python/page/core.py:210 | every enumerated entry is k strictly increasing indexes in range |
| PagePerms.CombinationsComplete | python/page/core.py:210 | every k-combination is enumerated |
| PagePerms.CombinationsMembership | python/page/core.py:210 | the enumeration lists exactly the k-combinations |
| PagePerms.CombinationsSorted | python/page/core.py:210 | the enumeration is strictly increasing in lexicographic order (`itertools.combinations` order, no repeats) |
| PagePerms.CombinationsCount | python/page/core.py:210-211 | there are C(n, k) combinations |
| PagePerms.Mask | python/page/core.py:213 | a row is True exactly at the members of its subset |
| PagePerms.MaskCount | python/page/core.py:201 | a row has one True entry per member, so k of them |
| PagePerms.SubsetMasks | python/page/core.py:209-215 | row i is the mask of the i-th combination |
| PagePerms.SubsetMasksShape | python/page/core.py:196-215 | C(n, k) rows of n entries with exactly k True entries each |
| PagePerms.CombinationsExample | python/page/core.py:203-206 | the 2-combinations of range(3) are [0,1], [0,2], [1,2] |
| PagePerms.SubsetMasksExample | python/page/core.py:203-206 | `all_subsets(3, 2)` is the documented 3 x 3 table |
| PagePerms.EightChooseFour | python/test_page.py:108-111 | `all_subsets(8, 4)` has 70 rows |
| PagePerms.AllSubsets | python/page/core.py:196-215 | the method fills a fresh (C(n,k) x n) array equal to the subset table |
| PagePerms.MarkRow | python/page/core.py:213 | sets row i to the subset's mask and leaves the other rows unchanged |
| PagePerms.InitPerms | python/page/core.py:218-230 | entry 0 is None; entry c is the table for n = len(cond0) + len(cond_c), k = min(len(cond0), len(cond_c)) |
| PagePerms.SelectPartition | python/page/core.py:269-270 | `xs[perm]` and `xs[~perm]` together hold every index exactly as often as xs, with sizes CountTrue(mask) and the rest |
| PagePerms.MasterIndexes | python/page/core.py:258-260 | the pooled index list has len(cond0) + len(cond_c) entries |
| PagePerms.PermutationSplit | python/page/core.py:258-270 | each permutation takes min(n0, nc) pooled columns as v1 and the rest as v2; together they are the columns of conditions 0 and c |
| PagePerms.MasksShape | python/page/core.py:252-253 | condition c has at least one permutation, each of the pooled size |
| PagePerms.PermStats | python/page/core.py:269-271 | one statistic per tuning parameter and feature |
| PagePerms.PermCountsShaped | python/page/core.py:273-286 | each permutation's accumulated counts start at the feature count, never rise and are non-negative |
| PagePerms.PermTotalsShaped | python/page/core.py:284-288 | the totals over q permutations have the same shape with total q * m |
| PagePerms.ScaledShaped | python/page/core.py:288-289 | their mean starts at m, never rises and stays within [0, m] |
| PagePerms.MeanPerm | python/page/core.py:288-289 | `np.mean(hist, axis=0)` of condition c has h + 1 entries per direction |
| PagePerms.MeanPermShape | python/page/core.py:288-289 | the mean permuted table starts at m, is non-increasing and stays in [0, m] |
| PagePerms.AddFeature | python/page/core.py:273-286 | ok iff the histogram of parameter i exists; then both running totals grow by its accumulated counts |
| PagePerms.AddPermutation | python/page/core.py:267-286 | ok iff every tuning parameter bins; then each parameter's totals grow by its counts |
| PagePerms.NotAllBinned | python/page/core.py:274-275 | one permutation that fails to bin makes the whole condition fail |
| PagePerms.TotalsGrow | python/page/core.py:267-286 | adding permutation p to the totals of the first p gives the totals of the first p + 1 |
| PagePerms.ConditionTotals | python/page/core.py:263-286 | ok iff every permutation bins; the totals are the summed accumulated counts over all masks |
| PagePerms.WriteRow | python/page/core.py:288-289 | writes one (parameter, condition) row and nothing else |
| PagePerms.WriteCondition | python/page/core.py:288-289 | column c of both tables holds the means; other columns are unchanged |
| PagePerms.FillCondition | python/page/core.py:250-289 | one pass of the condition loop: ok iff condition c bins; then column c holds its means; earlier columns and column 0 are kept |
| PagePerms.GetPermutedMeans | python/page/core.py:237-291 | (s x n x h+1) tables; condition 0 stays zero; ok iff every condition bins; every other column holds its mean permuted counts |
| PadeCommon.AdjustNumDiffAll | pade/common.py:91-96 | the result has V0's length and cell j is the fifth iterate for V0[j], R[j] alone |
| PadeCommon.IterateRow | pade/common.py:94-95 | row i of the work table holds the i-th iterate of every cell; other rows unchanged |
| PadeCommon.AdjustNumDiffAllFixedPoints | pade/common.py:95 | a zero cell stays zero and a cell with R = V0 stays V0 |
| PadeCommon.AssignmentName | pade/common.py:81-88 | defines `assignment_name`: "intercept" for an empty assignment, otherwise its "k=v" parts joined by ", " |
| PadeCommon.Parts | pade/common.py:86 | one "k=v" part per entry, in order |
| PadeCommon.AssignmentNameEmpty | pade/common.py:83-84 | the empty assignment is named "intercept" |
| PadeCommon.AssignmentNameSingle | pade/common.py:86-88 | a single entry is named "k=v" |
| PadeCommon.AssignmentNameAppend | pade/common.py:86-88 | another entry appends ", k=v" |
| PadeCommon.AssignmentNameNotIntercept | pade/common.py:81-88 | a non-empty assignment's name contains "=" and is never "intercept" |
| PadeCommon.DoubleSum | pade/common.py:15-17 | one sum per leading index |
| PadeCommon.DoubleSumFlattened | pade/common.py:15-17 | entry i sums data[i] over the last two axes, i.e. its flattened slice |
| PadeCommon.SliceSumNonNegative | pade/common.py:15-17 | non-negative entries give a non-negative sum |
| PadeStat.GroupMeansOf | pade/stat.py:56-62 | one mean per layout group |
| PadeStat.GroupMeans | pade/stat.py:56-62 | the filled array holds each group's mean, in layout order |
| PadeStat.Deviations | pade/stat.py:83-84 | each entry minus the group mean |
| PadeStat.GroupResiduals | pade/stat.py:78-85 | one residual list per group, as long as the group |
| PadeStat.Residuals | pade/stat.py:78-85 | the residuals are the groups' deviations concatenated in layout order |
| PadeStat.ResidualsSumToZero | pade/stat.py:82-84 | within every group the residuals sum to 0 |
| PadeStat.ResidualsLength | pade/stat.py:85 | one residual per layout entry |
| PadeStat.SumSquares | pade/stat.py:109-110 | a sum of squares is non-negative |
| PadeStat.Rss | pade/stat.py:107-110 | defines `rss(data, layout)` as the sum of the squared residuals |
| PadeStat.RssByGroups | pade/stat.py:107-110 | `rss` is non-negative and is the sum of the per-group sums of squares |
| PadeStat.TwoPairs | pade/stat.py:56-85 | on [[0,1],[2,3]] the means are the pair averages and the residuals are half-differences |
| PadeStat.GroupStatsExample | pade/stat.py:34-99 | the doctests: means [-2, 5], residuals [-0.5, 0.5, -1.5, 1.5], rss 5.0 |
| PadeStat.FtestCall | pade/stat.py:159-176 | defines `Ftest.__call__`: the F ratio of the block and full-model rss with p_full groups, p_red blocks and n samples in blocks |
| PadeStat.NewFtest | pade/stat.py:148-157 | the constructor raises iff the block x condition intersection is empty or has a group of fewer than two samples |
| PadeStat.FtestExample | pade/stat.py:135-142 | the documented rows give 3.6, 1.0 and 2.5 |
| PadeStat.FtestFormula | pade/stat.py:159-176 | on the documented design F uses p_full = 2, p_red = 1, n = 4 and the overall-mean and pair-mean residuals |
| PadeStat.OneBlock | pade/stat.py:78-85 | a single all-sample block's residuals are deviations from the overall mean |
| FStat.FRatio | pade/stat.py:171-176 | defined iff no denominator is zero; without alphas one value, with alphas one value per alpha |
| FStat.FRatioRow | pade/stat.py:174-176 | row k divides by denom + alphas[k]; an alpha of 0 reproduces the unshrunk value |
| FStat.FRatioShrinks | pade/stat.py:174-176 | a non-negative alpha never raises a non-negative F with a positive denominator |
| PadeStat.NewMeansRatio | pade/stat.py:225-238 | the constructor succeeds iff there are exactly two conditions |
| PadeStat.Symmetric | pade/stat.py:273-277 | defines the symmetric step max(ratio, 1/ratio), with no result for a zero ratio |
| PadeStat.SymmetricProperties | pade/stat.py:273-277 | for a positive ratio the symmetric value is >= 1, keeps ratios >= 1, and is the same for the inverse ratio |
| PadeStat.NewPairedTest | pade/stat.py:317-334 | raises `NotPaired` unless the blocks are pairs, then `NotTwoConditions` unless there are two conditions |
| PadeStat.Distinct | pade/stat.py:338-339 | `set(g)` lists every member of g exactly once and nothing else |
| PadeStat.InterMembers | pade/stat.py:344-346 | `s.intersection(cond)` holds exactly the samples of the block that are in the condition, each once |
| PadeStat.InterSingle | pade/stat.py:344-346 | a block with exactly one sample x of the condition intersects it in [x] |
| PadeStat.PairIndexes | pade/stat.py:338-346 | idxs_a/idxs_b are each block's members of condition 0/1, block after block |
| PadeStat.PairDifferences | pade/stat.py:348-351 | defined iff the lengths agree or one side broadcasts; equal lengths subtract entry by entry |
| PadeStat.PairSideSingles | pade/stat.py:344-346 | with one member of the condition per block, the side lists it block by block |
| PadeStat.PairedDifferences | pade/stat.py:338-351 | in a proper paired design the differences are, per block, the condition-0 member minus the condition-1 member |
| Layout.IntersectNonEmptyGroups | pade/stat.py:150 | the assumed intersection has no empty group |
| Layout.IntersectGroupsInside | pade/stat.py:150 | each intersection group lies inside one group of each layout |
| Layout.IntersectCovers | pade/stat.py:150 | a sample in a group of each layout lies in some intersection group |
| Layout.IntersectExample | pade/stat.py:126-131 | one all-sample block intersected with [[0,1],[2,3]] gives [[0,1],[2,3]] |
| PageStat.Slot | python/page/stat.py:53 | a group's row is its samples, or its single sample repeated |
| PageStat.Applied | python/page/stat.py:48-54 | defined iff the layout is applicable; row i is group i's slot |
| PageStat.ApplyLayout | python/page/stat.py:48-54 | the (groups x width) array has result[i, j] == data[layout[i][j]] |
| PageStat.WriteSlot | python/page/stat.py:53 | writes row i and leaves the others unchanged |
| PageStat.AppliedFlattens | python/page/stat.py:52-53 | for equal-width groups the table read row by row is the data gathered at the layout's indexes |
| PageStat.ApplyLayoutExamples | python/page/stat.py:28-46 | the three documented reshapings, including the reordered [[2,0],[3,1]] |
| PageStat.TwoGroups | python/page/stat.py:34-39 | two pairs give a 2 x 2 table of the indexed samples |
| PageStat.ApplyLayoutBroadcast | python/page/stat.py:53 | a group of one sample is broadcast across the width |
| PageStat.ApplyLayoutRejects | python/page/stat.py:17-20 | a group of any other wrong width raises |
| PageStat.Squares | python/page/stat.py:63 | each entry squared |
| PageStat.RowResiduals | python/page/stat.py:62-63 | per-row deviations from the row mean |
| PageStat.MeanAndRss | python/page/stat.py:56-64 | the means are one-entry rows of row means; the rss is non-negative |
| PageStat.SquaresSliceSum | python/page/stat.py:63 | `double_sum` of the squares is the sum of the per-row sums of squares |
| PageStat.MeanAndRssAgreesWithRss | python/page/stat.py:56-64 | on equal non-empty groups the older rss equals the newer `rss(data, layout)` |
| PageStat.FtestCall | python/page/stat.py:98-129 | a result needs both layouts applicable; without alphas one value, with alphas one per alpha |
| PageStat.FtestAgrees | python/page/stat.py:111-129 | the older F-test equals the F ratio of the newer rss with n = len(reduced) * len(reduced[0]) |
| PageStat.FtestExample | python/page/stat.py:84-91 | the documented rows give 3.6, 1.0 and 2.5 |
| PageStat.FtestExampleRow | python/page/stat.py:111-129 | on the documented layouts both generations give the same value for every row |
| PadeTasks.InsertPerm | pade/tasks.py:37-38 | insertion adds the new index and loses nothing |
| PadeTasks.LexsortPrefixPerm | pade/tasks.py:37-38 | the first n positions are a permutation of 0..n-1 |
| PadeTasks.Lexsort | pade/tasks.py:37-38 | `np.lexsort` returns a permutation of 0..n-1 |
| PadeTasks.LexsortPrefixRanked | pade/tasks.py:37-38 | the insertion keeps the order of the two keys |
| PadeTasks.LexsortSpec | pade/tasks.py:30-38 | a permutation of 0..n-1 with non-increasing scores and equal scores in ascending original index |
| PadeTasks.RankedUnique | pade/tasks.py:37-38 | two arrangements ranked this way are equal |
| PadeTasks.LexsortUnique | pade/tasks.py:37-38 | any permutation ranked this way is the lexsort |
| PadeTasks.Row | pade/tasks.py:37-38 | row i of a table |
| PadeTasks.Column | pade/tasks.py:47 | column j of a table |
| PadeTasks.OrderRows | pade/tasks.py:35-38 | row i < number of tuning parameters is the lexsort of score row i; other rows stay 0 |
| PadeTasks.OrderColumns | pade/tasks.py:43-49 | column i < header length is the lexsort of fold-change column i; other columns stay 0 |
| PadeTasks.WriteRow | pade/tasks.py:37 | row i is the order; other rows unchanged |
| PadeTasks.WriteColumn | pade/tasks.py:49 | column j is the order; other columns unchanged |
| PadeTasks.ComputeOrderings | pade/tasks.py:28-52 | both orderings have their inputs' shapes, and each row/column is the lexsort of its scores or fold changes |
| PadeTasks.ComputeConfScores | pade/tasks.py:76-89 | the score step receives the length of raw_stats' last axis as the feature count |
| PageReport.EnsureDecreases | python/page/report.py:17-19 | the array is unchanged |
| PageReport.Determination | python/page/report.py:202-210 | 1 iff up >= up cutoff; 2 iff not up and down <= -down cutoff; 0 otherwise |
| PageReport.ClassifyCell | python/page/report.py:202-210 | one (level, class, feature) cell gets its class, statistic and confidence; nothing else changes |
| PageReport.DetermineFeature | python/page/report.py:200-210 | every class from 1 on of one feature at one level; class 0 and the rest unchanged |
| PageReport.DetermineLevel | python/page/report.py:199-212 | every feature of one level, with `any_regulated`; other levels unchanged |
| PageReport.DetermineAll | python/page/report.py:198-212 | all four tables equal their cellwise definitions; class 0 cells stay 0, and stat/conf are written only for nonzero classes |
| PageReport.UpCheckedFirst | python/page/report.py:202-206 | a feature past both cutoffs is classified up, with the up statistic |
| PageReport.AnyRegulatedMeans | python/page/report.py:212 | `any_regulated` is 1 iff some class from 1 on is past its up cutoff or its down cutoff |
| PadeServer.FeatureBins | pade/server.py:114 | bins[i] == BisectRight(bins_i, stats[i]) - 1, which is Python's `bisect_right` on monotone edges such as those `bins_uniform` builds (`PageBins.BisectRightSplits`) |
| PadeServer.FeatureBinsBracket | pade/server.py:114 | on monotone edges -1 <= b < len(edges); b == -1 iff the stat is below the first edge; otherwise edges[b] <= stat < edges[b+1] |
| PadeServer.NewScore | pade/server.py:118-120 | defines one entry of `new_scores`: (unperm - adjusted mean permuted count) / unperm, with no result for a zero count |
| PadeServer.NewScoreMatchesFillBin | pade/server.py:118-120 | the unguarded score equals `fill_bin` for a positive count; for a zero count there is no score while `fill_bin` gives 0 |
| PadeServer.FeatureScores | pade/server.py:115-120 | defined iff every bin index is valid numpy indexing; then each parameter's score is computed from the counts at its bin |
| PadeServer.BelowFirstEdgeWraps | pade/server.py:115-116 | a bin of -1 reads the last entry of the counts |
| PadeServer.Filter | pade/server.py:174 | defined iff every index is inside the scores |
| PadeServer.Survivors | pade/server.py:174 | the positions whose score exceeds the minimum, strictly increasing and complete |
| PadeServer.FilterKeeps | pade/server.py:174 | the filter keeps exactly the entries whose score exceeds min_score, in their original order |
| PadeServer.SliceBound | pade/server.py:175-177 | a normalised slice bound lies in [0, n] |
| PadeServer.PySlice | pade/server.py:177 | a slice is never longer than its list |
| PadeServer.Page | pade/server.py:175-177 | defines the page slice `filtered[50*page_num : 50*page_num + 50]` with Python slice semantics |
| PadeServer.NumPages | pade/server.py:181 | defines `int(ceil(len / 50))` by integer arithmetic |
| PadeServer.PageAtMostRows | pade/server.py:162-177 | any page holds at most 50 entries |
| PadeServer.NumPagesIsCeiling | pade/server.py:181 | num_pages is the least number of 50-entry pages holding every entry |
| PadeServer.EntryOnItsPage | pade/server.py:175-181 | entry k is at position k mod 50 of page k div 50, and that page is counted |
| PadeServer.OrderIndexes | pade/server.py:164-172 | no order gives the identity 0..n-1; an unknown order name is an error |
| PadeServer.Details | pade/server.py:158-181 | a successful page holds at most 50 entries |
| PadeServer.DetailsDefaultOrder | pade/server.py:167-181 | without an order the result is the page and page count of the filtered identity list |
| PadeMain.Listed | pade/main.py:133-143 | defines the English list `quote_and_join` builds, the specification its method is proved against |
| PadeMain.QuoteAndJoin | pade/main.py:133-143 | the result is the English list: "", one quoted item, "a and b", or commas with ", and " before the last |
| PadeMain.ListedExamples | pade/main.py:135-140 | zero, one and two items give "", '"a"' and '"a" and "b"' |
| PadeMain.ListedExampleThree | pade/main.py:141-143 | three items give '"a", "b", and "c"' |
| PadeMain.ListedMentionsAll | pade/main.py:133-143 | every item appears quoted in the result |
| PadeMain.ValidateSettings | pade/main.py:146-153 | raises iff some condition or block variable is not a schema factor, reporting exactly those variables |
| PadeMain.ValidateSettingsKnown | pade/main.py:146-153 | settings naming only factors pass |
| PadeMain.ArgsToSettings | pade/main.py:260-330 | GlmWithoutFamily iff the stat is glm with an empty family; FamilyWithoutGlm iff a non-empty family comes with another stat; an accepted stat is glm iff its family is non-empty |
| PadeMain.SettingsConsistent | pade/main.py:265-289 | `--paired` always yields stat "t"; accepted shrinkage always has family negative_binomial |
| PadeMain.VariableSelection | pade/main.py:292-307 | explicit block/condition variables are taken as given; otherwise a single factor becomes the condition with no blocks; otherwise the run is refused |
| PadeMain.TuningDefaults | pade/main.py:310-313 | a missing or empty tuning list falls back to the defaults |
| PadeMain.DefaultArgsRejected | pade/main.py:662-665 | as written, a run with default options (family 'N/A') is refused with FamilyWithoutGlm, also when paired |
| PadeMain.ArgsToSettingsCorrected | pade/main.py:271-283 | the same rules with 'N/A' read as "no family given" |
| PadeMain.DefaultArgsAccepted | pade/main.py:656-665 | with the correction a default run on a one-factor schema is accepted with stat "f" and the factor as condition |
| PadeMain.CorrectionAgrees | pade/main.py:271-289 | for any family other than 'N/A' the correction changes nothing |

## Left out

- I/O and orchestration: HDF5 persistence (pade/job.py), the `Job` file reader, argparse setup, the `do_*` handlers, celery plumbing, logging, `print_summary`, `save_text_output`, `do_confidences_by_cutoff`, and `unpermuted_stats`, whose binning is the modelled `assign_bins`/`accumulate_bins`.
- The Flask routes, `render_template`, plotting and the jinja report, apart from the determination loop.
- Values that need square roots, variances or geometric means: `compute_s`, `tstat`, `find_default_alpha`, `OneSampleTTest`, `FtestSqrt`, `Ttest`, and the `gmean` step of `MeansRatio.__call__`. The permutation statistic is the parameter `stat` of `PagePerms.PermInputs`, and only the symmetric step of `MeansRatio` is modelled.
- `TUNING_PARAM_RANGE_VALUES` is represented only by its length (`PermInputs.s`).
- `np.linspace` rounding: the edges are exact rationals.
- Floating-point rounding in general: all arithmetic is over exact reals.
- The modules `pade.layout`, `pade.conf`, `pade.analysis`, `pade.model` and `pade.schema` are not part of this model.
  - `Layout.IntersectLayouts` is an assumed definition: pairwise intersections, outer order then inner order, empty groups dropped.
  - `Layout.LayoutIsPaired` is assumed to mean every block has exactly two samples.
  - `as_layout` is taken to be the identity.
  - `cumulative_hist`, `bins_uniform`, `confidence_scores` and `assign_scores_to_features` are function parameters of `PadeTasks.ComputeConfScores`.
- PadeStat.Distinct: Python set iteration order is unspecified. The model lists a block's members in block order, so `PadeStat.PairIndexes` fixes one order where Python may pick another. Which members are listed, each once, is proved.
- PadeTasks.Lexsort: `np.lexsort` is modelled by insertion, not by numpy's algorithm. `PadeTasks.LexsortUnique` proves that any permutation ordered by the two keys is this one, so the result is the same.
- PageBins.BisectRight: measures the leading run of edges that are <= v. Python's `bisect_right` is a binary search that agrees with it only on sorted edges. Every lookup in the model is on monotone edges, where `PageBins.BisectRightSplits` shows the two agree.
- PadeStat.Rss: only the branch with a layout (pade/stat.py:107-110) is modelled. The branch without one (pade/stat.py:103-105) is not modelled. It sums the squared deviations from each row's mean over the last two axes, which is what `PageStat.MeanAndRss` computes for the older code.
- PadeCommon.AssignmentName: takes the assignment as a sequence of already-rendered (factor, value) text pairs. The iteration order of `dict.items()` and the way `"{0}={1}".format` renders non-string values are not modelled.
- FStat.FRatio: with alphas, a zero `denom + alpha` for any alpha gives no result for the whole vector. numpy would produce inf or nan in that one entry only.
- PageBins.Histogram: numpy closes the last bin on the right. The model counts a value equal to the final edge in no bin. This matters only for a finite final edge, and every edge list of `PageBins.GetBins` ends with +inf.
- PageScores.AdjustNumDiff: requires a non-zero `num_ids`. numpy would divide by zero and produce inf or nan. `PadeCommon.AdjustNumDiffAll` and `PadeServer.NewScore` have the same requirement.
- PageScores.MakeConfidenceBins: requires a positive feature count wherever an observed count is positive. There `fill_bin` divides by the feature count, and numpy would produce inf or nan. Bins with nothing observed score 0 for any feature count, as `BiasCorrection.FillBin` does.
- PageScores.GetGeneConfidences: requires the tables to be rectangular with one entry per condition. A zero minimum or maximum, or a bin index outside the row, is reported as `ok == false` rather than as numpy's inf/nan or IndexError.
- PadeStat.GroupMeans: requires every index to be inside the data and every group to be non-empty. numpy raises for the first and yields nan for the second. `PadeStat.Residuals` and `PadeStat.RssByGroups` have the same requirement.
- PageStat.MeanAndRss: requires non-empty rows, because numpy's mean of an empty row is nan.
- PadeServer.FeatureBins: requires one edge list and one statistic per tuning parameter, the shapes the stored job guarantees.
- PadeMain.ArgsToSettings: requires explicit variables or no full model. The full-model branch (pade/main.py:296-300) raises a NameError on `block_vars` as written and is not modelled.
- The `equalize_means_ids` handling (pade/main.py:315-318) reads an unassigned local as written and is not modelled. Neither are the settings fields that are only copied through (bin counts, sampling options, summary levels).
- The text of the `UsageException` messages, including the sorted list of valid variables, is not modelled. Errors are datatype values.

## Findings

| source | as written | input that shows it | evidently intended | confidence | as-written member | corrected member |
|---|---|---|---|---|---|---|
| pade/main.py:279-283, 665 | the family check fires for any family other than '', but the parser's default family is 'N/A' | default options: stat 'f', family 'N/A', one factor, no `--glm-family` | a family left at its default counts as not given, so default and `--paired` runs are accepted | high (not executed) | PadeMain.DefaultArgsRejected | PadeMain.ArgsToSettingsCorrected |
