# ccal feature ranking and consensus counting, modelled in Dafny

This project models the scoring core of ccal's `analyze` module (`ccal/analyze.py`).

- `compute_against_reference` scores every feature row against a reference vector with an association metric. It then:
  - sorts the features by score;
  - optionally bootstraps a selection of features over columns drawn with replacement;
  - builds a permutation null by repeatedly shuffling the reference;
  - derives local and global permutation p-values, each with a floor of one draw;
  - adjusts the global p-values with the Benjamini-Hochberg step-up procedure.
- `rank_features_against_reference` prepares the inputs for that call and picks the rows to plot. Preparation restricts the table and the reference to their shared columns, drops rows that are zero in every column, and optionally sorts the reference and reorders the columns to match.
- The counting loops of the consensus-clustering helpers are modelled as imperative methods over `array2`:
  - the co-assignment counts of `nmf_and_score`;
  - the co-clustering counts of `get_states_from_h`;
  - the membership matrix of `get_states_from_h`.

What the model takes as inputs instead of computing:
- The metric is a parameter of type `(seq<real>, seq<real>) -> real`.
- Every random draw is passed in. Each bootstrap replicate is a sequence of column positions. Each permutation is the list of Fisher-Yates swap partners that `np.random.shuffle` draws.
- The NMF factorizations and the agglomerative and `fcluster` labels are passed in as well.

Modules, one per concern:

| module | file | concern |
|---|---|---|
| `Outcomes` | outcomes.dfy | `Result` and the errors the code raises |
| `Matrices` | matrices.dfy | numpy 2-D arrays read back as rows |
| `Sorting` | sorting.dfy | the stable sort order standing in for `sort_values` |
| `Selection` | selection.dfy | the count-or-quantile feature selection, pandas linear-interpolation quantile |
| `Resampling` | resampling.dfy | bootstrap decision and sample size, column subsets, in-place Fisher-Yates shuffle |
| `PValues` | pvalues.dfy | local and global permutation p-values |
| `Fdr` | fdr.dfy | Benjamini-Hochberg q-values over `real` |
| `Engine` | engine.dfy | `compute_against_reference` as a specification function and as a method |
| `Ranking` | ranking.dfy | `rank_features_against_reference` up to the plot |
| `Consensus` | consensus.dfy | the assignment, co-assignment, co-clustering and membership counts |

The imperative code is modelled as methods that are proved equal to specification functions. These are the scoring, replicate and null loops, the shuffle, the p-value loop, and the counting loops. The properties are proved as lemmas about those functions.

## Model

| member | source | states |
|---|---|---|
| Sorting.SortOrder | ccal/analyze.py:300 | the order `sort_values(metric)` puts the features in: one position per score, each in range |
| Sorting.SortOrderSorts | ccal/analyze.py:300 | that order lists every feature exactly once, in ascending score order |
| Sorting.SortPrefixSorts | ccal/analyze.py:300 | sorting the first n positions gives a permutation of 0..n-1 in ascending key order |
| Sorting.InsertSorted | ccal/analyze.py:300 | inserting one position into a sorted order keeps it sorted |
| Sorting.Insert | ccal/analyze.py:300 | insertion adds exactly the one position to the multiset of positions |
| Sorting.SortPrefixOfSorted | ccal/analyze.py:300 | scores already in ascending order are left in input order |
| Sorting.SortedValues | ccal/analyze.py:311 | the sorted copy of the scores that a quantile reads is a sorted rearrangement of the scores: same length, same multiset, ascending |
| Sorting.Reverse | ccal/analyze.py:368 | `ascending=False` lists the ascending table back to front |
| Sorting.ReverseMultiset | ccal/analyze.py:368 | reversing loses and adds no entry |
| Sorting.ReverseSortedIsDescending | ccal/analyze.py:368 | an ascending order read backwards is descending |
| Selection.QuantilePosition | ccal/analyze.py:311 | the interpolation position (m-1)q of pandas' `quantile` stays in [0, m-1] |
| Selection.QuantileLow | ccal/analyze.py:311 | the lower neighbour of that position is its floor, a valid index |
| Selection.Interpolate | ccal/analyze.py:311 | linear interpolation between two values lies between them |
| Selection.Quantile | ccal/analyze.py:311-314 | a quantile of sorted values lies between their minimum and maximum |
| Selection.PositionMonotone | ccal/analyze.py:311 | a larger q gives a larger interpolation position |
| Selection.FloorMonotone | ccal/analyze.py:311 | a larger position never has a smaller floor |
| Selection.InterpolationMonotone | ccal/analyze.py:311 | the interpolation grows with its weight |
| Selection.QuantileMonotone | ccal/analyze.py:311-314 | the quantile of sorted values is monotone in q |
| Selection.CountSelect | ccal/analyze.py:319 | `index[:n] + index[-n:]` is the first and the last min(n, len) features |
| Selection.RepeatsNone | ccal/analyze.py:319 | a list of labels has no repeat iff it holds every label at most once |
| Selection.SelectRepeats | ccal/analyze.py:311-319 | over an order listing every feature once, a selection repeats a feature iff it is a count n over fewer than 2n features |
| Selection.CountSelectDistinct | ccal/analyze.py:319 | the count selection repeats no feature iff len >= 2n, and then has exactly 2n entries |
| Selection.KeepTails | ccal/analyze.py:311-317 | the quantile mask keeps a sub-multiset of the order, each kept feature at or above the upper threshold or at or below the lower one |
| Selection.KeepTailsKeeps | ccal/analyze.py:311-317 | every feature in either tail is kept |
| Selection.KeepTailsAll | ccal/analyze.py:311-317 | when every feature is in a tail, the mask keeps the whole order unchanged |
| Selection.QuantileSelect | ccal/analyze.py:310-317 | the quantile selection holds only features of the order, each at most as often |
| Selection.QuantileSelectKeepsExtremes | ccal/analyze.py:311-317 | the top-scoring and the bottom-scoring feature are always selected |
| Selection.QuantileSelectAll | ccal/analyze.py:311-317 | with q <= 0.5 every feature is selected, in order |
| Selection.Select | ccal/analyze.py:310-319 | a level below 1 is a quantile and one below 0 raises; a float of 1 or more raises as a slice bound; an int of 1 or more is a count |
| Resampling.SampleSize | ccal/analyze.py:303 | `ceil(0.632 * ncols)`, stated as 0.632 n <= s < 0.632 n + 1 |
| Resampling.Decide | ccal/analyze.py:303-308 | bootstrapping runs iff nsampling >= 2 and ncols >= 4 (sample size >= 3); else the reason it is skipped |
| Resampling.Subset | ccal/analyze.py:325-327 | the sampled columns of a row, in draw order, repeats allowed |
| Resampling.Swap | ccal/analyze.py:347 | one swap of the shuffle keeps the length |
| Resampling.SwapPermutes | ccal/analyze.py:347 | one swap keeps the multiset of values |
| Resampling.ShuffleDown | ccal/analyze.py:347 | the swaps from position i down to 1 keep the length |
| Resampling.ShuffleDownPermutes | ccal/analyze.py:347 | those swaps keep the multiset of values |
| Resampling.FisherYates | ccal/analyze.py:347 | a Fisher-Yates shuffle keeps the length |
| Resampling.FisherYatesPermutes | ccal/analyze.py:347 | a Fisher-Yates shuffle is a permutation of its input |
| Resampling.Shuffle | ccal/analyze.py:345-347 | the in-place shuffle of the reference array leaves it equal to the Fisher-Yates shuffle of its old contents |
| Resampling.ShuffledRef | ccal/analyze.py:345-347 | the reference after k shuffles of the same array keeps its length |
| Resampling.ShuffledRefPermutes | ccal/analyze.py:345-347 | the reference after k cumulative shuffles is a permutation of the original reference |
| PValues.CountGreater | ccal/analyze.py:354-359 | `sum(nulls > score)` lies in [0, len] and is 0 iff no null exceeds the score |
| PValues.CountGreaterAntitone | ccal/analyze.py:354-359 | a larger score never has more nulls above it |
| PValues.PValue | ccal/analyze.py:354-361 | count/total with the floor 1/total when the count is 0: in [1/total, 1], and exactly count/total otherwise |
| PValues.PValueOnGrid | ccal/analyze.py:354-356 | every p-value is a multiple k/total with 1 <= k <= total |
| PValues.PValueMonotone | ccal/analyze.py:354 | a larger count gives a larger p-value |
| PValues.FlattenLength | ccal/analyze.py:352 | the flattened null matrix has nfeatures * nperm entries |
| PValues.PooledCount | ccal/analyze.py:352-359 | counting over the flattened matrix is the sum of the per-row counts |
| PValues.LocalPValue | ccal/analyze.py:353-357 | the local p-value over one row of nperm nulls lies in [1/nperm, 1] |
| PValues.GlobalPValue | ccal/analyze.py:359-362 | the global p-value over all nulls lies in [1/(nperm * nfeatures), 1] |
| PValues.GlobalPValuePositive | ccal/analyze.py:359-361 | because of the floor, no global p-value is 0 |
| PValues.GlobalPValueAntitone | ccal/analyze.py:359 | a higher score never gets a larger global p-value |
| Fdr.SuffixMin | ccal/analyze.py:364-365 | the step-up running minimum: entry i is the least of the raw values from rank i on, and is one of them |
| Fdr.SuffixMinMonotone | ccal/analyze.py:364-365 | the running minimum never decreases with rank |
| Fdr.RawAdjusted | ccal/analyze.py:364-365 | one raw value p * n / rank per rank |
| Fdr.SortedAdjusted | ccal/analyze.py:364-365 | one adjusted value per p-value |
| Fdr.BenjaminiHochberg | ccal/analyze.py:364-365 | one q-value per p-value (their properties: the Fdr.QValues lemmas) |
| Fdr.BenjaminiHochbergAligned | ccal/analyze.py:364-365 | the value adjusted at each rank goes back to the feature holding that rank |
| Fdr.QValuesAtMostOne | ccal/analyze.py:364-365 | every q-value is at most 1 |
| Fdr.QValuesMonotone | ccal/analyze.py:364-365 | q-values never decrease along ascending p-value rank |
| Fdr.QValuesFollowPValues | ccal/analyze.py:364-365 | a strictly smaller p-value never gets a larger q-value |
| Fdr.QValuesAtLeastPValues | ccal/analyze.py:364-365 | for p-values in [0, 1], every q-value is at least its p-value |
| Fdr.SortedAdjustedAtLeast | ccal/analyze.py:364-365 | each adjusted value at a rank is at least that rank's p-value |
| Fdr.RankScaleAtLeast | ccal/analyze.py:364-365 | dividing a non-negative p-value by rank/n, with rank <= n, never lowers it |
| Engine.Scores | ccal/analyze.py:295-299 | one metric score per feature row (what each score is: Engine.ScoreRows, Engine.TableOrder) |
| Engine.Nulls | ccal/analyze.py:344-349 | one row of nperm null scores per feature (their values: Engine.NullScores) |
| Engine.GlobalPValues | ccal/analyze.py:359-362 | one global p-value per feature (bounds and order: Engine.RankedRowsPValueBounds, Engine.RankedRowsGlobalPValueOrder) |
| Engine.RankedRows | ccal/analyze.py:300-366 | one table row per feature (order, bounds and q-values: Engine.RankedRowsOrder, Engine.RankedRowsPValueBounds, Engine.RankedRowsFdr) |
| Engine.Table | ccal/analyze.py:366-368 | one row per feature in the returned table (order and bounds: Engine.TableOrder, Engine.TablePValueBounds, Engine.TableFdrBounds) |
| Engine.ScoreRows | ccal/analyze.py:295-299 | the scoring loop gives row r the metric of row r against the reference |
| Engine.FillReplicate | ccal/analyze.py:326-329 | one bootstrap column: each selected feature scored on the drawn columns; no other column changes |
| Engine.ReplicateScores | ccal/analyze.py:323-329 | the replicate matrix: feature k, replicate c is the metric of both vectors restricted to draw c |
| Engine.FillNull | ccal/analyze.py:348-349 | one permutation column: each feature scored against the current shuffle; no other column changes |
| Engine.NullScores | ccal/analyze.py:344-349 | the null matrix: feature j, permutation i is the metric against the reference after i+1 shuffles |
| Engine.PermutationPValues | ccal/analyze.py:351-362 | the p-value loop over features in sorted order: local p-values from null row i for sorted position i, and global p-values over all nulls |
| Engine.BootstrapStage | ccal/analyze.py:302-338 | the bootstrap branch computes its specification: skipped, failed, or the selected features with their replicates |
| Engine.RankStage | ccal/analyze.py:340-366 | the shuffle, p-value and FDR stage computes its specification |
| Engine.ComputeAgainstReference | ccal/analyze.py:273-368 | the whole method computes its specification |
| Engine.FeatureOrder | ccal/analyze.py:368 | one feature position per table row |
| Engine.RankedRowsOrder | ccal/analyze.py:300-366 | the ranked rows list every feature exactly once with its own score, in ascending score order |
| Engine.RankedRowsPValueBounds | ccal/analyze.py:354-362 | every row's local p-value is in [1/nperm, 1] and its global one in [1/(nperm * n), 1] |
| Engine.RankedRowsGlobalPValueOrder | ccal/analyze.py:359 | a higher-scoring row never has a larger global p-value |
| Engine.RankedRowsFdr | ccal/analyze.py:364-365 | every q-value lies in [global p-value, 1]; a strictly smaller global p-value never has a larger q-value |
| Engine.RankedRowsOwnNullWhenPresorted | ccal/analyze.py:348-354 | for input already in ascending score order, every local p-value comes from the feature's own null row (for runs whose bootstrap is skipped or keeps every feature) |
| Engine.RankedRowsBorrowedNullExample | ccal/analyze.py:348-354 | two features out of score order: the first sorted row is judged against the other feature's null row, so its local p-value is 1 where its own row gives 1/2 |
| Engine.DescendingRows | ccal/analyze.py:368 | reversing ascending rows gives every feature once, with its own score, in descending order |
| Engine.ReversedFeatures | ccal/analyze.py:368 | reversing the rows keeps the features a permutation |
| Engine.TableOrder | ccal/analyze.py:295-368 | the returned table lists every feature once, scored against the reference, ascending or descending as asked |
| Engine.TablePValueBounds | ccal/analyze.py:354-362 | the p-value bounds hold in the returned table in either direction |
| Engine.TableFdrBounds | ccal/analyze.py:364-365 | the q-value bounds hold in the returned table in either direction |
| Engine.ComputeErrors | ccal/analyze.py:288-365 | the error cases in order: unknown metric; a selection the bootstrap cannot make; a negative nperm (the null matrix cannot be allocated); no feature or no permutation (division by zero); a bootstrap count n over fewer than 2n features, whose repeated labels make the merged table longer than the null matrix (index out of bounds); success exactly otherwise |
| Engine.MergedRows | ccal/analyze.py:338 | the outer merge has at least one row per feature, and exactly one per feature iff the bootstrap was skipped or repeats no feature |
| Engine.BootstrapRepeats | ccal/analyze.py:311-354 | the merged table outgrows the null matrix iff the bootstrap runs with a count n over fewer than 2n features |
| Engine.BootstrapOfFacts | ccal/analyze.py:303-329 | the bootstrap runs iff nsampling >= 2 and ncols >= 4; it then selects by the count or quantile rule over the score order and draws nsampling samples of ceil(0.632 * ncols) columns, scoring feature and reference on the same columns |
| Ranking.AsFrame | ccal/analyze.py:210-211 | the features argument, a table or a single Series, as a well-shaped table; a table is used as given |
| Ranking.SeriesAsFrame | ccal/analyze.py:210-211 | a single Series of features becomes a one-row table with its labels as columns |
| Ranking.CommonColumns | ccal/analyze.py:214 | exactly the columns both inputs have, repeating none |
| Ranking.PickColumns | ccal/analyze.py:221-230 | selecting columns by label keeps the row labels and gives each cell of the named column |
| Ranking.PickEntries | ccal/analyze.py:222 | selecting reference entries by label gives each value under its label |
| Ranking.NonzeroRows | ccal/analyze.py:225 | the row positions with some nonzero value, increasing, and all of them |
| Ranking.PickRows | ccal/analyze.py:225-235 | selecting rows by position keeps the columns and gives each chosen row with its label |
| Ranking.RowLabels | ccal/analyze.py:260-262 | the labels of the chosen rows, in order |
| Ranking.RowLabelsOfTails | ccal/analyze.py:262 | the labels of the first and last k rows are the first and last k labels |
| Ranking.DropZeroRows | ccal/analyze.py:225 | dropping rows keeps the columns |
| Ranking.ValueOrder | ccal/analyze.py:229 | a permutation of the reference positions, ascending or descending by value as asked |
| Ranking.SortSeries | ccal/analyze.py:229 | the sorted reference has the same labels |
| Ranking.Prepare | ccal/analyze.py:213-230 | no shared column raises; otherwise the table and the reference are aligned on the same columns |
| Ranking.KeptRows | ccal/analyze.py:225 | the surviving row positions are positions of the input |
| Ranking.PrepareShape | ccal/analyze.py:213-230 | after preparation every row and the reference have as many entries as there are shared columns |
| Ranking.PrepareColumns | ccal/analyze.py:213-230 | both inputs end on exactly the shared columns with the same labels; the surviving rows keep input order and each has a nonzero value |
| Ranking.DroppedRowsAreZero | ccal/analyze.py:225 | a row is dropped iff it is zero in every shared column |
| Ranking.PrepareCells | ccal/analyze.py:221-230 | every kept cell and every reference value is the input's value under the same row and column labels |
| Ranking.PrepareSortsReference | ccal/analyze.py:228-229 | with sorting on, the reference comes out ascending or descending as asked |
| Ranking.TableOrderOf | ccal/analyze.py:235 | the score table of a successful call indexes every prepared row once |
| Ranking.RankFeaturesAgainstReference | ccal/analyze.py:209-262 | the wrapper up to the plot, given a table or a single Series, computes its specification on the table form |
| Ranking.RankErrors | ccal/analyze.py:214-354 | no shared column raises first; then an unknown metric; a negative threshold raises at the quantile, at the null matrix or divides by zero on an empty table or nperm = 0; a negative nperm raises at the selection or at the null matrix; a bootstrap count n over fewer than 2n surviving rows reads past the null matrix |
| Ranking.RankRefusesLargeFraction | ccal/analyze.py:255-262 | a fractional threshold of 1 or more never succeeds |
| Ranking.FinishPlotsTopAndBottom | ccal/analyze.py:235-262 | with a count n the rows follow the table's order, and the plotted rows are the first and last min(n, rows) of them |
| Ranking.FinishPlotsAllAtHalf | ccal/analyze.py:255-260 | with a quantile of at most 1/2 every row is plotted, in the table's order |
| Consensus.ArgMax | ccal/analyze.py:59 | `np.argmax` of a column: a component with the largest coefficient, the first one on ties |
| Consensus.Assign | ccal/analyze.py:59 | one label per column, each the argmax component of that column |
| Consensus.Assignments | ccal/analyze.py:51-59 | one row of labels per NMF run, each label a component of that run |
| Consensus.AssignmentMatrix | ccal/analyze.py:51-59 | the assignment-matrix loop computes the rows of labels |
| Consensus.AgreementsBound | ccal/analyze.py:65-67 | at most k of k runs agree on a pair |
| Consensus.AgreementsSelf | ccal/analyze.py:65-67 | every run agrees on a column with itself |
| Consensus.AgreementsSymmetric | ccal/analyze.py:65-67 | agreement on (i, j) counts the same as on (j, i) |
| Consensus.CoAssignment | ccal/analyze.py:62-67 | the co-assignment matrix is n by n (its counts: Consensus.CoAssignmentFacts) |
| Consensus.CountPair | ccal/analyze.py:65-67 | the innermost loop adds the number of agreeing runs to cell (i, j) and changes no other cell |
| Consensus.CoAssignmentCounts | ccal/analyze.py:62-67 | the triple loop over a zero matrix computes the co-assignment matrix |
| Consensus.CoAssignmentFacts | ccal/analyze.py:62-67 | every count lies in [0, runs]; the diagonal counts every run; cells below the diagonal stay 0; the upper triangle reads the same with the columns swapped |
| Consensus.NmfAndScoreCounts | ccal/analyze.py:45-77 | the loops compute their specification: an unknown scoring method raises; a negative n_assignments raises at the first k's assignment matrix (none when ks is empty); otherwise one co-assignment matrix per k; these are the only failures |
| Consensus.CoClustering | ccal/analyze.py:147-154 | the co-clustering matrix is n by n (its counts: Consensus.CoClusteringFacts) |
| Consensus.AddClustering | ccal/analyze.py:151-154 | one clustering adds 1 to every cell whose two samples share a label or coincide, and 0 elsewhere |
| Consensus.CoClusteringCounts | ccal/analyze.py:146-154 | the loops over a zero matrix compute the co-clustering matrix |
| Consensus.CoClusteringFacts | ccal/analyze.py:146-154 | the counts are symmetric and lie in [0, clusterings]; the diagonal counts every clustering |
| Consensus.AnyNonzero | ccal/analyze.py:136 | Python `any`: true iff some entry is nonzero |
| Consensus.Memberships | ccal/analyze.py:167 | one row per state and one column per sample, every entry 0 or 1 |
| Consensus.MembershipRowSum | ccal/analyze.py:167 | a membership row adds up to the number of samples whose final label is that state's number |
| Consensus.GetStatesCounts | ccal/analyze.py:136-173 | the loop over states computes the counts and memberships, or raises when no state is nonzero |
| Consensus.StatesErrors | ccal/analyze.py:136-173 | the `any(n_states)` check fails iff every requested state number is 0 (or none is requested), with the invalid-states error; otherwise one co-clustering matrix and one membership row per state |

## Left out

- The information coefficient, `information_coefficient`, is a parameter. Its kernel-density estimate is not modelled.
- Floating point is not modelled anywhere: the model computes with exact reals. This covers the metric's scores, the quantile interpolation (Selection.Interpolate, Selection.Quantile), the p-value divisions (PValues.PValue) and the Benjamini-Hochberg divisions and running minimum (Fdr.RawAdjusted, Fdr.SortedAdjusted). Rounding differences, and so ties that rounding would create or break, are not captured. The only metric name accepted is `information_coef`. The `is` comparison at line 288 is modelled as string equality.
- The margin of error is not modelled. This is the standard deviation of the replicates times `norm.ppf(confidence)` over sqrt(nsampling) (lines 331-337). The model returns the replicate scores it would be computed from.
- Non-negative matrix factorization and its H matrices are inputs. This covers `nmf`, which is not part of this model. Every H is taken to have at least one component (Consensus.Factorizations); an H with none could come only from `nmf` with k <= 0, whose failure is not modelled.
- All of the following are foreign calls and are left out. Their inputs and outputs are parameters where the counting needs them.
  - `linkage`, `cophenet`, `pdist`, `fcluster` and `AgglomerativeClustering`;
  - `normalize_pandas_object`, `compare_matrices` and the clipping at line 127;
  - the normalization `n_coclusterings / n_clusterings` and `assignment_distance_matrix / n_assignments` (lines 68 and 156), which divide by the count, plus the cophenetic scores.
- Left out as I/O or logging: plotting (`plot_features_against_reference`), the annotation strings (lines 242-252), file output, `establish_path`, `write_gct` and `print_log`.
- Randomness: `np.random.choice` and `np.random.shuffle` are replaced by their draws, which are inputs.
- Engine.RankedRows and Ranking.ValueOrder: ties between equal values are ordered by input position, for the score sort at line 300 and the reference sort at line 229 alike.
  - This comes from a stable insertion sort.
  - pandas' default quicksort may order ties differently.
  - Descending order is the ascending order reversed, so ties come out in reverse input order.
- Ranking.CommonColumns: the shared columns come in the table's column order. Python's set iteration order is not modelled.
- Consensus.StatesErrors: a state number that the clustering cannot use, for example one below 1 next to a nonzero one, makes `AgglomerativeClustering` at line 142 raise. That call is foreign and not modelled, so the model returns counts for its given labels; the only failure it states is the `any(n_states)` check at lines 135 and 170-171.
- Engine.ComputeAgainstReference: the merges at lines 338 and 366 are modelled as side-by-side columns in score order. The model takes row labels as positions and assumes the input's row labels are distinct.
  - A selection that repeats a label (a count n over fewer than 2n features) makes the outer merge at line 338 longer than the null matrix. The model gives this an index-out-of-bounds error, as the loop at lines 353-354 does.
- Engine.RankedRows and Engine.RankedRowsOwnNullWhenPresorted: when the bootstrap keeps a strict subset of the features, the outer merge at line 338 returns the rows sorted by label, not by score. The loop at lines 353-354 then pairs features in label order with null row i. Labels are not modelled, so the model pairs them in score order in every run. Engine.RankedRowsOwnNullWhenPresorted holds as stated only for runs whose bootstrap is skipped or keeps every feature.
- NaN is not modelled. The code compares and sorts scores that the metric may return as NaN.
- Consensus.GetStatesCounts: the model keeps one entry per element of `n_states`. When a state number repeats in `n_states`, pandas overwrites the same row of `labels`, so the source keeps only the last.
- Engine.ComputeErrors: on an empty table, or when nperm is 0, the model returns a division-by-zero error.
  - One might expect an empty table to give an empty result. The code instead divides by `nperm` (line 354) or lets `multipletests` fail on zero tests, and the model follows the code.
- Engine.RankedRows: the local p-value of the feature at sorted position i uses null row i. Null row i is the row of the feature at input position i, not necessarily the feature being judged (lines 348-354).
  - The model keeps this as written.
  - Engine.RankedRowsOwnNullWhenPresorted shows when it agrees with the feature's own row.
  - Engine.RankedRowsBorrowedNullExample shows a case where it does not.
- Selection.Select: the model refuses a negative quantile with an error. For q > 1 (possible only through 1 - q with q < 0), pandas raises the same error, and the model reports it once.
- The rest of the repository (the kraft and kwat packages, and the rest of the ccal package: plotting, I/O and the information metric) is not part of this model.
