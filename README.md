# Repeated-measures Bland–Altman analysis and confusion-matrix statistics, in Dafny

This project models the two computational parts of a small statistics toolkit:

* **Bland–Altman agreement with multiple observations per individual**
  (`BlandAltmanAnalysis.analyse` and its regularisation helper). A table of paired
  measurements, one row per observation and several rows per subject, is
  optionally cut down to the same number of rows per subject. Each row gets
  the difference between the two methods (of their base-10 logarithms when
  log-transformed) and the average of the two raw measurements. The
  differences are aggregated by subject, and their variation about the grand
  mean is split into a within-subject and a between-subject sum of squares,
  each computed by its own accumulator loop. The mean squares then go through
  the unbalanced one-way random-effects divisor
  (m² − Σnᵢ²) / ((n − 1)·m). That gives the between-subject variance component, the
  total variance, the mean bias and the 95% limits of agreement
  (bias ± 1.96·sd).
* **Three-class evaluation statistics** (`EvaluationStatistics.calculate`):
  accuracy, and per class precision, sensitivity (= recall) and specificity,
  from the named cells of a confusion matrix.

Modules, one file each:

| file | module | what it holds |
|---|---|---|
| `wrappers.dfy` | `Wrappers` | `Option` and `Result` |
| `real_sums.dfy` | `RealSums` | sums over reals, the sum of squared deviations, the shift-of-centre identity |
| `grouping.dfy` | `Grouping` | group-by of a value column on a subject column; the groups partition the column |
| `observations.dfy` | `Observations` | the input row, the subject column, a subject's rows, the failure causes |
| `regularisation.dfy` | `Regularisation` | minimum count per subject and the per-subject head |
| `preparation.dfy` | `Preparation` | the `diff` and `mean` columns, and the composition with regularisation |
| `decomposition.dfy` | `Decomposition` | the aggregate table, the three sums-of-squares loops, the ANOVA identity |
| `estimator.dfy` | `Estimator` | the divisor, the variance components, the mean bias and the limits |
| `bland_altman.dfy` | `BlandAltman` | the whole analysis as methods |
| `evaluation_statistics.dfy` | `EvaluationStatistics` | the confusion-matrix ratios and their generic definitions |

Where the code returns a non-finite value (NaN or ±inf), raises, or divides
by zero, the model returns a labelled failure instead: `Failure(...)` of
`Observations.Failure`, `None` for the limits, or `None` for a ratio. The
numeric library's `log10` and `sqrt` are parameters. Only the defining
property of the square root is assumed, as the precondition
`Estimator.IsSquareRoot`.

The `mean` column averages the two raw measurements even when the analysis
is log-transformed (bland_altman.py:53-54); the model does the same.

## Model

| member | source | states |
|---|---|---|
| Regularisation.MinCount | bland_altman.py:33 | the minimum is at least 1, bounds every subject's row count from below, and is attained by some subject |
| Regularisation.Head | bland_altman.py:34 | the per-subject head never has more rows than the table; what it keeps is stated by HeadPerSubject and HeadInTableOrder |
| Regularisation.HeadPerSubject | bland_altman.py:34 | the per-subject head keeps, of every subject, exactly the first `n` of its rows in table order |
| Regularisation.HeadInTableOrder | bland_altman.py:34 | the head only leaves rows out: the kept rows stay in table order, across subjects too |
| Regularisation.Regularise | bland_altman.py:31-34 | fails (empty table) exactly when the table is empty; otherwise every subject keeps its first MinCount rows, no subject is lost or added, the result is balanced, and it is a subsequence of the table |
| Regularisation.RegulariseKeepsBalanced | bland_altman.py:31-34 | a table in which every subject already has the same count comes back unchanged |
| Regularisation.RegulariseIdempotent | bland_altman.py:31-34 | regularising twice gives the same table as regularising once |
| Preparation.Differences | bland_altman.py:46-54 | fails exactly when log-transforming a non-positive measurement; otherwise rows are unchanged, `diff` is A − B (or log10 A − log10 B, with both positive), and `mean` is (A + B) / 2 |
| Preparation.DifferencesAntisymmetric | bland_altman.py:46-51 | exchanging the two methods negates every difference, keeps every average, and succeeds or fails alike |
| Preparation.Prepare | bland_altman.py:43-54 | regularisation (when asked) then differencing; an empty table fails under regularisation; a regularised table is balanced at the minimum count |
| Grouping.Distinct | bland_altman.py:56 | the distinct subjects: no duplicates, exactly the subjects of the table, never more than the rows |
| Grouping.GroupBy | bland_altman.py:64 | one group per distinct subject, none empty |
| Grouping.GroupByPartition | bland_altman.py:64-67 | over all groups the counts add to N, the sums to the column sum, and the squared deviations about any centre to those of the column |
| Decomposition.Aggregate | bland_altman.py:64-70 | one aggregate row per group, holding that group's count, sum, mean and squared count |
| Decomposition.AggregateWellFormed | bland_altman.py:65-70 | every aggregate row has a positive count and its square in `count_sqr` |
| Decomposition.AggregateTotals | bland_altman.py:72 | the count column totals the groups' sizes and the sum column totals their sums |
| Decomposition.SquaredWithin | bland_altman.py:75-85 | the nested loop returns the within-subject sum of squares: each value's squared deviation from its own group's mean |
| Decomposition.SquaredBetween | bland_altman.py:88-92 | the loop returns the count-weighted squared deviations of the group means from the grand mean |
| Decomposition.SquaredTotal | bland_altman.py:95-99 | the loop returns the squared deviations of all differences from the grand mean |
| Decomposition.WithinNonNegative | bland_altman.py:75-85 | the within-subject sum of squares is never negative |
| Decomposition.BetweenNonNegative | bland_altman.py:88-92 | the between-subject sum of squares is never negative |
| Decomposition.SumOfSquaresIdentity | bland_altman.py:75-99 | about any centre, all squared deviations split into the between-subject part plus the within-subject part |
| RealSums.SumSqNonNegative | bland_altman.py:79-81 | a sum of squared deviations is never negative |
| RealSums.SumSqAboutMean | bland_altman.py:77-81 | deviations about any centre equal deviations about the mean plus n times the squared distance from the mean to that centre |
| RealSums.ShiftCentre | bland_altman.py:95-97 | moving the centre from c to mu changes the squared deviations by (mu − c)(2Σx − n(mu + c)) |
| Estimator.SquareOfSumBound | bland_altman.py:106 | Σnᵢ² never exceeds (Σnᵢ)², strictly so with two or more subjects |
| Estimator.Divisor | bland_altman.py:111 | the divisor (m² − Σnᵢ²) / ((n − 1)·m) is positive exactly when Σnᵢ² < m² and zero exactly when they are equal; DivisorPositive and DivisorBalanced state its value on the analysis's tables |
| Estimator.DivisorPositive | bland_altman.py:104-111 | with two or more subjects the divisor is positive |
| Estimator.DivisorBalanced | bland_altman.py:104-111 | when every subject has `c` observations the divisor equals `c` |
| Estimator.LimitsOfAgreement | bland_altman.py:118-119 | the limits lie 1.96·sd above and below the bias, on either side of it when sd ≥ 0 |
| Estimator.EstimateAgreement | bland_altman.py:101-121 | within variance is MS within; divisor positive; between variance negative or zero exactly when MS between is below or equal to MS within; total = between + within; limits exist exactly when the total variance is non-negative, with sd ≥ 0, sd² = total variance, and symmetric limits around the bias |
| BlandAltman.GroupSizeIsRowCount | bland_altman.py:65 | a subject's group of differences has as many values as the subject has rows |
| BlandAltman.RegularisedDivisor | bland_altman.py:104-111 | after regularisation the divisor is the minimum per-subject count |
| BlandAltman.SumsOfSquares | bland_altman.py:63-99 | aggregate table, grand mean Σd/N, the three sums of squares equal their definitions, both parts non-negative, and total = between + within |
| BlandAltman.Statistics | bland_altman.py:56-121 | for k ≥ 2 subjects and N > k rows, the counts, degrees of freedom (which add up), aggregate table, decomposition, mean squares and estimate, with mean bias equal to the grand mean |
| BlandAltman.Analyse | bland_altman.py:41-121 | preparation failures pass through; otherwise fails exactly when k < 2 (too few subjects) or N = k (no replicates); on success everything Statistics states holds, and under regularisation the divisor is the minimum count |
| EvaluationStatistics.Ratio | evaluation_statistics.py:66 | a ratio has a value exactly when its denominator is positive |
| EvaluationStatistics.RatioInUnit | evaluation_statistics.py:66 | a part over its whole lies in [0, 1] |
| EvaluationStatistics.RowSplit | evaluation_statistics.py:72 | a row sum is the cell in column i plus the rest of the row |
| EvaluationStatistics.ColumnSplit | evaluation_statistics.py:69 | a column sum is the diagonal cell plus the false positives |
| EvaluationStatistics.ConfusionIdentity | evaluation_statistics.py:75-76 | for each class of an n-class block, tn + row + column = total + tp |
| EvaluationStatistics.OneVsRest | evaluation_statistics.py:72-76 | for each class, tp + fn + fp + tn = total |
| EvaluationStatistics.TraceWithinRows | evaluation_statistics.py:65-66 | the correct classifications never exceed the total of their rows |
| EvaluationStatistics.TotalMonotone | evaluation_statistics.py:65 | adding rows never lowers the total |
| EvaluationStatistics.ThreeClasses | evaluation_statistics.py:54-62 | the generic row, column, trace and true-negative sums of the 3×3 block, cell by cell |
| EvaluationStatistics.NamedCells | evaluation_statistics.py:65-96 | each generic per-class statistic equals the formula written with the named cells |
| EvaluationStatistics.Calculate | evaluation_statistics.py:51-104 | accuracy is trace over the whole matrix's total; precision, sensitivity and specificity of each class are its generic ratios, in class order; recall is the same list as sensitivity |
| EvaluationStatistics.StatsInUnit | evaluation_statistics.py:64-96 | every statistic lies in [0, 1] whenever it has a value |

## Left out

- `plot` (bland_altman.py:123-149): rendering with matplotlib.
- `_get_antilog` (bland_altman.py:37-38): unused by the analysis, and it needs floating-point `pow` and rounding.
- The per-subject `variance` and `sd` columns (bland_altman.py:68-69): nothing downstream reads them.
- The returned data frame's extra `evaluation_*_log_transformed` columns (bland_altman.py:47-48): only their difference is modelled.
- Floating point: every quantity is an exact real, so rounding is not modelled. NaN and ±inf results are modelled as failures or `None`, as described above.
- `np.log10` and `np.sqrt` are parameters. Nothing is assumed of `log10`, and of `sqrt` only that it returns the non-negative square root.
- Group order: pandas iterates groups in sorted key order; the model keeps first-appearance order. Everything computed from the groups is a sum, so order does not change any value.
- BlandAltman.Analyse: where the code still returns partly finite output, the model returns only a failure. With k = 1, or N = k ≥ 2, numpy's divisions by zero (bland_altman.py:101-102, 111) make only the limits NaN, and the data frame and a finite `mean_bias` are still returned. An empty table instead raises `ZeroDivisionError` at bland_altman.py:102, because both the within-subject accumulator and its degrees of freedom are plain integers 0 there. Under the log transform, a negative measurement gives a NaN `diff`, which the group `sum` and `count` skip (bland_altman.py:65-66), so `mean_bias` stays finite. A zero measurement gives a ±inf `diff` (bland_altman.py:47-49), so `mean_bias` is ±inf. The model fails in all these cases and does not reproduce the partial results.
- BlandAltman.Analyse: `analyse`'s default arguments (log transform on, regularisation off; bland_altman.py:41) are explicit parameters of `BlandAltman.Analyse`.
- Missing values: pandas `count()` skips NaN entries. The model has no missing measurements, so counts are row counts.
- Estimator.EstimateAgreement: requires Σnᵢ² < N², which holds for every table the analysis reaches (Estimator.DivisorPositive). A hand-built aggregate with Σnᵢ² = N² would make the code divide by zero. One with Σnᵢ² > N² would give a negative divisor; the model covers neither case.
- EvaluationStatistics.Calculate: requires a rectangular matrix with at least three rows and columns. The code indexes those cells, and a numpy array is always rectangular. Only the accuracy's denominator reads cells outside the 3×3 block.
- `anova.py` and the example scripts are not part of this model: they call an external regression library, load CSV files and print.
