# Anomaly returns across macroeconomic regimes — the statistical core

This project models the exact part of the thesis pipeline in `functions.py`. That pipeline asks whether long-short anomaly strategies earn different returns in different macroeconomic regimes. The modelled part covers:

- the Newey-West (HAC) variance of a sample mean with Bartlett weights;
- the guards of the Newey-West t-statistic wrapper;
- the per-strategy table with its significance stars;
- the labelling of rows by regime;
- excess returns over the risk-free rate;
- the mean difference of the two-group (Welch) comparison;
- the zero-deviation guard of the annualised Sharpe ratio.

Modelling choices:

- Floating-point numbers are exact `real`s.
- A missing (NaN) cell is `None` of `Option<real>`.
- A data frame is a `Frame.Panel`: a date per row (a day number), a map from column names to numeric columns, and the regime label of every row.
- A column lookup that pandas would answer with a `KeyError` returns `Failure(KeyError(name))`.
- The square root (applied only to non-negative numbers) and the Student-t CDF are passed in as functions, and so is the annualisation factor (the square root of 12). Nothing is assumed about them except where a lemma says so.

Modules:

- `Wrappers`: `Option` and `Result`.
- `Frame`: the panel, sums and means, dropping missing cells, the first absent column name.
- `NeweyWest`: the HAC variance. The method that runs the lag loop is proved equal to a recursive specification, and the lemmas are about that specification.
- `Significance`: the t-statistic record, the tiers and the two loops that build the strategy table.
- `Regimes`: `add_regime_column`, as an array overwritten period by period.
- `ExcessReturns`: `calculate_excess_returns`, built column by column.
- `RegimeComparison`: the `Difference` field and the Sharpe ratio guard.

Where the code differs from what a reader might expect, the model follows the code:

- A `lags` value below 1 runs the lag loop zero times (Python's `range`). The variance is then gamma_0 / n.
- `results_dict` is a dictionary. A strategy named twice gets one row, at its first position, holding the last (identical) result. There is exactly one row per name, in input order, only when the names are distinct (`Significance.DistinctOfDistinct`).
- The Newey-West variance of an empty sample is NaN (a mean of nothing), so `HacVariance` returns `None`.
- `calculate_excess_returns` looks up each anomaly column before `RF`. An absent first column is therefore reported before an absent `RF`. With no anomaly columns, `RF` is never looked up.
- Each gamma_j is a mean over the n - j overlapping pairs rather than a sum divided by n, so the estimate can be negative: the sample [0, 1] with twelve lags gives -11/104 (`NeweyWest.NegativeVarianceExample`). numpy's square root of it is NaN, which passes the `!= 0` guard and makes the t-statistic, the p-value and the tier undefined; the model takes that path explicitly.

## Model

| member | source | states |
|---|---|---|
| Frame.DropMissing | functions.py:115-116 | Dropping NaNs never lengthens a column; what is kept, how often and in which order is stated by the three lemmas below. |
| Frame.DropMissingKeepsPresentValues | functions.py:115-116 | A value is kept iff some cell holds it. No cell is lost iff none is missing, and the result is empty iff every cell is missing. |
| Frame.DropMissingCounts | functions.py:115-116 | Each value is kept exactly as often as cells hold it, so the result has one entry per non-NaN cell. |
| Frame.DropMissingOfConcat | functions.py:115 | Dropping preserves row order: the values of two consecutive stretches of rows are those of the first, then those of the second. |
| Frame.DropMissingOfFullColumn | functions.py:115-116 | A column without missing cells yields all of its values, in order. |
| Frame.FirstMissing | functions.py:150-151 | The first name that is not a column: `None` iff every name is a column; otherwise a name at some position with all earlier names present. |
| Frame.FirstMissingAt | functions.py:150-151 | A lookup failing at position i after i successful ones reports the name at i. |
| NeweyWest.DemeanSumsToZero | functions.py:95-96 | The demeaned values sum to zero. |
| NeweyWest.BartlettWeight | functions.py:106 | Every weight 1 - j/(L + 1) used for 1 <= j <= L lies strictly between 0 and 1. |
| NeweyWest.HacVariance | functions.py:91-110 | The estimator is defined exactly for a non-empty sample. |
| NeweyWest.WeightedLagSum | functions.py:100-107 | The `for j in 1..L` loop with its `j < n` guard accumulates exactly the recursive lag sum. |
| NeweyWest.NeweyWestVariance | functions.py:91-110 | Demeaning, gamma_0 and the lag loop give the HAC variance (gamma_0 + weighted lag sum) / n, or `None` for an empty sample. |
| NeweyWest.NoLagsIsGammaZeroOverN | functions.py:98-109 | With lags <= 0 the variance is exactly gamma_0 / n. |
| NeweyWest.LagSumIsTruncated | functions.py:100-107 | The guarded lag sum up to m equals the unguarded sum up to min(m, n - 1). |
| NeweyWest.HacVarianceSumsLagsBelowN | functions.py:100-109 | The variance is (gamma_0 + sum over j = 1..min(L, n - 1) of 2(1 - j/(L + 1)) gamma_j) / n: lags j >= n are skipped. |
| NeweyWest.AutocovarianceOfZeros | functions.py:104 | Every autocovariance of an all-zero series is 0. |
| NeweyWest.LagSumOfZeros | functions.py:100-107 | The weighted lag sum of an all-zero series is 0. |
| NeweyWest.ConstantSampleHasZeroVariance | functions.py:95-109 | A sample of identical values has variance exactly 0, for every lag count. |
| NeweyWest.SingleObservationHasZeroVariance | functions.py:93-109 | A single observation has variance exactly 0. |
| NeweyWest.GammaZeroNonNegative | functions.py:98 | gamma_0, the mean of the squared demeaned values, is never negative. |
| NeweyWest.NegativeVarianceExample | functions.py:98-109 | The whole estimate need not be: for [0, 1] with twelve lags it is exactly -11/104. |
| Significance.NeweyWestTStat | functions.py:113-146 | `observations` is the number of non-NaN cells and `lags_used` is the lag count. |
| Significance.NeweyWestTStatContract | functions.py:113-146 | The record, field by field. `observations` is the number of non-NaN cells and `lags_used` is the lag count. An empty sample gives the all-undefined record. Otherwise the mean is that of the clean sample, and the standard error is undefined for a negative HAC variance (numpy's NaN) and its square root otherwise. The t-statistic is undefined iff the error is undefined or 0, and otherwise is mean / error. The p-value is defined iff the t-statistic is, and then equals 2(1 - cdf(abs t, n - 1)). |
| Significance.EmptySample | functions.py:117-125 | An empty series gives mean, t, p and error undefined, 0 observations, the given lag count, and tier "N/A". |
| Significance.FullColumnStatistics | functions.py:114-127 | A column without gaps reports all of its values as observations, and their mean. |
| Significance.NegativeVarianceIsNotApplicable | functions.py:129-138 | The column [0, 1] with twelve lags has 2 observations, an undefined standard error and t-statistic, and tier "N/A". |
| Significance.ConstantColumnIsNotApplicable | functions.py:129-138 | If sqrt(0) = 0, a non-empty column whose present values are all equal (a single observation included) has standard error 0, undefined t and p, and tier "N/A". |
| Significance.SignificanceTier | functions.py:156-167 | "***" iff p < 0.01; "**" iff 0.01 <= p < 0.05; "*" iff 0.05 <= p < 0.10; "" iff p >= 0.10; "N/A" iff p is undefined. So p = 0.01 gives "**". |
| Significance.TierIsMonotone | functions.py:157-165 | A smaller p-value never earns fewer stars. |
| Significance.NotApplicableTier | functions.py:129-138 | The tier is "N/A" exactly when the sample is empty, its HAC variance is negative, or the standard error is 0. |
| Significance.PValueIsProbability | functions.py:135-136 | If the CDF lies in [1/2, 1] on non-negative arguments, every defined p-value lies in [0, 1]. |
| Significance.DistinctKeys | functions.py:149-151 | The dictionary holds every strategy name, and no name twice. |
| Significance.DistinctOfDistinct | functions.py:149-154 | With distinct names the dictionary keys are the names themselves, in input order. |
| Significance.StrategyResults | functions.py:149-151 | The first loop fails on the first name that is not a column, with that name. Otherwise its keys are the distinct names in first-occurrence order, each mapped to its t-statistic record. |
| Significance.SignificanceRows | functions.py:153-177 | The second loop emits one row per key, in key order, carrying the record's fields and the tier of its p-value. |
| Significance.TStatsForStrategies | functions.py:148-179 | A missing column fails with its name iff one exists. Otherwise there is one row per distinct name, in order, with that column's record and tier. |
| Regimes.LastCoveringIsLastMatch | functions.py:53-57 | The label left by overwriting in dictionary order is undefined iff no period covers the date. Otherwise it is the name of a covering period that no later period covers. |
| Regimes.AddRegimeColumn | functions.py:50-58 | Dates, the row count and all numeric columns are unchanged. Every row's label is that of the last period whose inclusive range contains its date, or none. |
| ExcessReturns.CalculateExcessReturns | functions.py:60-67 | It fails iff an anomaly column, or `RF` at the first lookup, is absent, reporting the first failed lookup. Otherwise dates and regimes are carried over, the columns are exactly the anomaly names, and each cell is col[i] - RF[i] (undefined if either is NaN). |
| RegimeComparison.GroupMean | functions.py:187-188 | A group's mean is undefined iff every cell is missing, and otherwise is the mean of the present values. |
| RegimeComparison.WelchDifference | functions.py:189 | `Difference` is defined iff both means are, and then equals mean(group1) - mean(group2). |
| RegimeComparison.WelchDifferenceAntisymmetric | functions.py:189 | Swapping the groups negates the difference. |
| RegimeComparison.WelchDifferenceExample | functions.py:189 | Groups [0.01, 0.02, 0.03] and [0.04, 0.05, 0.06] differ by exactly -0.03. |
| RegimeComparison.SharpeRatio | functions.py:78-83 | A zero deviation gives an undefined ratio. The ratio is defined iff both moments are defined and the deviation is nonzero, and then equals (mean / std) times the annualisation. |
| RegimeComparison.SharpeLinearInMean | functions.py:83 | At a fixed deviation, scaling the mean by k scales the ratio by k. |
| RegimeComparison.SharpeScaleInvariant | functions.py:83 | Scaling mean and deviation by the same k > 0 leaves the ratio unchanged. |

## Left out

- `load_data` and `load_fama_french_factors_to_data` (functions.py:6-47): CSV reading, date parsing and pandas merges are I/O and library plumbing.
- `descriptive_stats.py` is not part of this model: it is a script of configuration, file output and plotting.
- `latex_descriptive_statistics_data_prep` (functions.py:197-207): a column-lookup join with no logic of its own.
- The Student-t CDF and `ttest_ind` with Welch's correction: foreign numerics. The CDF is a parameter; the Welch t-statistic and p-value are not modelled.
- The square root, the sample standard deviation and `np.sqrt(12)`: irrational or library operations. They are parameters, or (for the deviation) inputs to `RegimeComparison.SharpeRatio`.
- `round(..., 4)` of the Sharpe ratio: float rounding.
- The loop over regimes in `calculate_regime_sharpe_ratios` (functions.py:73-86) is not modelled: the selection of rows by `unique()` label (including the unlabelled rows), the sample moments and the assembly of the table. Only the zero-deviation guard on given moments is.
- The loop of `perform_welchs_t_test` (functions.py:184-194) is not modelled beyond `Difference`: the group selection, `ttest_ind` and the table assembly are left out; the group means are modelled by `RegimeComparison.GroupMean`.
- IEEE-754 rounding, and NaN arising from arithmetic rather than from missing cells.
- Significance.NeweyWestTStatContract: the square root is a parameter, so nothing ties the error of a non-negative variance to its value except through a lemma's hypothesis (as in `Significance.ConstantColumnIsNotApplicable`, which asks sqrt(0) = 0).
- The default `lags=12` of `newey_west_variance`, `calculate_newey_west_t_stat` and `calculate_t_stats_for_strategies` (functions.py:91, 113, 148): Dafny has no default arguments, so every caller passes the lag count.
- Regimes.AddRegimeColumn: dates are day numbers, so string date parsing and missing (NaT) dates are not modelled.
- ExcessReturns.CalculateExcessReturns: the panel always carries its dates and a regime column, so a `KeyError` on `date` or `Regime` is not modelled. Setting the date index is modelled as carrying the dates over.
- The layout of the output frames (column names and order, the transpose in the Sharpe and Welch tables) is not modelled.
