# Quantile-portfolio performance analytics, modelled in Dafny

The repository is a set of marimo notebooks for quantitative equity research. External
libraries (`sf_quant`, `sf_backtester`) load the data, build the quantile portfolios and compute the
ICs. The notebooks themselves hold a series of polars and numpy table transforms.
This project models those transforms over exact reals and proves what they compute.

- **Optimiser dashboard** (`src/framework/opt_dash.py`):
  - the Full / In / Out-of-Sample split at a cutoff date;
  - percent-to-fraction returns;
  - the log-domain drawdown: `cum_sum` of `log1p`, then `cum_max`, then `exp(value - peak) - 1`;
  - two-sided turnover: a per-asset `shift(1).over("barrid")` difference, summed per date, then a 252-row rolling mean;
  - monthly compounding and the year by 12-month heatmap grid, built by a loop;
  - IC mean, IC IR and cumulative IC.
- **Equal-weight dashboard** (`src/framework/ew_dash.py`):
  - the non-null-alpha filter and the sample split;
  - `drop_nulls` and the wide-to-long `unpivot` of the quantile table;
  - the per-quantile cumulative log return (`100 * cum_sum(log1p).over("quantile")`);
  - per-quantile metrics, excluding the benchmark and null returns, annualised with 252 and sqrt(252);
  - the `spread` row and the IC summary.
- **Research notebook** (`src/framework/research.py`):
  - the non-null-alpha filter, and the `unpivot` of the quantile table without a `drop_nulls` (`src/framework/research.py:104-112`); the research operations below take that long table, `QuantileTables.Unpivot(t)`, as their input;
  - per-(date, quantile) mean returns, sorted by date then quantile;
  - the per-quantile wealth index `exp(cum_sum(log(1 + r)).over("quantile"))`;
  - per-quantile metrics with the notebook's annualisation: 252 times the mean, sqrt(12) times the deviation. The model reproduces this mismatch.
- **Production notebook** (`src/framework/production.py`):
  - the wealth index `1 + exp(cum_sum(log(1 + ret))) - 1` of the return column;
  - the single-row metrics, annualised for monthly data (12 and sqrt(12));
  - the ratio drawdown `(cum - running_max) / running_max` and its minimum;
  - the Calmar ratio with its zero guard.

How the model is built:
- **Tables** are sequences of row datatypes. A nullable cell is an `Option<real>`.
- **Dates** are (year, month, day) triples in lexicographic order.
- **Elementary functions.** `exp`, `log`, `log1p` and `sqrt` are fields of a datatype `RealMath.Elementary`, passed to every operation that uses them. Each lemma requires only the properties it needs, for example `exp(0) = 1`, `exp` monotone, `exp(x + y) = exp(x) * exp(y)`, `exp(log(1 + x)) = 1 + x` and `sqrt(x)^2 = x` for `x >= 0`.
- **Polars semantics.**
  - Aggregations skip nulls.
  - `std` is the sample deviation and is null for fewer than two values.
  - Order-sensitive operations follow the row order the code imposes (`sort`, `over`).
  - `group_by(...).agg(...).sort(k)` is one row per distinct key, in ascending key order.
- **Division by zero.** Float division gives inf or NaN; the model gives null.

Three behaviours that differ from what a reader might expect; the model follows the code:
- **Entering and exiting assets (turnover).** One might expect an asset that enters or exits to count as a full weight change. In the code, an asset's first row has a null difference, which the per-date sum skips, so it adds 0. An exiting asset has no row on the later date, so it adds nothing there.
- **Annualisation factors.** The factor is not configurable. Each notebook hard-codes its own: 252 / sqrt(252) in the equal-weight dashboard, 252 / sqrt(12) in the research notebook, 12 / sqrt(12) in production.
- **Log drawdown zero points.** One might expect the drawdown to be 0 also right after a new peak. In the code it is 0 exactly where the running value equals its running peak. `OptDash.LogDrawdownZeroAtPeak` and `OptDash.LogDrawdownZeroOnlyAtPeak` prove this in both directions.

## Model

| member | source | states |
|---|---|---|
| SampleSplit.Split | src/framework/opt_dash.py:76-86 | The selected period holds each row as often as the input does, if its date is in the period (on or before the cutoff for In Sample, after it for Out of Sample, any date for Full Sample), and no other rows |
| SampleSplit.SplitPartition | src/framework/opt_dash.py:76-86 | Full Sample is the whole table; In and Out of Sample share no row and together hold every row exactly as often as the input |
| SampleSplit.SplitKeepsOrder | src/framework/opt_dash.py:78-81 | Selecting a period distributes over concatenation, so the table's row order is kept |
| OptDash.SelectPeriod | src/framework/opt_dash.py:76-86 | Weights and signal are filtered with the same mode and cutoff: each row inside the period keeps its multiplicity and every other row is dropped; Full Sample returns both tables unchanged |
| OptDash.ToFraction | src/framework/opt_dash.py:99-101 | One row per input row, same date, and the new return times 100 gives back the supplied percentage |
| OptDash.ByDate | src/framework/opt_dash.py:162 | `sort("date")` is a permutation of the rows in ascending date order |
| OptDash.Log1pReturnsAt | src/framework/opt_dash.py:163 | The log column at row i is `log1p` of that row's return |
| OptDash.DrawdownRowsAt | src/framework/opt_dash.py:165-168 | Each output row has the sorted row's date and the drawdown `exp(value - peak) - 1` |
| OptDash.LogDrawdownAt | src/framework/opt_dash.py:161-169 | Drawdown row i has the date of sorted row i and equals `exp(log value - log peak) - 1` |
| OptDash.LogDrawdownDates | src/framework/opt_dash.py:162-168 | The drawdown rows are in ascending date order |
| OptDash.LogValueSteps | src/framework/opt_dash.py:163 | The running log value starts at `log1p` of the first return and adds `log1p` of each further return |
| OptDash.LogPeakProperties | src/framework/opt_dash.py:164 | The running peak bounds the log value from above, never decreases, and starts at the first value |
| OptDash.LogDrawdownNonPositive | src/framework/opt_dash.py:165-167 | Given `exp(0) = 1` and monotone `exp`, every drawdown is at most 0 |
| OptDash.LogDrawdownZeroAtPeak | src/framework/opt_dash.py:163-167 | The drawdown is 0 wherever the log value equals its running peak, in particular at the first date |
| OptDash.LogDrawdownZeroOnlyAtPeak | src/framework/opt_dash.py:163-167 | With strictly increasing `exp`, a zero drawdown occurs only where the log value is at its peak |
| Turnover.WeightsByDate | src/framework/opt_dash.py:335 | The sorted weights are a permutation of the input in ascending date order |
| Turnover.LastIndexOf | src/framework/opt_dash.py:337-339 | Finds the latest earlier row of the same asset, or reports that none exists |
| Turnover.WeightDiff | src/framework/opt_dash.py:336-340 | The difference is null exactly when the asset has no earlier row |
| Turnover.WeightDiffPrevious | src/framework/opt_dash.py:336-340 | Otherwise it is this weight minus the asset's previous weight, however far back that row lies |
| Turnover.AbsOf | src/framework/opt_dash.py:343 | `abs` keeps nulls and gives a non-negative value equal to plus or minus the input |
| Turnover.AbsDiffsAt | src/framework/opt_dash.py:336-343 | Row i carries its date and the absolute value of its per-asset difference |
| Turnover.TurnoverOnConcat | src/framework/opt_dash.py:342-343 | The per-date sum distributes over concatenation of the rows |
| Turnover.TurnoverOnSkips | src/framework/opt_dash.py:342-343 | A row with a null difference, or of another date, does not change a date's sum |
| Turnover.TurnoverOnNonNegative | src/framework/opt_dash.py:343 | A sum of absolute values is non-negative |
| Turnover.TurnoverOnZero | src/framework/opt_dash.py:343 | A date whose present differences are all 0 has turnover 0 |
| Turnover.TradingDates | src/framework/opt_dash.py:342-344 | The grouped dates are strictly ascending and are exactly the dates of the weights |
| Turnover.PerDateAt | src/framework/opt_dash.py:342-343 | The k-th daily value is the sum of the absolute differences dated on the k-th date |
| Turnover.DailyTurnoverAt | src/framework/opt_dash.py:333-344 | The two-sided turnover of date k is that sum over the sorted weights' differences |
| Turnover.DiffsAt | src/framework/opt_dash.py:335-340 | Each difference row belongs to the sorted row at the same position |
| Turnover.FirstAppearanceIsNull | src/framework/opt_dash.py:336-340 | An asset's first row has a null difference, so it adds nothing to its date's sum |
| Turnover.DailyTurnoverNonNegative | src/framework/opt_dash.py:343 | Every daily two-sided turnover is non-negative |
| Turnover.DailyTurnoverUnchanged | src/framework/opt_dash.py:336-343 | A date on which every present asset keeps its previous weight has turnover 0 |
| Turnover.SmoothedTurnoverAt | src/framework/opt_dash.py:345 | Row k has the k-th date; it is null exactly for the first 251 rows, and after that it is the mean of the trailing 252 daily values |
| Turnover.SmoothedTurnoverAscending | src/framework/opt_dash.py:342-345 | One row per date, strictly ascending |
| Turnover.SmoothedTurnoverDateFromWeights | src/framework/opt_dash.py:342-345 | Every output date is the date of some weight row |
| Turnover.WeightsDateInSmoothedTurnover | src/framework/opt_dash.py:342-345 | Every weight row's date has an output row |
| Aggregates.RollingMean | src/framework/opt_dash.py:345 | `rolling_mean(w)` is null exactly for the first w - 1 rows, and after that it is the mean of the trailing w values |
| MonthlyReturns.GrowthConcat | src/framework/opt_dash.py:392-393 | The `product` of `1 + r` over a month distributes over concatenation of the rows |
| MonthlyReturns.GrowthOthers | src/framework/opt_dash.py:392-393 | Rows of other months leave a month's product at 1 |
| MonthlyReturns.GrowthZeroReturns | src/framework/opt_dash.py:393 | A month of zero returns compounds to growth 1 |
| MonthlyReturns.GrowthPositive | src/framework/opt_dash.py:393 | Returns above -100 percent give positive growth |
| MonthlyReturns.CompoundedAboveTotalLoss | src/framework/opt_dash.py:393 | The monthly return `100 * (prod(1 + r) - 1)` is then above -100 |
| MonthlyReturns.MonthKeys | src/framework/opt_dash.py:392-394 | The (year, month) groups are strictly ascending and are exactly the months of the rows |
| MonthlyReturns.MonthlyRowsAt | src/framework/opt_dash.py:392-394 | Each grouped row carries its key and the compounded return of its month |
| MonthlyReturns.MonthlyAt | src/framework/opt_dash.py:386-395 | Row k of the monthly table has the k-th month and that month's compounded return |
| MonthlyReturns.MonthlyAscending | src/framework/opt_dash.py:394 | The monthly table is sorted by year, then month, with one row per month |
| MonthlyReturns.MonthlyCovers | src/framework/opt_dash.py:392 | A month has a row exactly when some return falls in it |
| MonthlyReturns.Years | src/framework/opt_dash.py:399-404 | The heatmap years are strictly ascending and are exactly the years of the monthly rows |
| MonthlyReturns.FirstCell | src/framework/opt_dash.py:400 | Finds the first monthly row of a (year, month), the one `aggregate_function="first"` keeps, or reports none |
| MonthlyReturns.MonthCell | src/framework/opt_dash.py:400-407 | A grid cell is null exactly when no monthly row has that year and month |
| MonthlyReturns.MonthCellUnique | src/framework/opt_dash.py:400-407 | A cell with one row holds that row's monthly return |
| MonthlyReturns.HeatmapGrid | src/framework/opt_dash.py:404-407 | The loop returns the ascending years and one 12-cell list per year; cell j holds month j + 1 |
| MonthlyReturns.HeatmapYears | src/framework/opt_dash.py:399-404 | A year has a grid row exactly when some monthly row has that year |
| MonthlyReturns.HeatmapCellOfReturns | src/framework/opt_dash.py:386-407 | Each cell is the compounded return of its month when returns exist for that month, and null otherwise |
| InformationCoefficient.IcColumn | src/framework/opt_dash.py:448 | The `ic` column, row for row |
| InformationCoefficient.IcRatioNull | src/framework/opt_dash.py:446-450 | The IC IR is null exactly when fewer than two ICs are non-null or all non-null ICs are equal |
| InformationCoefficient.SummarizeIc | src/framework/opt_dash.py:446-450 | The IC mean is defined exactly when some IC is non-null and is their mean. IR is defined exactly for a non-zero deviation of at least two ICs, and times the deviation gives back the mean |
| InformationCoefficient.IcMeanDefined | src/framework/opt_dash.py:448 | The IC mean is null exactly when every IC is null |
| InformationCoefficient.IcByDate | src/framework/opt_dash.py:462 | `sort("date")` is a permutation in ascending date order |
| InformationCoefficient.CumulativeIc | src/framework/opt_dash.py:460-464 | One row per IC row, with the sorted row's date, in ascending order |
| InformationCoefficient.CumulativeIcIsRunningSum | src/framework/opt_dash.py:463 | The cumulative IC is the running sum of the non-null ICs up to the row, after `fill_null(0)` |
| InformationCoefficient.CumulativeIcStep | src/framework/opt_dash.py:463 | Each cumulative IC adds the row's IC, or 0 for a null, to its predecessor |
| Aggregates.SumFillNullZero | src/framework/opt_dash.py:463 | Summing after `fill_null(0)` equals summing the non-null values |
| Aggregates.FillNull | src/framework/opt_dash.py:463 | `fill_null(v)` replaces nulls by v and keeps every other cell |
| Aggregates.Mean | src/framework/ew_dash.py:258 | `mean` is defined exactly for a non-empty column, and times the count is the sum |
| Aggregates.SampleStd | src/framework/ew_dash.py:259 | `std` is defined exactly for two or more values, and is non-negative when `sqrt` is |
| Aggregates.SquaredDeviationAt | src/framework/ew_dash.py:259 | Each squared deviation is the square of the entry minus the centre |
| Aggregates.SquaredDeviationsZero | src/framework/ew_dash.py:259 | The squared deviations from a centre sum to zero exactly when every entry equals the centre |
| Aggregates.MeanOfConstant | src/framework/ew_dash.py:258 | The mean of a column whose entries are all equal is that entry |
| Aggregates.SampleStdSquare | src/framework/ew_dash.py:259 | The square of `std` is the sum of squared deviations from the mean divided by n - 1 (`ddof=1`) |
| Aggregates.SampleStdZero | src/framework/ew_dash.py:259 | `std` of two or more values is zero exactly when all of them are equal |
| Aggregates.Divide | src/framework/ew_dash.py:265 | A quotient is defined exactly for defined operands and a non-zero divisor, and times the divisor gives the dividend |
| Aggregates.Max | src/framework/production.py:130 | `max` bounds every entry and is one of them |
| Aggregates.Min | src/framework/production.py:129 | `min` is bounded by every entry and is one of them |
| Aggregates.CumMaxProperties | src/framework/production.py:181 | `np.maximum.accumulate` bounds the entry from above, is attained in the prefix, starts at the first entry and never decreases |
| Aggregates.CumSumSteps | src/framework/opt_dash.py:163 | `cum_sum` starts at the first entry and adds each next entry |
| Aggregates.ValuesMembers | src/framework/ew_dash.py:250 | The non-null values are exactly the values of the defined cells |
| Aggregates.ValuesEmpty | src/framework/ew_dash.py:250 | There are no non-null values exactly when every cell is null |
| Signals.NonNullAlpha | src/framework/research.py:31-34 | Every kept row has an alpha; each row with an alpha is kept as often as it occurs, the rest are dropped |
| Frames.FilterMembers | src/framework/ew_dash.py:44-46 | `filter` keeps exactly the rows satisfying the predicate |
| Frames.FilterMultiset | src/framework/ew_dash.py:44-46 | `filter` keeps each satisfying row exactly as often as it occurs |
| Frames.FilterConcat | src/framework/ew_dash.py:44-46 | `filter` keeps the row order |
| EwDash.SelectSignal | src/framework/ew_dash.py:43-77 | The filtered signal holds exactly the rows with an alpha whose date lies in the selected period |
| EwDash.SelectSignalPartition | src/framework/ew_dash.py:69-77 | Full Sample is the non-null-alpha table; In and Out of Sample are disjoint and together hold it exactly |
| QuantileTables.DropNulls | src/framework/ew_dash.py:149 | `drop_nulls` keeps the columns and exactly the dates whose cells are all non-null |
| QuantileTables.Column | src/framework/ew_dash.py:158-165 | The long rows of one value column: each date with the column's name and that date's cell |
| QuantileTables.Unpivot | src/framework/ew_dash.py:158-165 | Long row `k * dates + i` is date i with column k's name as quantile and its cell as return |
| QuantileTables.UnpivotLength | src/framework/ew_dash.py:158-165 | The long table has (value columns) times (dates) rows |
| QuantileTables.UnpivotCovers | src/framework/ew_dash.py:158-165 | Every long row is the cell of some (column, date) |
| QuantileTables.UnpivotBefore | src/framework/ew_dash.py:158-165 | With distinct column names, no long row before column k's block belongs to quantile k |
| QuantileTables.UnpivotBlock | src/framework/ew_dash.py:158-165 | Column k's block of the long table is that column's long rows |
| QuantileTables.QuantileSumConcat | src/framework/ew_dash.py:195 | The sum over one quantile distributes over concatenation of rows |
| QuantileTables.QuantileSumOthers | src/framework/ew_dash.py:195 | Rows of other quantiles contribute nothing to a quantile's sum |
| QuantileTables.CumSumAt | src/framework/ew_dash.py:195 | The running sum `cum_sum().over("quantile")` is null exactly at a null return |
| QuantileTables.CumSumOverQuantileAt | src/framework/ew_dash.py:195 | The cumulative column at row i is the running sum within row i's quantile |
| QuantileTables.CumSumOverQuantileFirst | src/framework/ew_dash.py:195 | A quantile's first row holds only its own term |
| QuantileTables.CumSumOverQuantileStep | src/framework/ew_dash.py:195 | Each later row adds its own term to the value of the quantile's previous row, skipping rows of other quantiles |
| QuantileTables.CumSumBlock | src/framework/ew_dash.py:195 | Inside a block of one quantile with no earlier rows of it, the running sum is the sum of the block prefix |
| QuantileTables.ColumnQuantileSum | src/framework/ew_dash.py:195 | Summed over a column's first i + 1 long rows, the terms are the column's first i + 1 cells |
| QuantileTables.CumSumOverUnpivot | src/framework/ew_dash.py:158-198 | On a complete table with distinct columns, the running sum at (column k, date i) is the sum of column k's first i + 1 cells |
| EwDash.PortsLongComplete | src/framework/ew_dash.py:145-165 | After `drop_nulls` and unpivot, there are (columns) times (complete dates) rows and every return is non-null |
| EwDash.CumulAt | src/framework/ew_dash.py:192-198 | A cumulative row keeps its long row's date and quantile, and is null exactly at a null return |
| EwDash.CumulativeReturnsAt | src/framework/ew_dash.py:192-198 | Row i of the table is the cumulative row of long row i |
| EwDash.CumulativeReturnsStep | src/framework/ew_dash.py:195 | Each cumulative return is its quantile's previous one plus `100 * log1p(return)`; other quantiles' rows do not affect it |
| EwDash.CumulAtValue | src/framework/ew_dash.py:195 | A row with a return gets the cumulative return `100 *` its quantile's running `log1p` sum |
| EwDash.CumulativeReturnsOfComplete | src/framework/ew_dash.py:158-198 | On a complete table, the cumulative row of (column k, date i) carries that date and column and `100 *` the sum of `log1p` over column k's first i + 1 cells |
| EwDash.CumulativeReturnsOfTable | src/framework/ew_dash.py:145-199 | End to end from the quantile table: `100 *` the running `log1p` sum of column k over the complete dates |
| EwDash.MetricInput | src/framework/ew_dash.py:249-252 | The metric input keeps only rows with a return and a quantile other than `bmk_return` |
| EwDash.MetricInputMembers | src/framework/ew_dash.py:249-252 | A row is in the metric input exactly when it has a return and is not the benchmark |
| EwDash.MetricsQuantileHasReturn | src/framework/ew_dash.py:249-277 | Every metrics row is a non-benchmark quantile with at least one non-null return |
| EwDash.ReturnHasMetrics | src/framework/ew_dash.py:249-277 | Every non-benchmark quantile with a non-null return has a metrics row |
| EwDash.MetricsAt | src/framework/ew_dash.py:256-268 | A quantile's row summarises that quantile's non-null returns, with 252 and sqrt(252), a Sharpe ratio of mean over deviation, the total return `exp(sum log1p) - 1` and the count |
| EwDash.MetricsObs | src/framework/ew_dash.py:249-262 | The `n_obs` of all rows add up to the number of metric-input rows |
| EwDash.NonNullCountAll | src/framework/ew_dash.py:261 | On rows with no null return, `count` is the row count |
| EwDash.SpreadSummary | src/framework/ew_dash.py:284-286 | The `spread` row exists exactly when the spread quantile has a non-null return, and holds its summary |
| QuantileMetrics.QuantileKeys | src/framework/ew_dash.py:256-277 | The metric groups are strictly ascending by name and are exactly the quantiles of the rows |
| QuantileMetrics.MetricsRowsAt | src/framework/ew_dash.py:256-268 | Row k carries the k-th key and the summary of that quantile's non-null returns |
| QuantileMetrics.MetricsTableAt | src/framework/ew_dash.py:256-277 | Row k of the metrics table is the k-th quantile with its summary |
| QuantileMetrics.MetricsTableSorted | src/framework/ew_dash.py:277 | The metrics are sorted by quantile name, one row per quantile |
| QuantileMetrics.MetricsTableCovers | src/framework/ew_dash.py:256 | A quantile has a row exactly when some input row belongs to it |
| QuantileMetrics.GroupCountsAddUp | src/framework/ew_dash.py:256-261 | Over distinct keys covering every row, the group counts add up to the non-null returns |
| QuantileMetrics.MetricsObsAddUp | src/framework/ew_dash.py:256-261 | The `n_obs` column adds up to the number of non-null returns: grouping loses and duplicates nothing |
| QuantileMetrics.FindQuantile | src/framework/ew_dash.py:284 | `filter(quantile == q)` finds a row of quantile q exactly when one exists |
| QuantileMetrics.FindQuantileInTable | src/framework/ew_dash.py:284-286 | Reading quantile q from the metrics gives the summary of its returns, and nothing when no row belongs to it |
| Statistics.LogSumConcat | src/framework/ew_dash.py:260 | The log-return sum distributes over concatenation |
| Statistics.LogSumForms | src/framework/research.py:207 | When `log1p(x) = log(1 + x)`, the two ways of writing the log give the same sum |
| Statistics.ExpLogSum | src/framework/ew_dash.py:264 | For returns above -100 percent, exp of the log sum is the compounded growth `prod(1 + r)` |
| Statistics.TotalReturnIsCompounded | src/framework/ew_dash.py:264 | The total return `exp(sum log) - 1` is `prod(1 + r) - 1` |
| Statistics.TotalReturnBounds | src/framework/ew_dash.py:264 | For returns above -100 percent the total return is above -1, and it is 0 for no returns |
| Statistics.Summarize | src/framework/ew_dash.py:257-268 | The count is the number of returns; return, volatility and Sharpe are defined exactly for one, two, and two with non-zero deviation |
| Statistics.SummarizeAnnualReturn | src/framework/ew_dash.py:266 | The annual return is the scale times the mean of the returns (whose value times the count is their sum) |
| Statistics.SummarizeSharpeNull | src/framework/ew_dash.py:259-265 | The Sharpe ratio is null exactly when there are fewer than two returns or all returns are equal |
| Statistics.SummarizeRatios | src/framework/ew_dash.py:264-267 | The volatility is the scale times the deviation, the Sharpe ratio times the deviation is the mean, and the total return is that of the returns |
| Research.DQLeTotalOrder | src/framework/research.py:144 | Date-then-quantile is a total order |
| Research.PerfKeys | src/framework/research.py:142-144 | The (date, quantile) groups are strictly ascending by date, then quantile, and are exactly those of the rows |
| Research.GroupReturnsEmpty | src/framework/research.py:143 | A group has no returns to average exactly when all its rows are null |
| Research.GroupReturnsSingle | src/framework/research.py:143 | A group of one row holds that row's return, if any |
| Research.GroupReturnsNone | src/framework/research.py:142 | A key without rows has no returns |
| Research.PerfRowsAt | src/framework/research.py:140-145 | Row k is the mean row of the k-th key |
| Research.QuantilePerfAt | src/framework/research.py:140-145 | Row k of `quantile_perf` is the k-th (date, quantile) group with its mean return |
| Research.PerfRowReturn | src/framework/research.py:143 | The mean is defined exactly when some row of the group has a return, and times the count is the sum |
| Research.QuantilePerfSorted | src/framework/research.py:144 | `quantile_perf` is sorted by date then quantile, one row per group |
| Research.QuantilePerfCovers | src/framework/research.py:142 | A (date, quantile) has a row exactly when some long row has it |
| Research.PerfOfSingleRow | src/framework/research.py:142-143 | A (date, quantile) that occurs once keeps that row's return |
| Research.CumulativeWealth | src/framework/research.py:154-163 | One row per input row with its date and quantile; row i is the wealth row of row i |
| Research.WealthAt | src/framework/research.py:157-160 | A wealth row keeps its row's date and quantile, and is null exactly at a null return |
| Research.QuantileSumIsLogSum | src/framework/research.py:157-160 | The grouped running sum of `log(1 + r)` is the log sum of that quantile's non-null returns so far |
| Research.WealthPositive | src/framework/research.py:160 | For returns above -100 percent the wealth index is positive |
| Research.WealthIsCompounded | src/framework/research.py:157-160 | For returns above -100 percent the wealth index is the compounded growth of the quantile's returns so far, with no "- 1" |
| Research.WealthFirst | src/framework/research.py:160 | A quantile's first wealth is `1 + r` |
| Research.WealthStep | src/framework/research.py:160 | Each later wealth is the quantile's previous wealth times `1 + r` |
| Research.ResearchMetricsAt | src/framework/research.py:204-230 | Row k is the k-th quantile, sorted, with the summary (log form, 252, sqrt(12)) of its non-null returns |
| Research.ResearchAnnualisation | src/framework/research.py:217-220 | The annual return is 252 times the mean, the annual volatility sqrt(12) times the deviation, and the Sharpe ratio times the deviation is the mean |
| Research.MetricsTotalIsFinalWealth | src/framework/research.py:157-217 | A quantile's total return is its final wealth index minus 1 |
| Production.Rets | src/framework/production.py:67 | The `ret` column, row for row |
| Production.CumulativeReturns | src/framework/production.py:64-73 | One row per input row, keeping its date and return, with the `cum_ret` of the row |
| Production.CumRetIsWealth | src/framework/production.py:70 | `1 + exp(cum log) - 1` is exp of the cumulative log return |
| Production.CumRetCompounded | src/framework/production.py:66-70 | For returns above -100 percent, `cum_ret` is the compounded growth of the returns so far |
| Production.CumRetPositive | src/framework/production.py:70 | For returns above -100 percent `cum_ret` is positive |
| Production.CumRetSteps | src/framework/production.py:66-70 | The first `cum_ret` is `1 + ret`, and each later one is the previous times `1 + ret` |
| Production.Performance | src/framework/production.py:125-143 | The single metrics row: `n_obs` is the count, `min_ret` and `max_ret` are defined exactly for a non-empty table |
| Production.PerformanceBounds | src/framework/production.py:129-130 | `min_ret` and `max_ret` bound every return and are returns |
| Production.PerformanceIsSummary | src/framework/production.py:125-143 | Total return, Sharpe ratio, annual return, volatility and count are those of the per-quantile summary with factors 12 and sqrt(12) |
| Production.PerformanceAnnualReturn | src/framework/production.py:141 | The annual return is 12 times the mean |
| Production.PerformanceAnnualVol | src/framework/production.py:142 | The annual volatility is sqrt(12) times the deviation |
| Production.PerformanceSharpeNull | src/framework/production.py:131-140 | The Sharpe ratio is null exactly when there are fewer than two rows or all returns are equal |
| Production.PerformanceSharpe | src/framework/production.py:140 | The Sharpe ratio is defined exactly for a non-zero deviation of two or more returns, and times it gives back the mean |
| Production.PerformanceTotalIsFinalWealth | src/framework/production.py:127-139 | `total_ret` is the last `cum_ret` minus 1, and 0 for an empty table |
| Production.Drawdown | src/framework/production.py:181-183 | One drawdown per wealth row, `(cum - running max) / running max` |
| Production.DrawdownBounds | src/framework/production.py:181-183 | On a positive wealth index the drawdown is defined, above -1 and at most 0, and is 0 exactly where the wealth equals its running maximum |
| Production.DrawdownFirst | src/framework/production.py:181-183 | The first drawdown is 0 |
| Production.MinOfCells | src/framework/production.py:210 | The minimum is defined exactly for a non-empty series without nulls, bounds every entry and is attained |
| Production.MaxDrawdownBounds | src/framework/production.py:210 | On a non-empty positive wealth index, `max_drawdown` is defined, above -1, at most 0, and is the drawdown of some row |
| Production.Calmar | src/framework/production.py:279 | A zero maximum drawdown gives a Calmar ratio of 0 |
| Production.CalmarScales | src/framework/production.py:279 | With a drawdown, Calmar times its depth is the annual return, so it is positive exactly when the annual return is |
| Production.CumRets | src/framework/production.py:181 | The `cum_ret` column, row for row |
| Production.PortfolioCalmarDefined | src/framework/production.py:275-289 | A non-empty portfolio of returns above -100 percent has a Calmar ratio, and it is 0 when there was no drawdown |

## Left out

- The `sf_quant` and `sf_backtester` calls are outside the model, and their outputs are inputs to it. These include quantile portfolio construction, returns from weights, alpha ICs, factor regressions, summary tables and backtest submission. Their code is not part of this model.
- Parquet reads and writes, file globbing, marimo widgets, toasts and `marimo.stop` are I/O and display. The cutoff date and the sample mode are parameters.
- Plotting cells, including the chart loops of the equal-weight and research notebooks, are display only.
- Floating point is left out: rounding, NaN and inf, and the NaN diagnostics of `opt_dash.py`. Arithmetic is over exact reals, and `exp`, `log`, `log1p` and `sqrt` stay abstract apart from the properties each lemma requires.
- Division by zero gives null in the model (`Aggregates.Divide`) instead of inf or NaN. The same holds for a zero peak in `Production.Drawdown`.
- Turnover.WeightsByDate: sorts by date only, not by `("date", "barrid")`. The per-asset previous row and the per-date sums do not depend on the barrid tiebreak, because one asset's rows have distinct dates and real sums are order-free.
- Polars' sorts of group keys are modelled as strictly ascending key lists. The row order inside a date (which is not stable in polars) is not claimed.
- MonthlyReturns heatmap: the `str(month)` pivot column naming is modelled as indexing by month number 1..12.
- EwDash.SpreadSummary: `.item()` at `ew_dash.py:285-286` raises when there is no `spread` row; the model gives None there instead of an error.
- OptDash: the `weight` cell of the weights file (`opt_dash.py:40`) and the `return` cell of the portfolio returns (`opt_dash.py:100`) are taken to be non-null reals. Polars' null propagation through `log1p`, `cum_sum` and `cum_max` (`opt_dash.py:163-164`, `opt_dash.py:225`) is not modelled.
- Turnover: the weights are taken to be non-null, so a null weight's effect on the `diff` (`opt_dash.py:340`) is not modelled. The null difference of an asset's first row is modelled.
- MonthlyReturns: the daily returns are taken to be non-null, so the way `product` at `opt_dash.py:393` skips nulls is not modelled.
- Returns at or below -100 percent are outside the model. There `log(1 + r)` is `-inf` or NaN, the source's wealth index is 0 and its total return is -1, while the model's `log` is unconstrained there. Every lemma about wealth, total return or the Calmar ratio requires returns above -100 percent.
- Production: the return column is taken to have no nulls, so `n_obs` is the row count. No null handling is modelled there. `min_ret` and `max_ret` of an empty table are null, as polars gives.
- Production.MinOfCells: as `Production.MaxDrawdown`, numpy's `drawdown.min()` at `production.py:210` raises ValueError on an empty table; the model gives None there instead of an error.
- Production.Drawdown: `production.py:182` calls `np`, which is not among the inputs of the cell at line 178. The marimo cell would raise a NameError. The model states the formula the cell was written to compute.
- Production.PortfolioCalmar: the guard `metrics is not None and max_drawdown is not None` becomes "both values defined". The formatting of the summary tables is display only.
- The running maximum in `Production.Drawdown` is written as the maximum of the prefix, which `Aggregates.CumMax` also defines. The numpy in-place accumulate is not modelled as a loop, because the source has none.
