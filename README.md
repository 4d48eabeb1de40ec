# Portfolio statistics helpers, modelled in Dafny

This project models the exact-arithmetic part of the statistics helpers in
`utils_stock.py`. They cover:

- turning a table of prices into a table of returns (`to_returns`);
- the maximum drawdown of a price series (`max_drawdown`);
- the conditional value at risk of a return series (`cvar`), read off
  pandas' linearly interpolated quantile;
- the return, annualised mean, compounded growth path, drawdown and CVaR
  of a weighted portfolio (`portfolio_stats`);
- the inputs `max_sharpe_weights` gives its solver: default bounds, an
  equal-weight start and the budget constraint;
- the conversion of an annual risk-free rate to a per-period one in
  `quick_max_sharpe_from_csv`.

Every quantity is an exact `real`. The modules follow the data flow:

| file | module | contents |
|---|---|---|
| `frames.dfy` | `Frames` | error kinds, `Result`, `Option` (pandas' NaN), the rectangular table `Frame` (rows are periods, columns are assets), column extraction |
| `series.dfy` | `Series` | sum, mean, product, min, max, insertion sort, the interpolated quantile, boolean filtering, `cummax`, `cumprod` |
| `returns.dfy` | `Returns` | per-series and per-table simple and log returns, `pct_change`, `log(...).diff()`, `dropna`, `to_returns`, and the round trip with compounding |
| `riskmetrics.dfy` | `RiskMetrics` | drawdown, `max_drawdown`, `cvar` |
| `portfolio.dfy` | `Portfolio` | `returns @ w`, the growth proxy `(1 + r).cumprod()`, the annualised mean, `portfolio_stats` |
| `optimizer.dfy` | `Optimizer` | the solver's default bounds and start, the budget constraint, the risk-free conversion |

These library behaviours are part of the model:

- A NaN result or cell is `None`. This covers the mean, minimum or quantile
  of an empty series, and the first row of `pct_change`.
- A library exception is an `Err` value:
  - `InvalidMethod` is the `ValueError` of `to_returns`.
  - `QuantileOutOfRange` is `Series.quantile` refusing a probability
    outside [0, 1].
  - `ShapeMismatch` is a matrix product with the wrong number of weights.
  - `ZeroDivision` is Python's `ZeroDivisionError`.
- `DataFrame.dropna()` removes every row that holds a NaN. A table with no
  columns therefore keeps all its rows, the first included.
- The natural logarithm used by the `"log"` method is a parameter
  `ln: real -> real`. Every statement made about log returns holds for
  any such function. `np.log` agrees with such a function only on
  positive prices, as noted under "## Left out".

## Model

| member | source | states |
|---|---|---|
| Returns.ToReturns | utils_stock.py:29-35 | the result is an error exactly when the method is neither "simple" nor "log", and then it is InvalidMethod; otherwise the table keeps the price table's columns and stays rectangular, and without dropna it keeps every period |
| Returns.SeriesReturns | utils_stock.py:26 | `r_t = P_t / P_{t-1} - 1` gives one return per period after the first; `Returns.ReturnsThenCompound` and `Returns.CompoundThenReturns` show it is inverted exactly by compounding from the first price |
| Returns.SimpleReturns | utils_stock.py:30 | the table of simple returns keeps the columns and is one period shorter; `Returns.SimpleReturnsByColumn` shows each column is `Returns.SeriesReturns` of that asset, `Returns.PctChangeCell` gives each cell, and `Returns.SimpleDropped` shows it is `pct_change().dropna()` |
| Returns.PctChangeCell | utils_stock.py:30 | pct_change is NaN in the first period and `P_t / P_{t-1} - 1` for every asset in every later one |
| Returns.LogDiffCell | utils_stock.py:32 | the log difference is NaN in the first period and `ln(P_t) - ln(P_{t-1})` for every asset in every later one |
| Returns.PctChange | utils_stock.py:30 | pct_change keeps the columns and the number of periods, and the table stays rectangular |
| Returns.LogDiff | utils_stock.py:32 | the log difference keeps the columns and the number of periods, and the table stays rectangular |
| Returns.DropNa | utils_stock.py:35 | dropna keeps the columns, never adds rows and keeps the table rectangular |
| Returns.CompleteRows | utils_stock.py:35 | each row dropna keeps is complete and an input row, and each complete input row is kept |
| Returns.CompleteRowsCount | utils_stock.py:35 | the rows dropna keeps are exactly the input rows without NaN, counted with multiplicity: each complete row as often as in the input, and no other row |
| Returns.DropsOnlyFirst | utils_stock.py:35 | an incomplete first row followed by complete rows loses exactly the first row to dropna |
| Returns.KeepsComplete | utils_stock.py:35 | a table with no NaN is unchanged by dropna |
| Returns.SimpleDropped | utils_stock.py:29-35 | with at least one asset, `to_returns(prices, "simple", dropna=True)` is exactly the table of simple returns, one period shorter than the prices |
| Returns.LogDropped | utils_stock.py:31-35 | with at least one asset, `to_returns(prices, "log", dropna=True)` is exactly the table of log returns under the logarithm `ln`, one period shorter |
| Returns.NoColumnsKeepsEveryRow | utils_stock.py:35 | with no asset columns, dropna keeps every period, including the first |
| Returns.SimpleReturnsByColumn | utils_stock.py:30 | each column of the simple-return table is the simple-return series of that asset's prices |
| Returns.LogReturnsByColumn | utils_stock.py:32 | each column of the log-return table is the log-return series of that asset's prices |
| Returns.ReturnsThenCompound | utils_stock.py:26 | compounding the simple returns from the first price, `P_0 * prod_{k<=t}(1 + r_k)`, gives back every price exactly |
| Returns.CompoundThenReturns | utils_stock.py:26 | the simple returns of a path compounded from a nonzero start by returns other than -100% are exactly those returns |
| Returns.ReturnsAboveMinusOne | utils_stock.py:26 | between positive prices every simple return is above -100% |
| Returns.SimpleReturnsAboveMinusOne | utils_stock.py:30 | from a table of positive prices every simple return is above -100% |
| Returns.LogReturnsTelescope | utils_stock.py:27 | the log returns of a series add up to `ln(P_last) - ln(P_first)` |
| Series.Min | utils_stock.py:73 | `Series.min()` is one of the values and at most every value |
| Series.Max | utils_stock.py:71 | the maximum is one of the values and at least every value |
| Series.CumMax | utils_stock.py:71 | entry t of `cummax` is the maximum of the first t+1 values |
| RiskMetrics.CumMaxDominates | utils_stock.py:71 | the running maximum is at least the current value and never decreases |
| RiskMetrics.CumMaxAttained | utils_stock.py:71 | the running maximum is one of the values so far and at least every one of them |
| RiskMetrics.CumMaxOfNonDecreasing | utils_stock.py:71 | on a series that never falls the running maximum is the series itself |
| RiskMetrics.MaxDrawdown | utils_stock.py:70-73 | the maximum drawdown is NaN exactly for an empty series |
| RiskMetrics.Drawdown | utils_stock.py:72 | one drawdown per period, and the first is always 0 because the first price is its own running maximum |
| RiskMetrics.MaxDrawdownAtMostZero | utils_stock.py:70-73 | whenever every running maximum is nonzero, the maximum drawdown of a nonempty series is at most 0, whatever the signs of the prices |
| RiskMetrics.MaxDrawdownBounds | utils_stock.py:70-73 | for positive prices every running maximum is nonzero and the maximum drawdown lies in (-1, 0] |
| RiskMetrics.MaxDrawdownZeroIff | utils_stock.py:70-73 | for positive prices the maximum drawdown is exactly 0 if and only if the series never falls |
| Series.Sort | utils_stock.py:79 | the order used by the quantile is sorted and a permutation of the sample |
| Series.SortEnds | utils_stock.py:79 | the sorted sample starts with the minimum and ends with the maximum |
| Series.Position | utils_stock.py:79 | the quantile position `(n-1)*p` lies in [0, n-1], and is 0 at p = 0 and n-1 at p = 1 |
| Series.InterpolateWithin | utils_stock.py:79 | linear interpolation on a sorted sample stays between its first and last entries and hits them at the two ends |
| Series.Quantile | utils_stock.py:79 | `quantile(p)` reads the sorted sample linearly interpolated at rank `(n-1)*p` and lies between the minimum and the maximum; `Series.QuantileWithinRange` and `RiskMetrics.TailSize` pin it down further |
| Series.QuantileWithinRange | utils_stock.py:79 | the quantile lies between the minimum and the maximum, equals the minimum at p = 0 and the maximum at p = 1 |
| Series.AtOrBelow | utils_stock.py:80 | `s[s <= q]` holds only values at most q, and every value at most q as often as the sample does |
| RiskMetrics.CVaR | utils_stock.py:75-81 | the result is an error exactly when `1 - alpha` is outside [0, 1], and then it is QuantileOutOfRange; otherwise it is NaN exactly for an empty series |
| RiskMetrics.TailNonEmpty | utils_stock.py:79-80 | the minimum is in the tail, so the tail is never empty |
| RiskMetrics.TailSize | utils_stock.py:79-80 | the tail holds at least `floor((n-1)*p) + 1` observations |
| RiskMetrics.TailLoss | utils_stock.py:80-81 | `-tail.mean()` lies between minus the quantile and minus the worst return |
| RiskMetrics.CVaRBounds | utils_stock.py:75-81 | for a nonempty series the CVaR is a number between minus the quantile and minus the worst return |
| RiskMetrics.CVaRReportsLossAsPositive | utils_stock.py:76-81 | when the quantile is a loss, the CVaR is positive |
| RiskMetrics.CVaROfOneObservation | utils_stock.py:76-81 | a single return `x` is reported as the loss `-x`, so a tail mean of -0.02 reads 0.02 |
| Portfolio.Dot | utils_stock.py:88 | the inner product of one period's returns with the weights; it has no contract of its own, and `Portfolio.DotUnit` with `Portfolio.DotAdd` determines its value on every input |
| Portfolio.DotUnit | utils_stock.py:88 | a return vector that is zero except at asset `k` earns exactly `a[k] * w[k]` |
| Portfolio.DotAdd | utils_stock.py:88 | the inner product distributes over adding two return vectors |
| Portfolio.DotScale | utils_stock.py:88 | dividing every return by `d` divides the inner product by `d` |
| Portfolio.DotAtLeast | utils_stock.py:88 | with non-negative weights and every return at least `m`, the inner product is at least `m` times the weight total |
| Portfolio.PortfolioReturns | utils_stock.py:88 | `returns @ w` has one entry per period |
| Portfolio.PortfolioAboveMinusOne | utils_stock.py:88 | with non-negative weights summing to one and no asset return of -100% or worse, no portfolio return is -100% or worse |
| Portfolio.SumOfPortfolioReturns | utils_stock.py:88 | the portfolio returns add up to the weighted sum of the column sums |
| Portfolio.MeanIsWeightedColumnMeans | utils_stock.py:88-89 | the mean portfolio return is the weighted sum of the assets' mean returns |
| Portfolio.AnnualizedReturn | utils_stock.py:89 | the annualised return is NaN exactly for an empty series |
| Portfolio.AnnualizedReturnIsWeighted | utils_stock.py:88-89 | the annualised portfolio return is the weighted sum of the assets' mean returns times the periods per year |
| Portfolio.GrowthProxy | utils_stock.py:93 | `(1 + port_ret).cumprod()` has one value per period; `Portfolio.GrowthProxyStep` gives its recurrence and `Portfolio.GrowthProxyReturns` shows its simple returns are the portfolio returns |
| Portfolio.GrowthProxyStep | utils_stock.py:93 | the growth proxy starts at `1 + r_0`, and each later entry is the previous one times `1 + r_t` |
| Portfolio.GrowthProxyReturns | utils_stock.py:92-93 | with one unit put in front, the growth proxy is a price path whose simple returns are exactly the portfolio returns |
| Portfolio.GrowthProxyPositive | utils_stock.py:93 | when no return is -100% or worse the growth proxy stays positive |
| Portfolio.ProxyDrawdownBounds | utils_stock.py:93-94 | the drawdown of that proxy is defined and its maximum lies in (-1, 0] |
| Portfolio.PortfolioStats | utils_stock.py:83-97 | the statistics are an error exactly when the weight count differs from the column count, and then it is ShapeMismatch; otherwise each statistic is NaN exactly for an empty return table |
| Portfolio.StatsOfFullyInvested | utils_stock.py:83-97 | for non-negative weights summing to one over nonempty returns above -100%, the statistics are numbers, the maximum drawdown lies in (-1, 0], and the CVaR lies between minus the 5% quantile and minus the worst portfolio return |
| Optimizer.DefaultBounds | utils_stock.py:116-117 | one default bound per asset |
| Optimizer.EqualWeights | utils_stock.py:118-119 | one starting weight per asset |
| Optimizer.SolverSetup | utils_stock.py:115-119 | given bounds and start are used unchanged; missing ones are filled in with one entry per asset |
| Optimizer.BudgetResidual | utils_stock.py:125 | the equality constraint `np.sum(w) - 1.0` is 0 exactly when the weights sum to one |
| Optimizer.DefaultStartFeasible | utils_stock.py:116-125 | for n > 0 the start `1/n` lies within the bounds (0, 1), is non-negative, and meets the budget constraint `sum(w) - 1 == 0` exactly |
| Optimizer.DefaultSetupFeasible | utils_stock.py:115-125 | without bounds or start the setup is the default one, and its start lies within its bounds and meets the budget constraint |
| Optimizer.EqualWeightsAverage | utils_stock.py:119 | weighting by `ones(n)/n` is taking the mean |
| Optimizer.EqualWeightPortfolioReturns | utils_stock.py:119 | the equal-weight portfolio earns, in every period, the mean of the assets' returns |
| Optimizer.DefaultStartStats | utils_stock.py:118-123 | at the default start over nonempty returns above -100%, the statistics the objective reads are numbers, and the maximum drawdown lies in (-1, 0] |
| Optimizer.QuickStatsAtDefaultStart | utils_stock.py:136-140 | from positive prices, `to_returns(..., dropna=True)` is the simple-return table, and the statistics at the default start are numbers with a maximum drawdown in (-1, 0] |
| Optimizer.RfPerPeriod | utils_stock.py:138 | the conversion fails exactly for zero periods per year, with ZeroDivision; otherwise the per-period rate annualises back to the annual rate |

## Left out

- `load_prices_csv` (utils_stock.py:11-21): CSV reading, date parsing and index sorting are I/O, and the model starts from a table of prices.
- `annualize_mean_vol`, `sharpe_ratio`, and the `ann_vol` and `sharpe` entries of `portfolio_stats`: they need the square root of a variance. The `1e-12` guard only matters for floating point.
- `cagr_from_prices`: it needs calendar arithmetic on timestamps and a real power.
- The `RiskStats` dataclass: nothing fills it in.
- The SLSQP call in `max_sharpe_weights` and its objective `neg_sharpe`: the scipy solver is a foreign call with only numerical guarantees. Only the bounds, starting point and constraint it receives are modelled.
- `quick_max_sharpe_from_csv` apart from the risk-free conversion: the rest is orchestration and formatting of a pandas Series. `Optimizer.QuickStatsAtDefaultStart` states what its pipeline gives at the starting point.
- `np.log`: it is a parameter `ln`, so nothing about logarithms themselves is proved.
- Returns.LogDropped: `np.log` gives `-inf` for a zero price and NaN for a negative one. The NaN cells this produces, and the extra rows dropna then removes, are not modelled. The lemma holds for a total `ln`, which matches `np.log` on positive prices.
- IEEE-754 floating point: every quantity is an exact real, so rounding, overflow, infinities and NaN from division are not modelled.
- Returns.ToReturns: the "simple" method requires every divisor price to be nonzero. The source then yields infinities or NaN, which exact reals cannot hold.
- Returns.PctChange: pandas' `fill_method` forward-filling of missing prices is not modelled, because prices here have no missing cells.
- RiskMetrics.Drawdown, RiskMetrics.MaxDrawdown: require every running maximum to be nonzero. Where a running maximum is 0 the price is at most 0. A zero price gives NaN (0/0), which `min()` skips. A negative price gives `-inf`, which then becomes the result. The model covers neither case.
- Portfolio.PortfolioStats: requires every running maximum of the growth proxy to be nonzero, which fails only when the first portfolio return is -100% or worse. Where it is 0 the source divides 0 by 0, `min()` skips those periods, and the drawdown is NaN only when every period is such a case. `Portfolio.ProxyDrawdownBounds` shows the requirement holds whenever no portfolio return is -100% or worse.
- Portfolio.PortfolioStats: it takes a table of real returns, so a return table with NaN cells (`to_returns` without dropna) is outside the model. So is pandas' NaN-skipping mean.
- Portfolio.PortfolioStats: it has no `rf` parameter, because in the source `rf` only feeds the Sharpe ratio.
- Portfolio.GrowthProxy: as in the source, the proxy starts at `1 + r_0` rather than at 1. A loss in the first period is therefore never counted as drawdown (`Portfolio.GrowthProxyStep`).
- Series.Quantile: only pandas' default linear interpolation is modelled, not the other `interpolation` modes.
