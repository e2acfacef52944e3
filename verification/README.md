# Price-series statistics, modelled in Dafny

This project models the statistics engine of a small Python finance library.
`PriceSeries` holds an ordered list of prices and derives these statistics from it:

- linear and log returns;
- total return;
- annualised volatility and return, and the Sharpe ratio;
- the drawdown at a time index, and the maximum drawdown.

`Asset` validates a ticker, normalises it and wraps one series.

Prices are an immutable `seq<real>`. Every statistic is a pure function. Each Python
exception becomes an `Err` of `Results.Result`: `IndexError`, `ZeroDivisionError`,
the `ValueError` of `math.log`, "Not enough data points", and the two construction
errors. The maximum drawdown has two versions. One is a recursive scan (`Drawdowns.Scan`).
The other is a loop (`Drawdowns.ComputeMaxDrawdown`). Both are proved equal to the
smallest `drawdown_at(t)` over all indices.

Modules:

- `Results`: the error kinds, `Result` and `Option`.
- `Text`: ASCII `str.isspace`, `str.strip` and `str.upper`.
- `Sums`: `sum`, the mean and squared deviations.
- `PriceSeries`: the class `PriceSeries` of `priceseries.py`.
- `Drawdowns`: the module-level `max_drawdown` of `priceseries.py`.
- `Assets`: the `Asset` constructor and two of its properties, from `asset.py`.

`math.log` and `math.sqrt` are given to the model as parameters `ln` and `sqrt`.
No numeric behaviour is assumed of them. A lemma that needs a property states it as a
precondition:

- `IsLogarithm`: `ln(a*b) == ln(a) + ln(b)` for positive `a` and `b`.
- `VanishesOnlyAtZero`: for `x >= 0`, `sqrt(x) == 0` exactly when `x == 0`.

Three points of Python's behaviour that the model follows exactly:

- Division by a zero price raises `ZeroDivisionError`. Python float division does this;
  it does not return infinity or NaN. This affects `linear_return`, `total_return`,
  `log_return` and the lists built from them. The model returns `Err(ZeroDivision)`.
  A list comprehension raises at its first failing element, so the error of
  `get_all_log_returns` and of the statistics built on it is that of the first bad step.
- `max_drawdown` is defined at module level (`priceseries.py:102`), not as a method. It is
  modelled as a function of the series.
- `drawdown_at` falls back to 0.0 only when the peak is exactly zero. `max_drawdown` skips
  every peak `<= 0`. This difference never changes the result. The drawdown against a
  negative peak is non-negative, and the drawdown at index 0 is always 0. So the two agree
  on every non-empty series, negative prices included (`Drawdowns.MaxDrawdown`).
  Non-negative prices are needed only for the bound `max_drawdown >= -1`.

## Model

| member | source | states |
|---|---|---|
| `PriceSeries.Make` | priceseries.py:18-20 | the series has as many values as its input, each equal to the input's at the same index, and keeps the name, `"unnamed"` when none is given |
| `PriceSeries.Length` | priceseries.py:30-31 | `len(series)` is the exact bound of the valid indices: every index below it reads a price, and reading at it raises IndexError |
| `PriceSeries.LinearReturn` | priceseries.py:32-34 | IndexError exactly when `t < 1` or `t >= len`; ZeroDivisionError exactly when the earlier price is 0; success exactly when `1 <= t < len` and the earlier price is non-zero, with `v[t-1] * (1 + r) == v[t]` |
| `PriceSeries.LinearReturnAsWritten` | priceseries.py:32-34 | the method with Python indexing: IndexError exactly when `t <= -len` or `t >= len`; otherwise ZeroDivisionError exactly when `values[t-1]` is 0, and success with `values[t-1] * (1 + r) == values[t]`, negative indices counting from the end |
| `PriceSeries.LinearReturnAsWrittenAgrees` | priceseries.py:32-34 | for `1 <= t < len` the code as written and the guarded model return the same |
| `PriceSeries.LinearReturnAsWrittenWrapsAtZero` | priceseries.py:32-34 | at `t = 0` the guarded model raises IndexError, but the code returns the return from the last price to the first |
| `PriceSeries.CollectReturns` | priceseries.py:47-53 | the comprehension over `range(1, k)` succeeds iff every element does; it then has `k-1` elements, element `i` being the value at `i+1`; a failure is the error of the first failing element, all before it succeeding |
| `PriceSeries.AllLinearReturns` | priceseries.py:47-49 | succeeds iff no price before the last is 0, else raises ZeroDivisionError; length `max(n-1, 0)`; element `i` is `linear_return(i+1)` |
| `PriceSeries.TotalReturn` | priceseries.py:40-45 | 0.0 for fewer than two prices; otherwise ZeroDivisionError iff the first price is 0, else `v[0] * (1 + r) == v[n-1]` |
| `PriceSeries.TotalReturnCompoundsLinearReturns` | priceseries.py:40-49 | `1 + total_return` is the product of `1 + linear_return(t)` over all steps |
| `PriceSeries.ReturnsScenario` | priceseries.py:32-45 | prices 100, 102, 101, 105, 103 give total return 0.03 and `linear_return(1) == 0.02` |
| `PriceSeries.LogReturn` | priceseries.py:36-38 | IndexError exactly outside `1 <= t < len`; ZeroDivisionError iff the earlier price is 0; math.log's ValueError when the earlier price is non-zero and the ratio is not positive; success iff both prices have the same strict sign, with value `ln(v[t]/v[t-1])` |
| `PriceSeries.LogReturnAsWritten` | priceseries.py:36-38 | the method with Python indexing: IndexError exactly when `t <= -len` or `t >= len`; otherwise ZeroDivisionError exactly when `values[t-1]` is 0, the math domain error when the ratio is not positive, and success with `ln(values[t]/values[t-1])` |
| `PriceSeries.LogReturnAsWrittenAgrees` | priceseries.py:36-38 | for `1 <= t < len` the code as written and the guarded model return the same |
| `PriceSeries.LogReturnAsWrittenWrapsAtZero` | priceseries.py:36-38 | at `t = 0` the guarded model raises IndexError, but the code returns `ln(v[0]/v[n-1])` |
| `PriceSeries.AllLogReturns` | priceseries.py:51-53 | succeeds iff every pair of neighbouring prices has the same strict sign; otherwise the error of the first step whose prices differ in sign: ZeroDivisionError if its earlier price is 0, else the math domain error; length `max(n-1, 0)`; element `i` is `log_return(i+1)` |
| `PriceSeries.FirstFailingLogReturnWins` | priceseries.py:51-91 | on prices 1, -1, 0, 5 the log returns, the volatility and the Sharpe ratio all raise math.log's ValueError from step 1, not ZeroDivisionError from step 2 |
| `PriceSeries.SampleVariance` | priceseries.py:58-61 | the variance with denominator `n-1` is never negative, so `math.sqrt` is never given a negative number |
| `PriceSeries.AnnualizedVolatility` | priceseries.py:54-64 | "Not enough data points" exactly for fewer than three prices; otherwise it fails iff the log returns fail, with their error, and succeeds with `sqrt(variance) * sqrt(252)` |
| `PriceSeries.AnnualizedReturn` | priceseries.py:66-73 | "Not enough data points" for fewer than two prices; otherwise it fails iff the log returns fail; the value times `n-1` is 252 times the sum of the log returns |
| `PriceSeries.SharpeRatio` | priceseries.py:75-91 | the risk-free rate defaults to 0.0; volatility comes first, so fewer than three prices fail even where the annualised return exists; succeeds iff the volatility does; 0.0 when the volatility is 0; otherwise `r * vol == annualized_return - rf` |
| `PriceSeries.LogReturnsSumToLogGrowth` | priceseries.py:36-53 | when `ln` is a logarithm, the log returns add up to `ln(1 + total_return)` |
| `PriceSeries.AnnualizedReturnFromEndpoints` | priceseries.py:66-73 | when `ln` is a logarithm, `annualized_return * (n-1) == ln(v[n-1]/v[0]) * 252`, which depends only on the first and last prices |
| `PriceSeries.VolatilityZeroIffVarianceZero` | priceseries.py:58-64 | when `sqrt` is zero only at zero, the volatility is 0 exactly when the sample variance of the log returns is 0 |
| `PriceSeries.SharpeRatioOfConstantLogReturns` | priceseries.py:87-89 | equal log returns give a volatility of 0 and a Sharpe ratio of exactly 0.0 |
| `PriceSeries.SharpeRatioOfConstantSeries` | priceseries.py:54-91 | a constant non-zero series of at least three prices has a Sharpe ratio of 0.0 for any `ln` and risk-free rate |
| `PriceSeries.PrefixMax` | priceseries.py:97 | `max(values[:t+1])` is at least every price up to `t` and equal to one of them |
| `PriceSeries.Drawdown` | priceseries.py:97-100 | 0 when the peak is 0; otherwise the price is the peak times `1 + d`; 0 at a new peak; within `[-1, 0]` under a positive peak with a non-negative price; non-negative under a negative peak |
| `PriceSeries.DrawdownAt` | priceseries.py:92-100 | IndexError exactly when `t < 0` or `t >= len`, the drawdown at `t` otherwise |
| `Drawdowns.Scan` | priceseries.py:104-113 | if the running peak and minimum hold the loop invariant at step `i`, the scan ends with the minimum drawdown over the whole series |
| `Drawdowns.MaxDrawdown` | priceseries.py:102-113 | IndexError exactly on an empty series; otherwise at most 0, at most every `drawdown_at(t)`, and equal to one of them |
| `Drawdowns.ComputeMaxDrawdown` | priceseries.py:102-113 | the loop as written returns exactly what the scan returns: IndexError on an empty series, otherwise the smallest `drawdown_at(t)`, which is at most 0 |
| `Drawdowns.MaxDrawdownOfNonDecreasing` | priceseries.py:102-113 | a series that never falls has maximum drawdown exactly 0.0 |
| `Drawdowns.MaxDrawdownZeroIffNonDecreasing` | priceseries.py:102-113 | for strictly positive prices, the maximum drawdown is 0.0 exactly when the series never falls |
| `Drawdowns.MaxDrawdownAtLeastMinusOne` | priceseries.py:92-113 | with non-negative prices the maximum drawdown is at least -1 |
| `Drawdowns.WorstDropScenario` | priceseries.py:102-113 | prices 100, 90, 95, 80, 120 give maximum drawdown -0.20, the drop of 80 below the peak 100 |
| `Sums.ConstantHasZeroVariance` | priceseries.py:58-61 | a constant sequence has mean equal to its elements and zero squared deviation from it |
| `Text.StripEmptyIff` | asset.py:38-39 | `ticker.strip()` is empty exactly when the ticker is empty or all whitespace |
| `Text.Upper` | asset.py:43 | `upper()` keeps the length, maps each character on its own, and leaves no lower-case letter |
| `Text.UpperIdempotent` | asset.py:43 | upper-casing twice is upper-casing once |
| `Text.UpperKeepsBlank` | asset.py:38-43 | upper-casing neither creates nor removes whitespace, so the stored ticker is non-blank |
| `Assets.NewAsset` | asset.py:18-46 | the sector defaults to none and the currency to USD; an empty or whitespace-only ticker fails, and this is checked before the prices; otherwise an empty series fails; on success the ticker is upper-cased, prices, sector and currency are stored unchanged, and the asset is valid |
| `Assets.CurrentPrice` | asset.py:56-59 | for a valid asset the current price is one of the series' prices; it is the only price of a one-price series; it is the first price grown by the total return |
| `Assets.TotalReturn` | asset.py:66-68 | the asset's total return is its series' total return; the current price is the first price times `1 + total_return` |
| `Assets.CurrentPriceOfNewAsset` | asset.py:38-59 | construction from a non-blank ticker and a non-empty list succeeds, and the asset's current price is the last price given |
| `Assets.NewAssetIdempotent` | asset.py:38-46 | rebuilding a valid asset from its own fields gives the same asset |
| `Assets.BlankTickersRejected` | asset.py:38-41 | `""` and `"   "` are rejected as tickers; `"AAPL"` with no prices is rejected for the empty series |

## Findings

| source | as written | input that shows it | evidently intended | confidence | as-written member | corrected member |
|---|---|---|---|---|---|---|
| priceseries.py:32-34 | `linear_return(t)` reads `values[t-1]` without checking `t >= 1` | `t = 0` on prices `[100, 200]`: `values[-1]` is 200, so the result is `(100-200)/200 = -0.5` and no error is raised | an IndexError, since no price comes before time 0 | medium, not executed | `PriceSeries.LinearReturnAsWritten` | `PriceSeries.LinearReturn` |
| priceseries.py:36-38 | `log_return(t)` reads `values[t-1]` without checking `t >= 1` | `t = 0` on prices `[100, 200]`: the result is `ln(100/200)` and no error is raised | an IndexError, since no price comes before time 0 | medium, not executed | `PriceSeries.LogReturnAsWritten` | `PriceSeries.LogReturn` |

## Left out

- Numeric values of `math.log` and `math.sqrt`: they are parameters, as described above.
  Only the guards, the fallbacks and the order of evaluation are proved.
- IEEE floating point: prices are reals. Rounding, NaN, infinities and `-0.0` are not
  modelled.
- `__repr__` and `__str__` of both classes: they only format text.
- `Asset.correlation_with` (asset.py:80-89): it has a docstring but no body.
- The `volatility`, `sharpe_ratio` and `max_drawdown` properties of `Asset`
  (asset.py:61-78) are not modelled. They only delegate. As written they cannot work:
  - they are nested inside `__init__`;
  - `volatility` calls `get_annualized_volatility`, which does not exist;
  - `max_drawdown` calls a method the series does not have.
- `Assets.CurrentPrice` and `Assets.TotalReturn` model the intended properties.
  As written, `current_price` and `total_return` are also nested inside `__init__`
  (asset.py:56-68).
- `PriceSeries.LinearReturn` and `PriceSeries.LogReturn` follow the intended index range.
  Python's wrap-around for negative indices is modelled only in the as-written members.
- `PriceSeries.VolatilityZeroIffVarianceZero` stops at the variance. It does not go on to
  "zero variance means all log returns are equal". `SharpeRatioOfConstantLogReturns`
  proves only the direction from equal log returns to zero volatility.
- `Text.Upper` and `Text.StripEmptyIff` cover ASCII only. A non-ASCII character is never
  whitespace and is left unchanged by `Upper`. Python's Unicode rules, such as `'ß'`
  becoming `"SS"`, are not modelled.
- The `CurrencyEnum` of pyvest/source/constant.py is the datatype `Assets.Currency`. It has
  no behaviour, and the string values of its members are not modelled.
- A Python list can be mutated after construction. Here a series is an immutable value, so
  both the defensive copy in `__init__` and the composition of `Asset` with its series hold
  by construction.
