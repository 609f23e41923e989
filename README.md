# Portfolio research core, modelled in Dafny

This project models the numerical core of a quantitative-investment research
toolkit. The toolkit forecasts an asset's return path with an ARIMA model chosen
by grid search, builds mean-variance inputs and an efficient frontier, and
backtests weighted portfolios against a benchmark. It also has a secondary LSTM
forecaster and a chronological train/test splitter. One Dafny module covers each
part:

| module | file | models |
|---|---|---|
| `Backtest` | `backtest.dfy` | `Backtester`: the window slice, the day-by-day sleeve simulation with optional monthly rebalancing, the daily and cumulative return series, annualized statistics, and the benchmark check in `run` |
| `Arima` | `arima.dfy` | `ARIMAModel`: the exhaustive (p, d, q) grid search by AIC with its fallback order, `fit`, `forecast` and `forecast_with_ci` |
| `Forecast` | `forecast.dfy` | `ARIMAForecaster`: the implicit fit, the defaults for steps and alpha, the future business-day index, and price reconstruction by compounding |
| `Optimizer` | `optimizer.dfy` | `PortfolioOptimizer`: annualized expected returns (with the TSLA forecast override), the covariance sample window, and the efficient-frontier sweep |
| `Lstm` | `lstm.dfy` | `LSTMModel`: windowing, `fit`, and the recursive rolling-window forecast |
| `Splits` | `splits.dfy` | `TimeSeriesSplitter.split` |
| `Seqs`, `Wrappers` | `seqs.dfy`, `wrappers.dfy` | shared sequence functions (sum, filter, stable sort, dropping missing values) and `Option`/`Result` |

Conventions used throughout:

- Prices and returns are exact `real`s.
- A missing or NaN cell is `None` in an `Option<real>`.
- A date is a proleptic Gregorian ordinal, with day 1 = 0001-01-01 as in
  Python's `date.toordinal`. So 2024-08-01 is 739099, 2025-07-31 is 739463,
  2023-12-31 is 738885 and 2024-01-01 is 738886. Monday is weekday 0.
- Pandas frames are sequences of dated rows that map column names to optional
  values.
- Sorting is a stable insertion sort. Its contracts promise only that the
  result is in order and is a permutation of the input.
- Everything the code gets from a library or from outside becomes a parameter:
  - statsmodels' fit and its forecasts (`Arima.Estimator`);
  - the QP solver of `EfficientFrontier` (`Optimizer.Solver`);
  - Keras (`Lstm.Keras`, `Lstm.Net`; `Lstm.Training` is the network `model.fit` leaves, whether it returned or raised);
  - whether TensorFlow imported (`tfAvailable`);
  - reading the forecast CSV (`Optimizer.ForecastSource`);
  - the calendar month of a date (`monthOf`).
- Objects whose methods update their fields (`ARIMAModel`, `ARIMAForecaster`,
  `LSTMModel`) are classes. Each of their methods states the new state of every
  field it changes.

Behaviour of the code worth knowing:

- The order search makes a single plain `fit()` per candidate. There is no
  iteration budget and no convergence retry.
- A failure of the final fit propagates as the library's own exception
  (`FitRaised`). There is no dedicated "every candidate failed" error.
- The AIC comparison is IEEE `<` against an initial +inf. So NaN scores never
  win, and a -inf score would.
- The Sharpe ratio is defined exactly when the annual volatility is `> 0`.
- The benchmark's missing tickers are checked after the strategy has been
  simulated, not before any simulation.
- Weights are never validated. A zero weight sum is not turned into an error.

## Model

| member | source | states |
|---|---|---|
| Backtest.NewBacktester | src/backtest/backtester.py:23-26 | the stored matrix is the input's rows in ascending date order, a permutation of them with the same columns; a missing config is replaced by the defaults (2024-08-01 to 2025-07-31, no rebalancing, 4.5% risk-free) |
| Backtest.NewBacktesterWellFormed | src/backtest/backtester.py:23-25 | sorting keeps every row complete for every column |
| Backtest.ToPeriod | src/backtest/backtester.py:28-30 | the slice keeps the columns, and every kept row is dated within [start, end] inclusive |
| Backtest.ToPeriodSlice | src/backtest/backtester.py:28-30 | on a date-sorted matrix, a row is kept exactly when it is in the matrix and dated within both bounds, and the slice stays sorted |
| Backtest.ToPeriodWellFormed | src/backtest/backtester.py:28-30 | slicing keeps every row complete |
| Backtest.Normalize | src/backtest/backtester.py:36-37 | each target weight is divided by the sum of all of them; defined for a nonzero sum and for no weights at all, where numpy divides an empty array without error |
| Backtest.NormalizeSumsToOne | src/backtest/backtester.py:36-37 | normalized weights sum to one |
| Backtest.NormalizeScaleInvariant | src/backtest/backtester.py:36-37 | multiplying all weights by the same nonzero factor leaves the normalized weights unchanged |
| Backtest.Grow | src/backtest/backtester.py:46 | each sleeve is multiplied by one plus its asset's return on that day |
| Backtest.Step | src/backtest/backtester.py:44-53 | processing one row keeps one sleeve per weight, appends exactly one value to the path without touching earlier values, and remembers this row's month |
| Backtest.Walk | src/backtest/backtester.py:40-53 | after n rows there is one sleeve per weight and one recorded value per row (what each value and sleeve is: `RowSemantics`) |
| Backtest.Bars | src/backtest/backtester.py:34-44 | one bar per row of the window, carrying that row's month and one return per weighted ticker |
| Backtest.RowSemantics | src/backtest/backtester.py:44-53 | processing row t records the sum of the grown sleeves as the value of day t and leaves earlier values untouched; the sleeves are reset to value x target weight exactly when the policy is monthly and row t's month differs from row t-1's, and otherwise stay as grown |
| Backtest.WalkLastMonth | src/backtest/backtester.py:42-53 | after n rows the remembered month is that of row n-1 (row 0's before any row) |
| Backtest.RebalancePreservesValue | src/backtest/backtester.py:46-52 | with weights summing to one, the sleeves always sum to the last recorded value, so a rebalance neither creates nor destroys value |
| Backtest.NoResetWithoutRebalance | src/backtest/backtester.py:46-53 | without rebalancing, or within a single month, each row only compounds each sleeve by its return |
| Backtest.WalkHeld | src/backtest/backtester.py:40-53 | without rebalancing, sleeve i after n rows is its starting weight compounded through rows 0..n-1 |
| Backtest.HeldIsScaledGrowth | src/backtest/backtester.py:46 | compounding is linear in the starting value: a sleeve started at w is w times the sleeve started at 1 (the asset's growth factor) |
| Backtest.BuyAndHold | src/backtest/backtester.py:40-53 | without rebalancing (or within one month), every sleeve is its starting weight compounded by its own asset's returns alone, never mixed with the other sleeves |
| Backtest.PoliciesAgreeWithinMonth | src/backtest/backtester.py:51-53 | within one calendar month the monthly policy never fires, so both policies produce the same sleeves and values |
| Backtest.WalkEmpty | src/backtest/backtester.py:44-48 | with no weights, every recorded value is the empty sum 0 |
| Backtest.EmptyWeightsFlat | src/backtest/backtester.py:34-57 | an empty weight dictionary simulates to a daily series of zeros (each 0/0 change is filled with 0) |
| Backtest.DailyReturns | src/backtest/backtester.py:55-57 | the first daily return is 0, and each later one is the percent change from the previous value (0/0 filled with 0, x/0 non-finite) |
| Backtest.PctChange | src/backtest/backtester.py:57 | a day's change is finite exactly when the previous value is nonzero or both are zero, and then compounding the previous value by it gives back the current value (pct_change inverts compounding) |
| Backtest.SimulatedDaily | src/backtest/backtester.py:32-58 | the daily series has one entry per row and starts at 0 |
| Backtest.SimulatePath | src/backtest/backtester.py:32-58 | the imperative loop produces exactly the specified daily series, of the window's length and starting at 0 |
| Backtest.SimulationScaleInvariant | src/backtest/backtester.py:36-37 | scaling all target weights by a nonzero factor does not change the simulated daily returns |
| Backtest.CumulativeFromAt | src/backtest/backtester.py:93 | each cumulative entry is the previous one times one plus that day's return, and a missing value stays missing from then on |
| Backtest.CumulativeAt | src/backtest/backtester.py:93 | on a path with no zero value, the cumulative entry at t is the value at t divided by the value of the first day |
| Backtest.Cumulative | src/backtest/backtester.py:93 | one cumulative entry per day, finite at day t exactly when every daily return up to t is finite |
| Backtest.CumulativeDefined | src/backtest/backtester.py:93 | the running product from 1 is finite at day t exactly when the daily returns up to t all are |
| Backtest.CumulativeStartsAtOne | src/backtest/backtester.py:55-93 | for every non-empty value path the cumulative curve starts at 1 |
| Backtest.CumulativeTracksValue | src/backtest/backtester.py:55-93 | on a value path with no zero value, the cumulative curve starts at 1 and is the path relative to its first recorded value, so the first day's growth is not in it |
| Backtest.Annualize | src/backtest/backtester.py:60-67 | the annual volatility is passed through; the Sharpe ratio exists exactly when that volatility is positive, and then Sharpe x volatility = annual return - risk-free rate |
| Backtest.AnnualReturnAtLeastMinusOne | src/backtest/backtester.py:64 | compounding over 252 days never reports an annual return below -100% |
| Backtest.ZeroMeanAnnualizesToZero | src/backtest/backtester.py:64-66 | a zero mean daily return annualizes to a zero annual return, and with a positive volatility the Sharpe ratio is then -rf / volatility |
| Backtest.MissingTickers | src/backtest/backtester.py:85 | every ticker reported missing is absent from the columns |
| Backtest.MissingTickersComplete | src/backtest/backtester.py:85-87 | a ticker is reported exactly when it is a benchmark ticker absent from the columns, and the report is empty exactly when all benchmark tickers are present |
| Backtest.Run | src/backtest/backtester.py:69-100 | fails with the complete list of missing benchmark tickers exactly when that list is non-empty (the default benchmark is 60% SPY and 40% BND); otherwise both daily series are the simulations over the configured window, and both cumulative series are their running products |
| Arima.Less | src/models/arima_model.py:37 | a score is below another only if neither is NaN, the first is not +inf and the second is not -inf; between two numbers it is the usual order |
| Arima.LessIrreflexive | src/models/arima_model.py:37 | no AIC is below itself |
| Arima.LessTransitive | src/models/arima_model.py:37 | the AIC comparison is transitive |
| Arima.LessExcludes | src/models/arima_model.py:37 | NaN compares false both ways, nothing is below -inf, and +inf is below nothing |
| Arima.LineAt | src/models/arima_model.py:33 | the inner loop visits (p, d, q) for each q in grid order |
| Arima.PlaneMember | src/models/arima_model.py:32-33 | for a fixed p, the visited orders are exactly those with d and q from their grids |
| Arima.CandidatesMember | src/models/arima_model.py:31-33 | an order is visited exactly when p, d and q are each in their grid |
| Arima.CandidatesStep | src/models/arima_model.py:31-33 | the search order is p outermost, then d, then q innermost |
| Arima.Visit | src/models/arima_model.py:34-41 | one candidate changes the state exactly when its fit succeeded with a score strictly below the best; the kept order is the old one or this candidate; the best score never gets worse, and afterwards no succeeded candidate's score is below it |
| Arima.Scan | src/models/arima_model.py:27-41 | the kept order is one of the visited candidates, and no order is kept exactly when the best score is still +inf |
| Arima.ScanWinner | src/models/arima_model.py:27-41 | no order is kept exactly when no candidate fits with an AIC below +inf, and then the best AIC is +inf; no fitted candidate's AIC is below the kept one; the kept order is a candidate that fits with that AIC, and no earlier candidate has an equal AIC (the first minimum wins) |
| Arima.ScanAppend | src/models/arima_model.py:34-41 | visiting one more candidate tries its fit and replaces the current best only on a strictly smaller AIC |
| Arima.ScanCongruent | src/models/arima_model.py:31-41 | the outcome depends only on the fit results of the visited candidates |
| Arima.GridSearch | src/models/arima_model.py:26-46 | the chosen order is either in the grid or the fallback (1, 0, 0) |
| Arima.GridSearchDeterministic | src/models/arima_model.py:26-46 | two fitters that agree on every grid order choose the same order |
| Arima.ChosenOrder | src/models/arima_model.py:50-51 | a pinned order is used as is; without one the order is the grid-search result, which is a grid order or the fallback |
| Arima.AllFailedFallback | src/models/arima_model.py:43-44 | when every fit raises, the fallback (1, 0, 0) is chosen |
| Arima.ArimaModel.constructor | src/models/arima_model.py:11-24 | stores the pinned order, the three grids and the trend, with no fit result |
| Arima.ArimaModel.SelectOrder | src/models/arima_model.py:26-46 | the nested loops choose exactly the grid-search order on the series without missing values, store it as the order, and leave the fit result alone |
| Arima.ArimaModel.VisitDs | src/models/arima_model.py:32-41 | the loop over d extends the search state by the whole plane of orders for one p |
| Arima.ArimaModel.VisitQs | src/models/arima_model.py:33-41 | the loop over q extends the search state by the line of orders for one (p, d) |
| Arima.ArimaModel.Fit | src/models/arima_model.py:48-54 | a pinned order is kept and a missing one is chosen by grid search; the final fit succeeds exactly when the fitter accepts that order, and then the fit result is stored; if it raises, the old fit result remains |
| Arima.ArimaModel.Forecast | src/models/arima_model.py:56-60 | fails with NotFitted exactly when there is no fit result; otherwise returns the model's mean for each of the `steps` horizons |
| Arima.ArimaModel.ForecastWithCi | src/models/arima_model.py:62-68 | fails with NotFitted exactly when there is no fit result; otherwise returns, per horizon, the mean and the (lower, upper) interval at `alpha` |
| Forecast.WeekdayShift | src/forecast.py:53-55 | moving k < 7 days moves the weekday by k modulo 7 |
| Forecast.NextBusinessDay | src/forecast.py:53-55 | the next business day is a weekday 1 to 3 days later, with no business day in between |
| Forecast.FutureBdaysShape | src/forecast.py:52-55 | the index has `steps` dates; the first is the next business day after the last training date, all are business days after it, and each is the next business day after its predecessor |
| Forecast.FutureBdaysComplete | src/forecast.py:52-55 | no business day between the last training date and the final index date is skipped |
| Forecast.FutureBdays | src/forecast.py:52-55 | the index has exactly `steps` dates (their shape: `FutureBdaysShape`) |
| Forecast.RangeIndex | src/forecast.py:46-50 | re-indexing never lengthens the series (what it keeps: `RangeIndexProperties`) |
| Forecast.RangeIndexProperties | src/forecast.py:46-50 | re-indexing drops exactly the missing values, keeps order, and is the identity on a complete series |
| Forecast.Cumprod | src/forecast.py:59 | one running product per return (its recurrence: `CumprodAt`) |
| Forecast.CumprodAt | src/forecast.py:58-59 | the running product at t is the previous product times one plus return t (1 before the first) |
| Forecast.ReconstructPrices | src/forecast.py:57-59 | one price per forecast return (its recurrence: `ReconstructRecurrence`) |
| Forecast.ReconstructRecurrence | src/forecast.py:57-59 | the first price is the last known price compounded by the first return, and each later price compounds the previous one |
| Forecast.CumprodMono | src/forecast.py:59 | for returns of at least -100%, the running product is non-negative and monotone in every return |
| Forecast.ReconstructBand | src/forecast.py:90-93 | from a non-negative last price, the lower return path compounds to prices between 0 and those of the upper path |
| Forecast.OrSteps | src/forecast.py:74 | a given nonzero step count is used; an absent or zero one takes the default |
| Forecast.OrAlpha | src/forecast.py:75 | a given nonzero level is used; an absent or zero one takes the default |
| Forecast.ArimaForecaster.constructor | src/forecast.py:35-44 | a fresh model with no pinned order, the request's grids and trend, and not yet fitted |
| Forecast.ArimaForecaster.Fit | src/forecast.py:61-65 | fits the owned model on the re-indexed series; marks the forecaster fitted only when the fit succeeds |
| Forecast.ArimaForecaster.Forecast | src/forecast.py:67-100 | fits first if not yet fitted (only that fit can fail, and a failure leaves the forecaster unfitted and the old fit result in place); an absent or zero steps or alpha takes the request's default; the result carries the future business-day index, the mean and interval returns for each step, the three price paths compounded from the last price, and the model's order |
| Optimizer.AnnualizeMeanDaily | src/portfolio/optimizer.py:21-24 | no value exactly when every entry is missing; otherwise value x count of present entries = 252 x their sum |
| Optimizer.AnnualizeIgnoresMissing | src/portfolio/optimizer.py:23-24 | inserting a missing entry does not change the annualized mean |
| Optimizer.AnnualizeConstant | src/portfolio/optimizer.py:21-24 | a series whose present values are all c annualizes to 252 c |
| Optimizer.ExpectedFor | src/portfolio/optimizer.py:44-57 | a ticker other than TSLA, or TSLA when the forecast block does not run, gets its historical annualized mean |
| Optimizer.TslaSourcing | src/portfolio/optimizer.py:43-57 | non-TSLA tickers get their historical annualized mean; TSLA gets the forecast file's annualized mean when TSLA is used, a path is given, the mode is forecast_12m and the file reads, and the historical mean otherwise |
| Optimizer.AbsentColumns | src/portfolio/optimizer.py:39 | the listed columns are exactly the used tickers' return columns the frame lacks; none is listed exactly when the frame has them all |
| Optimizer.BuildExpectedReturns | src/portfolio/optimizer.py:31-59 | fails with a KeyError naming the absent return columns exactly when a used ticker has no return column; otherwise one entry per used ticker, in the order given, each with its specified expected return |
| Optimizer.CovarianceRows | src/portfolio/optimizer.py:72-76 | for a frame holding every used return column: every kept row is within the optional window and has all used returns present |
| Optimizer.CovarianceRowsExact | src/portfolio/optimizer.py:72-75 | for a frame holding every used return column: a row is kept exactly when it is in the frame, within the window and complete, and the kept rows stay in date order |
| Optimizer.CovarianceSample | src/portfolio/optimizer.py:61-76 | fails with a KeyError naming the absent return columns exactly when a used ticker has no return column; otherwise one vector per kept row, holding the used tickers' returns in the given order |
| Optimizer.Min | src/portfolio/optimizer.py:85 | the minimum is an expected return and no expected return is below it |
| Optimizer.Max | src/portfolio/optimizer.py:85 | the maximum is an expected return and none is above it |
| Optimizer.Linspace | src/portfolio/optimizer.py:86 | n points, the first lo and (for n >= 2) the last hi |
| Optimizer.LinspaceAt | src/portfolio/optimizer.py:86 | point i is lo plus i steps of (hi - lo)/(n - 1), and the last point is hi |
| Optimizer.LinspaceGap | src/portfolio/optimizer.py:86 | neighbouring points are exactly one step apart |
| Optimizer.LinspaceWithin | src/portfolio/optimizer.py:86 | each point lies in [lo, hi] |
| Optimizer.LinspaceShape | src/portfolio/optimizer.py:86 | the grid starts at lo, ends at hi, is evenly spaced, and stays within [lo, hi] |
| Optimizer.Feasible | src/portfolio/optimizer.py:88-98 | at most one point per target, and exactly one per target when every target is solvable |
| Optimizer.FeasibleMember | src/portfolio/optimizer.py:88-98 | a point is on the frontier exactly when some target's solve succeeded with it |
| Optimizer.EfficientFrontier | src/portfolio/optimizer.py:78-100 | at most n points, sorted by volatility, and a permutation of the solved points over the grid from the smallest to the largest expected return |
| Lstm.LstmModel.constructor | src/models/lstm_model.py:17-23 | stores the positive lookback and horizon, with no network |
| Lstm.Inputs | src/models/lstm_model.py:27-28 | max(0, n - lookback - horizon + 1) input windows, each of lookback values and within the series |
| Lstm.Targets | src/models/lstm_model.py:27-29 | one target block per input window, each of horizon values and within the series |
| Lstm.WindowsShape | src/models/lstm_model.py:25-32 | each input has lookback values and each target horizon values; a target directly follows its input; consecutive inputs shift by one; the last pair ends at the end of the series |
| Lstm.LstmModel.MakeWindows | src/models/lstm_model.py:25-32 | max(0, n - lookback - horizon + 1) pairs, pair i being arr[i, i+lookback) and arr[i+lookback, i+lookback+horizon) |
| Lstm.LstmModel.Fit | src/models/lstm_model.py:34-48 | fails without TensorFlow and leaves the model alone; otherwise stores the freshly built network and trains it in place on the windows of the series without missing values; it succeeds exactly when training completes, and the stored network is whatever training left, also when training raised |
| Lstm.LstmModel.Forecast | src/models/lstm_model.py:50-64 | fails without TensorFlow, then without a network, then when the cleaned history is shorter than the lookback; otherwise returns max(steps, 0) predictions, each the network's output on the lookback values before it, starting from the history's last lookback values |
| Lstm.Rolls | src/models/lstm_model.py:57-63 | the first prediction is the network's output on the starting window |
| Lstm.WindowBeforePrediction | src/models/lstm_model.py:59-63 | a prediction's window contains only values before it |
| Lstm.RollsExtend | src/models/lstm_model.py:58-63 | one more round of predicting from the window and rolling keeps the forecast's defining property |
| Lstm.RollsPrefixAgree | src/models/lstm_model.py:56-64 | two forecasts from the same starting window agree on their common prefix |
| Lstm.RollsDeterministic | src/models/lstm_model.py:56-64 | the forecast is determined by the network and the starting window, and a shorter forecast is a prefix of a longer one |
| Lstm.WindowOfPredictions | src/models/lstm_model.py:62-63 | once lookback rounds have passed, the window consists of predictions only |
| Splits.Split | src/splits.py:11-15 | neither part is longer than the input; every training observation is present and dated at most train_end, every test observation present and dated at least test_start |
| Splits.SplitShape | src/splits.py:11-15 | both parts are in date order and hold no missing values; training dates are at most train_end and test dates at least test_start |
| Splits.SplitCounts | src/splits.py:12-14 | each part holds each qualifying observation as often as the input does, and nothing else |
| Splits.SplitMember | src/splits.py:13-14 | an observation is in training exactly when present and dated at most train_end, and in test exactly when present and dated at least test_start |
| Splits.SplitChronological | src/splits.py:11-15 | with train_end before test_start, every training date precedes every test date, and observations strictly between the bounds are in neither part |
| Splits.SplitOverlap | src/splits.py:13-14 | the bounds are not checked against each other, so an observation dated in [test_start, train_end] lands in both parts |
| Splits.DefaultPartition | src/splits.py:8-14 | with the default bounds 2023-12-31 and 2024-01-01, each present observation lands in exactly one part and each missing one in neither |
| Seqs.SortBy | src/backtest/backtester.py:25 | the result is sorted by the key and is a permutation of the input |
| Seqs.DropMissingMember | src/portfolio/optimizer.py:23 | a value survives dropping missing entries exactly when it was present |

## Left out

- Library numerics are parameters, not models:
  - statsmodels' ARIMA estimation, AIC, forecasts and confidence intervals;
  - pypfopt's quadratic programs and `portfolio_performance`;
  - Keras network building, training and prediction.
  The model states what the core does with their results, not how they are computed.
- `max_sharpe` and `min_volatility` (optimizer.py:102-114) are not modelled. Each builds a solver, solves, rounds the weights with `clean_weights(cutoff=1e-4)`, and returns the cleaned weights together with the (return, volatility, Sharpe) triple from `portfolio_performance`. All three steps are library code.
- `_annualize_cov_daily` (optimizer.py:26-29): the sample covariance is not modelled. The model stops at the sample it is computed from (`CovarianceSample`).
- The daily standard deviation and the square root behind the annual volatility (backtester.py:62-65) are left out. `Annualize` takes the daily mean and the annual volatility as inputs.
- Floating point is not modelled. All arithmetic is exact, so overflow, rounding and the noise of `np.linspace` are not covered.
- `Backtest.Run`: its requires exclude a strategy ticker missing from the matrix (a KeyError) and an empty window (an IndexError). The model does not model those failures. `Run` also does not build the statistics table, because its inputs need the standard deviation; the statistics are stated by `Backtest.Annualize`.
- `Backtest.SimulatedDaily`, `Backtest.SimulatePath` and `Backtest.Run` (strategy and benchmark): non-empty weights that sum to zero are excluded (`Normalizable`). numpy then divides by zero with only a warning, and the sleeves, values and returns become inf or NaN, which exact reals cannot hold. Empty weights are allowed and give a flat series of zeros (`Backtest.EmptyWeightsFlat`).
- Backtest: weights are a sequence of (ticker, weight) pairs. The source's dict cannot hold a ticker twice; the model does not exclude that, and treats a repeated ticker as a separate sleeve.
- Backtest: NaN returns inside the backtest matrix are left out. The matrix is assumed complete (`WellFormed`).
- Backtest: the bounds of `_to_period` and the splitter are whole dates. Partial date strings such as "2024-08" are not modelled.
- Backtest: the calendar month of a date is a parameter (`monthOf`).
- `Lstm.LstmModel.constructor`: lookback and horizon must be positive. With a zero or negative value the source's reshape either fails or slices the wrong way.
- Lstm: the units, dropout, seed, epochs, batch size and early stopping only configure the network, so they are part of the `Keras` parameter.
- Lstm: whether TensorFlow could be imported is the `tfAvailable` parameter.
- `Arima.ArimaModel.Forecast`, `Arima.ArimaModel.ForecastWithCi`: steps is a natural number. The library's handling of negative step counts is not modelled.
- `Optimizer.EfficientFrontier`: requires at least one expected return. The number of points is natural, so the library's error for a negative count is not modelled.
- `Forecast.ArimaForecaster.Forecast`: the steps argument is a natural number or absent.
- The CSV read of the TSLA forecast is a parameter that yields the `ret_mean` column or nothing. Every read or parse error counts as nothing.
- Sorting: pandas' default `sort_index`/`sort_values` is not stable. Rows with equal dates or equal volatilities may come out in another order than the model's stable sort. The contracts promise only order and permutation.
- The ARIMA grid defaults differ between `ARIMAModel` (d in 0..2) and `ForecastRequest` (d in 0..1). The forecaster always passes its own grids, so the model's constructor takes the grids as arguments and only `Forecast.DefaultRequest` records defaults. The same holds for the LSTM's lookback 60 and horizon 1.
- Not part of this model: data loading, feature building, metrics, EDA, plotting and configuration (`data_loader.py`, `features.py`, `utils/`, `eda.py`, `config.py`).
