# Milk production dashboard: smoothing and forecasting core

The dashboard (`milk.py`) loads a monthly milk-production series and derives
six columns from it:

- a trailing simple moving average (SMA) over a window of months;
- an exponential moving average (EMA) with its factor taken from a span;
- a second EMA with an explicit smoothing factor α;
- the one-step lag of each of these three.

It then splits the series 80/20 in time order. It fits simple exponential
smoothing with a fixed level of 0.1 to the first part and forecasts the second
part. The result is a table of actual against forecast values.

This project models that arithmetic in Dafny. Values are exact `real`s. A
missing entry (pandas NaN) is `None`. Months are positions in a sequence.

Modules:

- `Wrappers` (`wrappers.dfy`): `Option`, `Result` and the two error kinds
  `InvalidParameter` and `InsufficientData`.
- `Series` (`series.dfy`): sum, mean and boundedness of a series.
- `Smoother` (`smoother.dfy`): the six derived columns (milk.py:64-69).
  - `Sma` is defined the way a rolling aggregation computes it: a running
    window sum that adds the value entering and subtracts the value leaving.
    Its contract states the trailing-mean meaning.
  - `Ewm` is the `adjust=False` recurrence, defined on prefixes.
  - `EwmMean` is the loop that fills an output array with it.
  - `Smooth` validates the three settings and builds all columns.
- `Splitter` (`splitter.dfy`): `train_test_split(..., test_size=0.2, shuffle=False)`
  (milk.py:92).
- `Forecaster` (`forecaster.dfy`): the fixed-level fit as a loop over a level
  variable (`FitLevel`), the flat forecast, the actual/forecast table, and the
  whole path from series to table (milk.py:91-102).

Notes on how the model reads the code:

- Test size. With a fractional `test_size`, scikit-learn sets the test count
  to `ceil(test_size * n)` and gives the training set the rest. The model
  does the same; it does not round to the nearest integer. `0.2` is exactly
  1/5 in the model. The float product `0.2 * n` rounds to the exact integer
  `n/5` whenever 5 divides `n`: the relative error of the double `0.2` is
  2^-54, which is below half an ulp of the product. Otherwise the product is
  at least 0.2 away from an integer. So `ceil` gives the same count on
  floats as on exact reals.
- Smoothing factor. pandas' `ewm` accepts any α with 0 < α ≤ 1, and a span
  of 1 gives α = 1 internally. So `Smooth` accepts α = 1 and rejects only
  α ≤ 0 or α > 1. A span below 1 is rejected as `InvalidParameter`, as
  `ewm` rejects it. A window below 1 is rejected too: this bound is the
  slider's minimum (milk.py:59). pandas' `rolling` itself refuses only a
  negative window and turns a window of 0 into an all-missing column. The
  sliders (milk.py:59-61) keep every setting inside the ranges `Smooth`
  accepts.
- Initial level. The fitted level starts at the first training value. On an
  empty training set the forecaster returns `InsufficientData`. The split
  never hands it one: the split itself fails with `InsufficientData` when
  the training part would be empty, which happens exactly when the series has
  fewer than two rows. A two-row series splits into one training row and one
  test row. The model fits and forecasts from that single training row: its
  level is that row's value. This follows statsmodels' fixed-level fit
  (milk.py:97-98), which needs no second point. A rule that the forecaster
  fails on fewer than two training points is not part of this model.
- Alignment. Line 91 re-indexes the rows month by month so that the forecast's
  index matches the test rows' index. The model therefore pairs forecast and
  actual values by position.

## Model

| member | source | states |
|---|---|---|
| `Smoother.Sma` | milk.py:64 | one entry per input value; entry i is missing exactly when i < window - 1, and otherwise equals the mean of the `window` values x[i-window+1..i] |
| `Smoother.RollingSumIsTrailingSum` | milk.py:64 | the running window sum (add the entering value, remove the leaving one) equals the sum of the trailing window ending at i |
| `Smoother.SmaAllMissingWhenWindowExceedsLength` | milk.py:64 | a window longer than the series leaves every entry missing |
| `Smoother.SmaWindowOneIsIdentity` | milk.py:64 | with window 1 the moving average is the series itself, with nothing missing |
| `Smoother.SmaWithinBounds` | milk.py:64 | every defined moving-average entry lies between any lower and upper bound of the inputs |
| `Smoother.SmaExample` | milk.py:64 | [100,102,104,106,108,110] with window 3 gives [_, _, 102, 104, 106, 108] |
| `Smoother.Lag` | milk.py:65-69 | shift(1): same length, entry 0 missing, entry t equals source entry t-1 |
| `Smoother.LaggedSmaMissing` | milk.py:64-65 | the lagged SMA is missing exactly at its first `window` entries |
| `Smoother.LaggedDefinedMissing` | milk.py:66-69 | the lag of an EMA column is missing exactly at entry 0 |
| `Smoother.SpanAlpha` | milk.py:66 | the span factor 2/(span+1) lies in (0, 1] and equals 1 exactly when span = 1 |
| `Smoother.Ewm` | milk.py:66-68 | the adjust=False average has one entry per input value |
| `Smoother.EwmRecurrence` | milk.py:66-68 | e[0] = x[0] and e[t] = α·x[t] + (1-α)·e[t-1] for every later t |
| `Smoother.EwmPrefix` | milk.py:66-68 | the average of a prefix of the input is the same prefix of the average (earlier entries never depend on later values) |
| `Smoother.EwmMean` | milk.py:66-68 | the array-filling loop computes exactly the adjust=False average |
| `Smoother.EwmSpanOneIsIdentity` | milk.py:66 | with span 1 the EMA equals the input series |
| `Smoother.EwmWithinBounds` | milk.py:66-68 | for 0 ≤ α ≤ 1 every average lies within any bounds of the inputs |
| `Smoother.EwmOfConstant` | milk.py:66-68 | the average of a constant series is that constant, for any α |
| `Smoother.EwmClosedForm` | milk.py:66-68 | e[t] is the weighted sum with weight (1-α)^t on x[0] and α(1-α)^(t-k) on x[k] for 1 ≤ k ≤ t |
| `Smoother.EwmWeightsSumToOne` | milk.py:66-68 | those weights add up to one, so each EMA entry is a weighted mean |
| `Smoother.Smooth` | milk.py:59-69 | fails with InvalidParameter exactly when window < 1, span < 1 or α outside (0, 1]; otherwise returns the production column with the SMA, the span EMA, the custom EMA and the lag of each, and the two EMAs coincide when α = 2/(span+1) |
| `Smoother.DerivedColumnsMissing` | milk.py:64-69 | every derived column is as long as the input; the only missing entries are the SMA's first window-1, the lagged SMA's first window, and entry 0 of each EMA lag |
| `Splitter.TrainTestSplit` | milk.py:92 | succeeds exactly when 0 < test size < 1 and ceil(test size · n) < n, and then train ++ test == data with \|test\| = ceil(test size · n); otherwise fails with InvalidParameter for a bad fraction and with InsufficientData for an empty training set |
| `Splitter.SplitPartsNonEmpty` | milk.py:92 | a successful split leaves neither the training nor the test part empty |
| `Splitter.TestCountOfFifth` | milk.py:92 | with test size 0.2 the test count is ceil(n/5) = (n+4)/5 |
| `Splitter.FixedSplitShape` | milk.py:92 | the 0.2 split succeeds exactly when n ≥ 2; train is the prefix data[..n-(n+4)/5] and test the matching suffix |
| `Splitter.SingleRowFails` | milk.py:92 | a one-row series cannot be split (InsufficientData) |
| `Forecaster.FitLevel` | milk.py:97-98 | the level loop starting at train[0] ends at the last entry of the smoothing recurrence over the training values |
| `Forecaster.Forecast` | milk.py:101 | the forecast has `steps` entries, every one equal to the final level (a flat line, no trend) |
| `Forecaster.ForecastExtends` | milk.py:101 | a longer forecast begins with the shorter one |
| `Forecaster.ForecastAgainstActual` | milk.py:97-102 | fails with InsufficientData exactly on an empty training set; otherwise one row per test value, with actual = test[i] and forecast = final fitted level |
| `Forecaster.ForecastProduction` | milk.py:91-102 | split, fit and forecast succeed exactly when the series has at least two rows. The table then has ceil(n/5) rows; row i pairs data[nTrain+i] with the final level fitted on data[..nTrain] |
| `Forecaster.ForecastWithinTrainingRange` | milk.py:97-101 | the flat forecast lies within any bounds of the training values |
| `Forecaster.FittedLevelExample` | milk.py:97-101 | training on [10, 20] with level 0.1 gives final level 11 and a flat forecast of 11s |

## Left out

- Streamlit UI: CSS, titles, sidebar, file uploader, sliders, previews (milk.py:9-61, 117-120). This is presentation and I/O. The sliders keep every setting inside the ranges `Smooth` accepts; their exact ranges [1,24], [1,24] and [0.1,0.9] are not modelled.
- CSV loading and column renaming (milk.py:50-51). This is file I/O and library parsing. The core receives the already-parsed production values as `seq<real>`.
- Plotly figures (milk.py:74-88, 105-114). These are rendering only.
- Calendar re-indexing with `pd.date_range(..., freq='MS')` (milk.py:91). Dates are positions; only its effect, positional alignment of forecast and test rows, is modelled.
- IEEE-754 rounding in mean, ewm and the smoothing fit. Arithmetic is exact `real`. Nothing claims bit-level agreement with pandas or statsmodels.
- NaN inside the input values. These are total reals; `None` appears only in outputs.
- statsmodels' optimiser and its other initialisation methods. The model covers only the fixed, unoptimised level path with the level starting at the first training value.
- Smooth: the dataframe gains its six columns in place. The model returns them as a new record and does not capture aliasing of the frame.
- The other columns of the data frame that train_test_split also splits. Only the production column feeds the forecast, so the model splits that column.
