# Monthly expense forecasting: a Dafny model

This project models the forecasting core of a small Flask application. A user
uploads a CSV of dated transactions with a spending category and an amount. The
application then forecasts next month's spending for each category and shows it
in Indonesian rupiah. Two functions of `app.py` are modelled:

- `allowed_file`, the upload filter. It accepts a file name whose text after the
  last `.` is `csv` in any case.
- `run_forecast`, the forecast itself, in four steps:
  - It sums the amounts per calendar month and category.
  - A category with fewer than 12 months of history is forecast by a
    least-squares trend line.
  - Otherwise it runs SARIMAX, exponential smoothing (ETS) and Prophet. SARIMAX
    must succeed; ETS and Prophet may each fail on their own. The successful
    forecasts are averaged.
  - It renders the value as `Rp. 1.234.567`, or the failure as `Error: <message>`.

Modules, one per component, all under the project root:

| file | module | what it holds |
|---|---|---|
| `wrappers.dfy` | `Wrappers` | `Option` |
| `sums.dfy` | `Sums` | sum, mean, minimum and maximum of a real sequence |
| `ledger.dfy` | `Ledger` | transactions, calendar months, the per-category monthly series and the aggregation |
| `trend.dfy` | `Trend` | exact ordinary least squares on the points (i, y_i), and its one-step forecast |
| `currency.dfy` | `Currency` | `int()` truncation, decimal digits, Python's `:,` grouping, the `,` → `.` replacement, the `Rp. ` prefix |
| `engine.dfy` | `Engine` | library settings, outcomes, strategy selection, failure policy, ensemble mean, `run_forecast` |
| `upload.dfy` | `Upload` | `allowed_file`, Python's `rsplit(sep, 1)` and lower-casing |

The three fitting libraries are not modelled. Each one is a function-valued field
of `Engine.Models`. It receives the settings the application passes (for example
the SARIMAX orders (1,1,1) and (1,1,1,12)) and the category's monthly series, and
returns `Success(value)` or `Failure(message)`. The trend step is specified
exactly: the least-squares line through (0, y_0) … (n-1, y_{n-1}), evaluated at
n, over exact reals.

Two details of `app.py` are easy to misread; the model follows the code:

- **Truncation, not rounding.** `int()` truncates toward zero; it does not round
  (app.py:40, app.py:86). `Currency.Trunc` truncates; for example
  `Currency.ExampleTruncates` shows that 1234.99 is shown as `Rp. 1.234`.
- **ETS with 24 or more months is seasonal-only.** With 24 or more months, ETS has
  `seasonal='add'`, `seasonal_periods=12` and no trend term (app.py:57-60).
  `Engine.EtsSpecFor` gives no trend in that case.

## Model

| member | source | states |
|---|---|---|
| `Upload.AllowedFile` | app.py:15-16 | A name is accepted exactly when some position holds its last `.` and the text after that position, lower-cased, is an allowed extension. |
| `Upload.LastOccurrenceSplit` | app.py:16 | A position is the last occurrence of the separator exactly when `LastIndex` finds it, and the second piece of `rsplit` is the text after it. |
| `Upload.AllowedFileIff` | app.py:15-16 | A name is accepted exactly when it ends in `.` followed by three characters that lower-case to `csv`. This covers both directions; `.csv` itself is accepted. |
| `Upload.RSplitOnce` | app.py:16 | Splitting at the last `.` gives one piece (the whole name) when there is no `.`, otherwise two pieces. The two pieces rejoined with `.` give back the name, and the second piece holds no `.`. |
| `Upload.LastIndex` | app.py:16 | The position found holds the separator and no later position does; nothing is found exactly when the separator is absent. |
| `Upload.LastIndexUnique` | app.py:16 | The last separator is the only position that holds the separator with none after it. |
| `Upload.AllowedIgnoresCase` | app.py:16 | Lower-casing the name first does not change whether it is accepted. |
| `Upload.AcceptedExamples` | app.py:13-16 | `expenses.csv`, `REPORT.CSV` and `.csv` are accepted. |
| `Upload.RefusedExamples` | app.py:13-16 | `csv` (no dot), `data.csv.txt` (extension `txt`) and `data.` (empty extension) are refused. |
| `Ledger.Insert` | app.py:23 | Adding an amount to one month of a chronological series keeps it chronological and adds that month to the months covered. It adds the amount to that month's value only and raises the series total by the amount. |
| `Ledger.Aggregate` | app.py:23-31 | The map's keys are the distinct categories of the rows. Each category's series is strictly increasing in month and covers exactly the months in which the category has a row. Its value at each month is the sum of that category's amounts dated in that month, and its total is the category's total over all rows. |
| `Ledger.AggregateEntries` | app.py:27-31 | Every category of the rows has a non-empty series, and every entry of it is the sum of that category's amounts in the entry's month. |
| `Ledger.MonthCount` | app.py:33 | A chronological series has exactly one entry per month it covers. |
| `Ledger.AggregateMonthCount` | app.py:31-33 | `n_months` for a category is the number of distinct months in which it has a row, and is at least 1. |
| `Sums.Mean` | app.py:86 | `np.mean` of a non-empty list: the mean times the length of the list is its sum, and the mean lies between the least and the greatest element. |
| `Sums.MinMaxBound` | app.py:86 | The least and greatest elements bound every element and are both attained. |
| `Sums.MeanOfOne` | app.py:86 | The mean of one forecast is that forecast. |
| `Sums.MeanOfTwo` | app.py:86 | The mean of two forecasts is their sum halved. |
| `Sums.MeanOfThree` | app.py:86 | The mean of three forecasts is their sum divided by three. |
| `Trend.DeterminantSign` | app.py:36-38 | For x = 0..n-1 the determinant of the normal equations is zero for one point and positive for two or more. |
| `Trend.Fit` | app.py:36-38 | The fitted line solves both least-squares normal equations of the points (i, y_i); for a single point it is the horizontal line through it. |
| `Trend.Forecast` | app.py:36-39 | The forecast is the value at x = n of a line with the least squared error. From two points on it is the value at n of every such line; a single point forecasts itself. |
| `Trend.FitMinimizesSquaredError` | app.py:36-39 | No line has a smaller sum of squared residuals on (i, y_i) than the fitted line. |
| `Trend.FitIsUniqueMinimizer` | app.py:38 | With two or more points, any line whose squared error is no larger than the fit's is the fit. |
| `Trend.ArithmeticSeriesForecast` | app.py:36-39 | A series with y_i = a + b·i (b = 0 when there is only one point) is fitted by the line a + b·x, and forecast as a + b·n. |
| `Trend.ConstantSeriesForecast` | app.py:36-39 | A constant series forecasts that constant. |
| `Currency.Trunc` | app.py:40 | `int()` on a real: the integer between the value and zero that is less than one away from it. |
| `Currency.Digits` | app.py:40 | The decimal digits of a natural number have no leading zero and read back as that number. |
| `Currency.Decimal` | app.py:40 | The decimal text of an integer, as `str` writes it: a non-negative integer is its canonical digits (no leading zero, `0` alone for zero), and a negative one is `-` followed by the canonical digits of its magnitude, which never start with `0`. The text parses back to the integer. |
| `Currency.ThousandsDigits` | app.py:40 | Deleting the commas of Python's `:,` format of an integer gives its decimal text. |
| `Currency.ReplaceAll` | app.py:40 | Replacing one character by another changes exactly the positions that held it and keeps the length. |
| `Currency.ReplacedThousands` | app.py:40 | Replacing `,` by `.` in `Rp. ` plus the `:,` format regroups the same digits with `.`. |
| `Currency.GroupLength` | app.py:40 | Grouping n digits in threes from the right inserts (n-1)/3 separators. |
| `Currency.GroupSeparators` | app.py:40 | In the grouped text, separators stand exactly every fourth place counted from the right. |
| `Currency.RupiahShape` | app.py:40 | The shown amount is `Rp. `, then `-` if the truncated value is negative, then its digits grouped in threes with `.`. |
| `Currency.Rupiah` | app.py:86 | The shown amount starts with `Rp. `. Removing the prefix and every `.` gives the decimal text of the truncated value, which parses back to it. |
| `Currency.RupiahInjective` | app.py:86 | Two forecasts are shown alike exactly when they truncate to the same integer. |
| `Currency.ExampleMillions` | app.py:40 | 1234567 is shown as `Rp. 1.234.567`. |
| `Currency.ExampleNegative` | app.py:86 | -500 is shown as `Rp. -500`. |
| `Currency.ExampleTruncates` | app.py:40 | 1234.99 is shown as `Rp. 1.234`: truncated, not rounded. |
| `Currency.ExampleSmallNegative` | app.py:86 | -0.5 is shown as `Rp. 0`: truncation is toward zero. |
| `Engine.EtsSpecFor` | app.py:57-64 | With 24 or more months ETS is seasonal-additive with period 12 and no trend; below 24 it is trend-additive with no seasonality. Both directions hold. |
| `Engine.TrendForecast` | app.py:34-42 | The trend path fails, with the library's message, exactly on an empty series. Otherwise its value is the trend forecast, the value at x = n of a least-squares line. |
| `Engine.Contribution` | app.py:65-67 | An optional model adds exactly one value, its forecast, when it succeeds, and nothing when it fails. |
| `Engine.Collected` | app.py:44-82 | The list of successful forecasts has 1 to 3 elements, with one more element per optional model that succeeded. SARIMAX's value is first, a successful ETS value second, and a successful Prophet value last. |
| `Engine.Ensemble` | app.py:85-88 | The ensemble succeeds exactly when some forecast succeeded. Its value times the number of forecasts is their sum, and lies between the least and the greatest of them. An empty list gives `All models failed`. |
| `Engine.SeasonalForecast` | app.py:48-90 | A SARIMAX failure is the category's outcome unchanged; a SARIMAX success always gives a value. |
| `Engine.Display` | app.py:40-42 | A value is shown starting with `Rp. ` and a failure starting with `Error: `, each exactly when the outcome is of that kind. For a value, removing the prefix and every `.` gives the decimal text of its truncation. A failure's text is the message after `Error: `. |
| `Engine.ForecastCategory` | app.py:33-43 | The text for one category is an amount or an error text. Below 12 months it is an amount exactly when the series is non-empty; from 12 on, exactly when SARIMAX succeeds. |
| `Engine.RupiahText` | app.py:40 | A shown amount starts with `Rp. ` and never with `Error: `. |
| `Engine.ErrorText` | app.py:89-90 | An error text starts with `Error: `, never with `Rp. `, and carries the message unchanged after it. |
| `Engine.RunForecast` | app.py:27-30 | The result's keys are exactly the distinct categories of the rows, and every value starts with `Rp. ` or `Error: `. |
| `Engine.RunForecastByCategory` | app.py:30-34 | A category's `n_months` is its number of distinct months. Below 12 its value is the rupiah amount of the trend forecast of its monthly totals, so it is never an error. From 12 on its value is the displayed seasonal ensemble outcome. |
| `Engine.TrendPath` | app.py:34-40 | Below 12 months, a non-empty series is shown as the rupiah amount of its trend forecast. |
| `Engine.ShortConstantHistory` | app.py:33-40 | Below 12 months a constant history is shown as that constant, whatever the seasonal libraries would return. |
| `Engine.ShortArithmeticHistory` | app.py:34-40 | Below 12 months, a history that grows by b each month is shown as its next term. |
| `Engine.SarimaxFailureIsFinal` | app.py:48-53 | From 12 months on, a SARIMAX failure is shown as `Error: ` + its message, whatever ETS and Prophet would return. |
| `Engine.EnsembleNeverEmpty` | app.py:85-88 | Once SARIMAX succeeds, the shown text is the mean of the collected forecasts. It is never `Error: All models failed`. |
| `Engine.OptionalFailuresOnly` | app.py:56-82 | When ETS and Prophet both fail, the SARIMAX forecast is shown alone. |
| `Engine.OneOptionalSuccess` | app.py:71-86 | When exactly one of ETS and Prophet succeeds, SARIMAX's forecast and that one are averaged. |
| `Engine.AllSucceed` | app.py:84-86 | When all three succeed, their three forecasts are averaged. |
| `Engine.SeasonalConsultsOnly` | app.py:45-80 | From 12 months on, only three library calls matter: SARIMAX with orders (1,1,1) and (1,1,1,12), ETS with the variant for the series length, and Prophet additive for one month-end step. Libraries that agree on those calls give the same text. |

## Left out

- The Flask route, file saving, `secure_filename`, template rendering and `app.run` (app.py:94-109). These are HTTP and file-system plumbing.
- Reading the CSV and parsing dates (app.py:19-20). The model starts from parsed rows of (date, category, amount). Missing columns, unparseable dates, NaN amounts and rows pandas' groupby would drop are not modelled.
- The fitting inside SARIMAX, ExponentialSmoothing and Prophet (app.py:49-52, app.py:58-65, app.py:76-80). These are numerical libraries; each is an opaque function of its settings and the series. The timestamp column built at app.py:24, and the month-end date Prophet predicts for, stay inside the Prophet function.
- Integer width. A CSV whose amounts are all integers is read as 64-bit integers, and the monthly sums at app.py:23 then wrap around silently past 2^63. The model sums amounts without bound.
- Floating point. Amounts, sums, the least-squares fit and `np.mean` are exact reals, and `int()` is exact truncation. NaN and infinities, which make `int()` raise, do not arise.
- The `print` lines that log a skipped ETS or Prophet model (app.py:67, app.py:82). They have no effect on the result.
- The order of the result dictionary's keys. The groupby at app.py:23 sorts by month and then by category, and `unique()` at app.py:27 keeps the first occurrence in that table. So the keys come ordered by each category's earliest month, ties by category name. The result is a map.
- Errors the trend path could raise besides an empty series. In exact reals, least squares cannot fail on a non-empty series, and aggregation never produces an empty one. `Engine.EmptyTrendMessage` stands in for the library's message.
- Upload.Lower: lower-cases only `A`-`Z`, while Python's `str.lower` also maps other letters. For the comparison with `csv` this makes no difference, because no other character lower-cases to `c`, `s` or `v`. `AllowedIgnoresCase` is stated for this ASCII lower-casing.
- Engine.RunForecast: its contract states the keys and the two possible prefixes only. The value of each entry is stated by `Engine.RunForecastByCategory`, together with the policy lemmas that follow it in the table.
- Engine.SeasonalForecast: its contract states the failure policy only. The value of the ensemble is stated by `Engine.EnsembleNeverEmpty`, `Engine.OptionalFailuresOnly`, `Engine.OneOptionalSuccess` and `Engine.AllSucceed`.
