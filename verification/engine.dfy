/**
 * The per-category forecasting policy of run_forecast. A category with fewer than
 * twelve months of history is forecast by the least-squares trend line; otherwise
 * SARIMAX must succeed, exponential smoothing (ETS) and Prophet may each fail on
 * their own, and the successful forecasts are averaged. The fitting libraries are
 * opaque: each is a function from its settings and the category's monthly series
 * to an Outcome.
 */
module Engine {
  import Sums
  import Trend
  import Currency
  import Ledger
  import opened Wrappers

  /** What a fitting library gives back: a one-step forecast, or the message of the exception it raised. */
  datatype Outcome = Success(value: real) | Failure(message: string)

  /** The kind of trend or seasonal component; the application only asks for additive ones. */
  datatype Component = Additive

  /** Non-seasonal (p, d, q) order. */
  datatype Order = Order(p: nat, d: nat, q: nat)

  /** Seasonal (P, D, Q, s) order. */
  datatype SeasonalOrder = SeasonalOrder(p: nat, d: nat, q: nat, s: nat)

  datatype SarimaxSpec = SarimaxSpec(order: Order, seasonalOrder: SeasonalOrder,
                                     enforceStationarity: bool, enforceInvertibility: bool)

  /** Exponential smoothing settings: optional trend, optional seasonality and its period. */
  datatype EtsSpec = EtsSpec(trend: Option<Component>, seasonal: Option<Component>, seasonalPeriods: Option<nat>)

  /** Prophet settings: seasonality mode, and how many future steps of what frequency to predict. */
  datatype Frequency = MonthEnd

  datatype ProphetSpec = ProphetSpec(seasonalityMode: Component, periods: nat, freq: Frequency)

  /** The three fitting libraries, each a function of its settings and the monthly series. */
  datatype Models = Models(
    sarimax: (SarimaxSpec, seq<Ledger.Observation>) -> Outcome,
    ets: (EtsSpec, seq<Ledger.Observation>) -> Outcome,
    prophet: (ProphetSpec, seq<Ledger.Observation>) -> Outcome)

  /** Fewer monthly points than this are forecast by the trend line. */
  const ShortHistory: nat := 12

  /** Months per seasonal cycle. */
  const SeasonalPeriod: nat := 12

  /** From this many monthly points on, ETS is seasonal instead of trended. */
  const LongHistory: nat := 2 * SeasonalPeriod

  const Sarimax: SarimaxSpec :=
    SarimaxSpec(Order(1, 1, 1), SeasonalOrder(1, 1, 1, SeasonalPeriod), false, false)

  const Prophet: ProphetSpec := ProphetSpec(Additive, 1, MonthEnd)

  /** The message LinearRegression raises when fitted on no points. */
  const EmptyTrendMessage: string :=
    "Found array with 0 sample(s) (shape=(0, 1)) while a minimum of 1 is required by LinearRegression."

  /** The message for an empty list of successful forecasts. */
  const AllFailedMessage: string := "All models failed"

  /**
   * The ETS variant for a series of n months: seasonal-only with period 12 (no trend
   * term) from 24 months on, trend-only with no seasonality below that.
   */
  function EtsSpecFor(n: nat): (spec: EtsSpec)
    ensures n >= 24 <==> spec == EtsSpec(None, Some(Additive), Some(12))
    ensures n < 24 <==> spec == EtsSpec(Some(Additive), None, None)
  {
    if n >= LongHistory then EtsSpec(None, Some(Additive), Some(SeasonalPeriod))
    else EtsSpec(Some(Additive), None, None)
  }

  /**
   * The short-history path: LinearRegression on x = 0 .. n-1, predicted at x = n.
   * It fails, with the library's message, exactly on an empty series; otherwise the
   * value is that of a least-squares line at n (Trend.Forecast).
   */
  function TrendForecast(series: seq<Ledger.Observation>): (o: Outcome)
    ensures o.Success? <==> |series| >= 1
    ensures o.Failure? ==> o.message == EmptyTrendMessage
    ensures o.Success? ==> o.value == Trend.Forecast(Ledger.Values(series))
    ensures o.Success? ==> exists l: Trend.Line :: Trend.IsLeastSquares(Ledger.Values(series), l)
                                                   && o.value == l.At(|series| as real)
  {
    if |series| == 0 then Failure(EmptyTrendMessage)
    else Success(Trend.Forecast(Ledger.Values(series)))
  }

  /** A successful optional forecast contributes its value; a failed one nothing. */
  function Contribution(o: Outcome): (fs: seq<real>)
    ensures |fs| <= 1
    ensures |fs| == 1 <==> o.Success?
    ensures o.Success? ==> fs[0] == o.value
  {
    if o.Success? then [o.value] else []
  }

  /** The forecasts that succeeded, in the order tried: SARIMAX's value first, then ETS's, then Prophet's. */
  function Collected(models: Models, series: seq<Ledger.Observation>, first: real): (fs: seq<real>)
    ensures 1 <= |fs| <= 3 && fs[0] == first
    ensures |fs| == 1 + |Contribution(models.ets(EtsSpecFor(|series|), series))|
                      + |Contribution(models.prophet(Prophet, series))|
    ensures models.ets(EtsSpecFor(|series|), series).Success? ==>
              fs[1] == models.ets(EtsSpecFor(|series|), series).value
    ensures models.prophet(Prophet, series).Success? ==>
              fs[|fs| - 1] == models.prophet(Prophet, series).value
  {
    [first] + Contribution(models.ets(EtsSpecFor(|series|), series)) + Contribution(models.prophet(Prophet, series))
  }

  /**
   * The mean of the successful forecasts: the value whose |fs| copies sum to the sum
   * of fs, between the least and the greatest of them. An empty list is reported as
   * "All models failed".
   */
  function Ensemble(fs: seq<real>): (o: Outcome)
    ensures o.Success? <==> |fs| >= 1
    ensures |fs| == 0 ==> o == Failure(AllFailedMessage)
    ensures o.Success? ==> o.value * |fs| as real == Sums.SeqSum(fs)
    ensures o.Success? ==> Sums.Min(fs) <= o.value <= Sums.Max(fs)
  {
    if |fs| >= 1 then Success(Sums.Mean(fs))
    else Failure(AllFailedMessage)
  }

  /**
   * The long-history path. A SARIMAX failure is the category's failure and nothing
   * else is consulted; otherwise the successful forecasts are averaged.
   */
  function SeasonalForecast(models: Models, series: seq<Ledger.Observation>): (o: Outcome)
    ensures models.sarimax(Sarimax, series).Failure? ==> o == models.sarimax(Sarimax, series)
    ensures models.sarimax(Sarimax, series).Success? ==> o.Success?
  {
    match models.sarimax(Sarimax, series)
    case Failure(msg) => Failure(msg)
    case Success(v) => Ensemble(Collected(models, series, v))
  }

  predicate StartsWith(s: string, prefix: string) {
    |prefix| <= |s| && s[..|prefix|] == prefix
  }

  /** How an outcome is shown: the rupiah amount, or "Error: " followed by the message. */
  function Display(o: Outcome): (text: string)
    ensures o.Success? <==> StartsWith(text, "Rp. ")
    ensures o.Failure? <==> StartsWith(text, "Error: ")
    ensures o.Failure? ==> text[7..] == o.message
    ensures o.Success? ==> Currency.Remove(text[4..], '.') == Currency.Decimal(Currency.Trunc(o.value))
  {
    match o
    case Success(v) => RupiahText(v); Currency.Rupiah(v)
    case Failure(msg) => ErrorText(msg); "Error: " + msg
  }

  /** A rupiah amount starts with "Rp. " and so never with "Error: ". */
  lemma RupiahText(v: real)
    ensures StartsWith(Currency.Rupiah(v), "Rp. ")
    ensures !StartsWith(Currency.Rupiah(v), "Error: ")
  {
    AmountPrefix(Currency.Rupiah(v));
  }

  /** A text that begins "Rp. " cannot begin "Error: ": the first characters differ. */
  lemma AmountPrefix(text: string)
    requires |text| > 4 && text[..4] == "Rp. "
    ensures StartsWith(text, "Rp. ") && !StartsWith(text, "Error: ")
  {
    assert text[0] == text[..4][0] == 'R';
  }

  /** An error text starts with "Error: ", not "Rp. ", and carries the message after it. */
  lemma ErrorText(msg: string)
    ensures StartsWith("Error: " + msg, "Error: ")
    ensures !StartsWith("Error: " + msg, "Rp. ")
    ensures ("Error: " + msg)[7..] == msg
  {
    var text := "Error: " + msg;
    assert text[..7] == "Error: ";
    assert text[0] == 'E';
  }

  /**
   * The text shown for one category's monthly series. Below twelve months it is an
   * amount exactly when the series is non-empty; from twelve on, exactly when SARIMAX
   * succeeds. Anything else is an error text.
   */
  function ForecastCategory(models: Models, series: seq<Ledger.Observation>): (text: string)
    ensures StartsWith(text, "Rp. ") || StartsWith(text, "Error: ")
    ensures |series| < ShortHistory ==> (StartsWith(text, "Rp. ") <==> |series| >= 1)
    ensures |series| >= ShortHistory ==> (StartsWith(text, "Rp. ") <==> models.sarimax(Sarimax, series).Success?)
  {
    if |series| < ShortHistory then Display(TrendForecast(series))
    else Display(SeasonalForecast(models, series))
  }

  /** run_forecast on already-parsed rows: every category mapped to its displayed forecast. */
  function RunForecast(models: Models, rows: seq<Ledger.Row>): (result: map<string, string>)
    ensures result.Keys == Ledger.Categories(rows)
    ensures forall c :: c in result ==> StartsWith(result[c], "Rp. ") || StartsWith(result[c], "Error: ")
  {
    var agg := Ledger.Aggregate(rows);
    map c | c in agg :: ForecastCategory(models, agg[c])
  }

  // The policy, stated per category.

  /**
   * Below twelve months only the trend line is consulted: the result does not depend
   * on the fitting libraries, and a constant history forecasts that constant.
   */
  lemma ShortConstantHistory(models: Models, series: seq<Ledger.Observation>, c: real)
    requires 1 <= |series| < ShortHistory
    requires forall i :: 0 <= i < |series| ==> series[i].total == c
    ensures ForecastCategory(models, series) == Currency.Rupiah(c)
    ensures forall other: Models :: ForecastCategory(other, series) == ForecastCategory(models, series)
  {
    Trend.ConstantSeriesForecast(Ledger.Values(series), c);
    TrendPath(models, series);
  }

  /** Below twelve months, a history that grows by b each month forecasts its next term. */
  lemma ShortArithmeticHistory(models: Models, series: seq<Ledger.Observation>, a: real, b: real)
    requires 2 <= |series| < ShortHistory
    requires forall i :: 0 <= i < |series| ==> series[i].total == a + b * i as real
    ensures ForecastCategory(models, series) == Currency.Rupiah(a + b * |series| as real)
  {
    var ys := Ledger.Values(series);
    assert Trend.Forecast(ys) == a + b * |series| as real by {
      forall i | 0 <= i < |ys| ensures ys[i] == a + b * i as real {
        assert ys[i] == series[i].total;
      }
      Trend.ArithmeticSeriesForecast(ys, a, b);
    }
    TrendShows(models, series, a + b * |series| as real);
  }

  /** Below twelve months, whatever value the trend forecast has is the amount shown. */
  lemma TrendShows(models: Models, series: seq<Ledger.Observation>, f: real)
    requires 1 <= |series| < ShortHistory
    requires Trend.Forecast(Ledger.Values(series)) == f
    ensures ForecastCategory(models, series) == Currency.Rupiah(f)
  {
    TrendPath(models, series);
  }

  /** Below twelve months the text is the rupiah amount of the trend forecast. */
  lemma TrendPath(models: Models, series: seq<Ledger.Observation>)
    requires 1 <= |series| < ShortHistory
    ensures ForecastCategory(models, series) == Currency.Rupiah(Trend.Forecast(Ledger.Values(series)))
  {
  }

  /**
   * SARIMAX is mandatory: when it fails, the category shows its message, whatever ETS
   * and Prophet would have returned.
   */
  lemma SarimaxFailureIsFinal(models: Models, series: seq<Ledger.Observation>, msg: string)
    requires |series| >= ShortHistory
    requires models.sarimax(Sarimax, series) == Failure(msg)
    ensures ForecastCategory(models, series) == "Error: " + msg
    ensures forall other: Models :: other.sarimax(Sarimax, series) == Failure(msg) ==>
              ForecastCategory(other, series) == ForecastCategory(models, series)
  {
  }

  /** With SARIMAX succeeding, the forecast is the mean of whatever succeeded, and never an error. */
  lemma EnsembleNeverEmpty(models: Models, series: seq<Ledger.Observation>, v: real)
    requires |series| >= ShortHistory
    requires models.sarimax(Sarimax, series) == Success(v)
    ensures ForecastCategory(models, series) == Currency.Rupiah(Sums.Mean(Collected(models, series, v)))
    ensures StartsWith(ForecastCategory(models, series), "Rp. ")
    ensures ForecastCategory(models, series) != "Error: " + AllFailedMessage
  {
    var text := ForecastCategory(models, series);
    assert text[0] == 'R';
  }

  /** The mean of the collected forecasts, for each combination of optional successes. */
  lemma CollectedMean(models: Models, series: seq<Ledger.Observation>, v: real)
    ensures models.ets(EtsSpecFor(|series|), series).Failure? && models.prophet(Prophet, series).Failure? ==>
              Sums.Mean(Collected(models, series, v)) == v
    ensures models.ets(EtsSpecFor(|series|), series).Success? && models.prophet(Prophet, series).Failure? ==>
              Sums.Mean(Collected(models, series, v)) == (v + models.ets(EtsSpecFor(|series|), series).value) / 2.0
    ensures models.ets(EtsSpecFor(|series|), series).Failure? && models.prophet(Prophet, series).Success? ==>
              Sums.Mean(Collected(models, series, v)) == (v + models.prophet(Prophet, series).value) / 2.0
    ensures models.ets(EtsSpecFor(|series|), series).Success? && models.prophet(Prophet, series).Success? ==>
              Sums.Mean(Collected(models, series, v)) ==
                (v + models.ets(EtsSpecFor(|series|), series).value + models.prophet(Prophet, series).value) / 3.0
  {
    var ets := models.ets(EtsSpecFor(|series|), series);
    var prophet := models.prophet(Prophet, series);
    var fs := Collected(models, series, v);
    if ets.Success? && prophet.Success? {
      assert fs == [v, ets.value, prophet.value] by {
        assert fs == [v] + [ets.value] + [prophet.value];
      }
      Sums.MeanOfThree(v, ets.value, prophet.value);
    } else if ets.Success? {
      assert fs == [v, ets.value] by {
        assert fs == [v] + [ets.value] + [];
      }
      Sums.MeanOfTwo(v, ets.value);
    } else if prophet.Success? {
      assert fs == [v, prophet.value] by {
        assert fs == [v] + [] + [prophet.value];
      }
      Sums.MeanOfTwo(v, prophet.value);
    } else {
      assert fs == [v] by {
        assert fs == [v] + [] + [];
      }
      Sums.MeanOfOne(v);
    }
  }

  /** When both optional models fail, the SARIMAX forecast is shown alone. */
  lemma OptionalFailuresOnly(models: Models, series: seq<Ledger.Observation>, v: real)
    requires |series| >= ShortHistory
    requires models.sarimax(Sarimax, series) == Success(v)
    requires models.ets(EtsSpecFor(|series|), series).Failure?
    requires models.prophet(Prophet, series).Failure?
    ensures ForecastCategory(models, series) == Currency.Rupiah(v)
  {
    var m := Sums.Mean(Collected(models, series, v));
    assert m == v by {
      CollectedMean(models, series, v);
    }
    EnsembleNeverEmpty(models, series, v);
    assert ForecastCategory(models, series) == Currency.Rupiah(m);
  }

  /** When exactly one optional model succeeds, the two forecasts are averaged. */
  lemma OneOptionalSuccess(models: Models, series: seq<Ledger.Observation>, v: real, w: real)
    requires |series| >= ShortHistory
    requires models.sarimax(Sarimax, series) == Success(v)
    requires (models.ets(EtsSpecFor(|series|), series) == Success(w) && models.prophet(Prophet, series).Failure?)
          || (models.ets(EtsSpecFor(|series|), series).Failure? && models.prophet(Prophet, series) == Success(w))
    ensures ForecastCategory(models, series) == Currency.Rupiah((v + w) / 2.0)
  {
    var m := Sums.Mean(Collected(models, series, v));
    assert m == (v + w) / 2.0 by {
      CollectedMean(models, series, v);
    }
    EnsembleNeverEmpty(models, series, v);
    assert ForecastCategory(models, series) == Currency.Rupiah(m);
  }

  /** When all three models succeed, their three forecasts are averaged. */
  lemma AllSucceed(models: Models, series: seq<Ledger.Observation>, v: real, e: real, p: real)
    requires |series| >= ShortHistory
    requires models.sarimax(Sarimax, series) == Success(v)
    requires models.ets(EtsSpecFor(|series|), series) == Success(e)
    requires models.prophet(Prophet, series) == Success(p)
    ensures ForecastCategory(models, series) == Currency.Rupiah((v + e + p) / 3.0)
  {
    var m := Sums.Mean(Collected(models, series, v));
    assert m == (v + e + p) / 3.0 by {
      CollectedMean(models, series, v);
    }
    EnsembleNeverEmpty(models, series, v);
    assert ForecastCategory(models, series) == Currency.Rupiah(m);
  }

  /**
   * The long-history path consults exactly three library calls: SARIMAX with its
   * fixed orders, ETS with the variant for the series length, and Prophet. Libraries
   * that agree on those three calls give the same text.
   */
  lemma SeasonalConsultsOnly(m1: Models, m2: Models, series: seq<Ledger.Observation>)
    requires |series| >= ShortHistory
    requires m1.sarimax(Sarimax, series) == m2.sarimax(Sarimax, series)
    requires m1.ets(EtsSpecFor(|series|), series) == m2.ets(EtsSpecFor(|series|), series)
    requires m1.prophet(Prophet, series) == m2.prophet(Prophet, series)
    ensures ForecastCategory(m1, series) == ForecastCategory(m2, series)
  {
  }

  /**
   * run_forecast, category by category: n_months is the number of distinct months in
   * which the category has a row; below twelve the trend line is shown, which never
   * fails on aggregated data; from twelve on the seasonal ensemble is shown.
   */
  lemma RunForecastByCategory(models: Models, rows: seq<Ledger.Row>, c: string)
    requires c in Ledger.Categories(rows)
    ensures c in Ledger.Aggregate(rows) && c in RunForecast(models, rows)
    ensures var s := Ledger.Aggregate(rows)[c];
            && 1 <= |s| == |Ledger.MonthsOf(rows, c)|
            && (|s| < ShortHistory ==> RunForecast(models, rows)[c] == Currency.Rupiah(Trend.Forecast(Ledger.Values(s))))
            && (|s| >= ShortHistory ==> RunForecast(models, rows)[c] == Display(SeasonalForecast(models, s)))
  {
    Ledger.AggregateMonthCount(rows, c);
  }
}
