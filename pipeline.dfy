/** The main block of the batch job: the guard on the number of raw rows, then preprocessing,
    the forecast and the recent actuals. The rows come in as a parameter and the two tables go
    out as the result; reading the view and writing the planning table are not modelled. */
module Pipeline {
  import opened Frames
  import opened Densifier
  import opened Features
  import opened Forecaster
  import opened Reconcile

  /** Fewer raw rows than this and the job stops without training. */
  const MinRows := 10

  datatype RunOutcome =
    | NotEnoughData
    | Completed(predictions: seq<Prediction>, actuals: seq<ActualRow>)

  /** What one run produces from the raw rows of the view. */
  function Outcome(raw: seq<Observation>, fit: Trainer): RunOutcome
  {
    if |raw| == 0 || |raw| < MinRows then NotEnoughData
    else Completed(Forecasts(Preprocess(raw), fit), RecentActuals(raw))
  }

  /** The main block. `reindex` fails on a repeated (date, meal type) key, so the view is
      required to have at most one row per key. */
  method Run(raw: seq<Observation>, fit: Trainer) returns (outcome: RunOutcome)
    requires UniqueKeys(raw)
    ensures outcome == Outcome(raw, fit)
  {
    if |raw| == 0 || |raw| < MinRows {
      outcome := NotEnoughData;
    } else {
      var processed := Preprocess(raw);
      var predictions := Forecast(processed, fit);
      var latest := LastDate(raw);
      var recent := RecentWindow(raw, latest);
      outcome := Completed(predictions, PrepareActuals(recent));
    }
  }

  /** The forecast the job should make for meal type `m`: a regressor trained on its surviving
      rows, asked for the seven days after the latest date, starting from the quantity served
      on that date and the mean of the seven days ending there. */
  function ExpectedForecast(raw: seq<Observation>, fit: Trainer, m: Meal): seq<Prediction>
    requires |raw| > 0
  {
    var series := ExpectedSeries(raw, FirstDate(raw), KeptDays(DaySpan(raw)), m);
    WeekAhead(Train(fit, series), m, LastDate(raw), Served(raw, LastDate(raw), m), WindowMean(raw, LastDate(raw), m))
  }

  // ---------------------------------------------------------------- properties

  /** The job stops exactly when the view has fewer than ten rows, and otherwise returns the
      recent actuals alongside the forecasts. */
  lemma OutcomeGuard(raw: seq<Observation>, fit: Trainer)
    ensures Outcome(raw, fit).NotEnoughData? <==> |raw| < MinRows
    ensures |raw| >= MinRows ==> Outcome(raw, fit).actuals == RecentActuals(raw)
  {
  }

  /** The last surviving row of a meal type is the one of the latest date of the range. */
  lemma SeriesEnd(raw: seq<Observation>, m: Meal)
    requires |raw| > 0 && DaySpan(raw) >= MeanWindow
    ensures var series := ExpectedSeries(raw, FirstDate(raw), KeptDays(DaySpan(raw)), m);
      series != []
      && Latest(GroupDates(series)) == LastDate(raw)
      && series[|series| - 1] == ExpectedRow(raw, LastDate(raw), m)
  {
    var first := FirstDate(raw);
    var series := ExpectedSeries(raw, first, KeptDays(DaySpan(raw)), m);
    var dates := GroupDates(series);
    forall i | 0 <= i < |dates| ensures dates[i] == first + (MeanWindow - 1) + i {
      var d := first + (MeanWindow - 1) + i;
      assert series[i] == ExpectedRow(raw, d, m);
      CellKey(raw, d, m);
    }
    assert series[|series| - 1] == ExpectedRow(raw, first + (MeanWindow - 1) + (|series| - 1), m);
    var k :| 0 <= k < |dates| && dates[k] == Latest(dates);
    assert dates[|dates| - 1] <= Latest(dates);
  }

  /** The group forecast of a meal type of the preprocessed table is its expected forecast. */
  lemma MealForecastExpected(raw: seq<Observation>, fit: Trainer, m: Meal)
    requires |raw| > 0 && DaySpan(raw) >= MeanWindow && m in Meals(raw)
    ensures MealForecast(Preprocess(raw), fit, m) == ExpectedForecast(raw, fit, m)
  {
    PreprocessGroup(raw, m);
    SeriesEnd(raw, m);
  }

  /** When the range has at least seven dates, the predictions are seven per meal type of the
      input, in order of first appearance: prediction `b * 7 + s` is step `s` of the expected
      forecast of the `b`-th meal type, dated `s + 1` days after the latest date. */
  lemma CompletedForecast(raw: seq<Observation>, fit: Trainer, b: nat, s: nat)
    requires |raw| >= MinRows && DaySpan(raw) >= MeanWindow
    requires b < |Meals(raw)| && s < DaysAhead
    ensures Outcome(raw, fit).Completed?
    ensures |Outcome(raw, fit).predictions| == |Meals(raw)| * DaysAhead
    ensures Outcome(raw, fit).predictions[b * DaysAhead + s] == ExpectedForecast(raw, fit, Meals(raw)[b])[s]
    ensures Outcome(raw, fit).predictions[b * DaysAhead + s].date == LastDate(raw) + 1 + s
    ensures Outcome(raw, fit).predictions[b * DaysAhead + s].meal == Meals(raw)[b]
  {
    var rows := Preprocess(raw);
    var m := Meals(raw)[b];
    PreprocessMeals(raw);
    ForecastsAt(rows, fit, b, s);
    MealForecastExpected(raw, fit, m);
    var series := ExpectedSeries(raw, FirstDate(raw), KeptDays(DaySpan(raw)), m);
    WeekAheadAt(Train(fit, series), m, LastDate(raw), Served(raw, LastDate(raw), m), WindowMean(raw, LastDate(raw), m), s);
  }

  /** Step `s` of a meal type's expected forecast is predicted from the quantity served on the
      latest date at the first step and from the previous step's prediction after that, with
      the mean of the seven days up to the latest date at every step. */
  lemma ExpectedForecastAt(raw: seq<Observation>, fit: Trainer, m: Meal, s: nat)
    requires |raw| > 0 && s < DaysAhead
    ensures var f := ExpectedForecast(raw, fit, m);
      var model := Train(fit, ExpectedSeries(raw, FirstDate(raw), KeptDays(DaySpan(raw)), m));
      |f| == DaysAhead
      && f[s] == Prediction(LastDate(raw) + 1 + s, m,
                   Predict(model, LastDate(raw) + 1 + s,
                           if s == 0 then Served(raw, LastDate(raw), m) else f[s - 1].predicted,
                           WindowMean(raw, LastDate(raw), m)))
  {
    var series := ExpectedSeries(raw, FirstDate(raw), KeptDays(DaySpan(raw)), m);
    WeekAheadAt(Train(fit, series), m, LastDate(raw), Served(raw, LastDate(raw), m), WindowMean(raw, LastDate(raw), m), s);
  }

  /** When the range has fewer than seven dates no row survives and nothing is predicted. */
  lemma ShortRangeForecast(raw: seq<Observation>, fit: Trainer)
    requires |raw| >= MinRows && DaySpan(raw) < MeanWindow
    ensures Preprocess(raw) == []
    ensures Outcome(raw, fit) == Completed([], RecentActuals(raw))
  {
    PreprocessSize(raw);
    assert Forecasts(Preprocess(raw), fit) == Flatten([]);
  }
}
