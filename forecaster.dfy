/** The recursive forecaster of `entrenar_y_predecir`: for every meal type of the preprocessed
    table, in order of first appearance, a regressor is trained on that meal type's rows and
    then asked for the seven days after its last date, one day at a time, each prediction
    becoming the next day's `lag_1` while `media_movil_7` stays at the last row's value. */
module Forecaster {
  import opened Frames
  import opened Calendar
  import opened Features

  /** `DIAS_A_PREDECIR`. */
  const DaysAhead := 7

  /** The regressor's inputs, in the order of `features`: `dia_semana`, `es_finde`, `mes`,
      `lag_1`, `media_movil_7`. */
  datatype FeatureVector = FeatureVector(weekday: int, weekend: int, month: int, lag: int, mean: real)

  /** A row of the forecast table: `fecha`, `comida`, `raciones_predichas`. */
  datatype Prediction = Prediction(date: int, meal: Meal, predicted: int)

  /** A trained regressor: its point prediction for one input row. */
  type Predictor = FeatureVector -> real

  /** Training on one meal type's input rows and target quantities. With its seed fixed the
      regressor is a function of what it is trained on. */
  type Trainer = (seq<FeatureVector>, seq<int>) -> Predictor

  /** `int(...)`: the integer part, truncating toward zero. */
  function Truncate(x: real): (n: int)
    ensures 0.0 <= x ==> n as real <= x < n as real + 1.0
    ensures x < 0.0 ==> n as real - 1.0 < x <= n as real
  {
    if x >= 0.0 then x.Floor else -((-x).Floor)
  }

  /** The training input of a surviving row (`df_comida[features]`). */
  function TrainingVector(r: FeatureRow): FeatureVector
  {
    FeatureVector(DayOfWeek(r), Weekend(r), MonthOf(r), r.lag, r.mean)
  }

  function TrainingSet(group: seq<FeatureRow>): seq<FeatureVector>
  {
    seq(|group|, i requires 0 <= i < |group| => TrainingVector(group[i]))
  }

  /** `raciones_servidas` of the rows, the training targets. */
  function Targets(group: seq<FeatureRow>): seq<int>
  {
    seq(|group|, i requires 0 <= i < |group| => group[i].obs.served)
  }

  function GroupDates(group: seq<FeatureRow>): seq<int>
  {
    seq(|group|, i requires 0 <= i < |group| => group[i].obs.date)
  }

  /** `modelo.fit(X, y)` on one meal type's rows. */
  function Train(fit: Trainer, group: seq<FeatureRow>): Predictor
  {
    fit(TrainingSet(group), Targets(group))
  }

  /** The input row for a future date; its weekend flag uses the rule `dayofweek >= 5`. */
  function FutureFeatures(day: int, lag: int, mean: real): FeatureVector
  {
    FeatureVector(Weekday(day), ForecastWeekendFlag(Weekday(day)), Month(day), lag, mean)
  }

  /** The quantity predicted for `day` from the given lag and mean. */
  function Predict(model: Predictor, day: int, lag: int, mean: real): int
  {
    Truncate(model(FutureFeatures(day, lag, mean)))
  }

  /** The predictions for the `steps` dates from `day` on: each one's lag is the previous
      prediction, the first one's is `lag`, and the mean never changes. */
  function Rollout(model: Predictor, meal: Meal, day: int, lag: int, mean: real, steps: nat): seq<Prediction>
    decreases steps
  {
    if steps == 0 then []
    else
      var p := Predict(model, day, lag, mean);
      [Prediction(day, meal, p)] + Rollout(model, meal, day + 1, p, mean, steps - 1)
  }

  /** The predictions for the seven days after `lastDate`, starting from `lastServed`. */
  function WeekAhead(model: Predictor, meal: Meal, lastDate: int, lastServed: int, mean: real): seq<Prediction>
  {
    Rollout(model, meal, lastDate + 1, lastServed, mean, DaysAhead)
  }

  /** The forecast from one meal type's rows: a regressor trained on them, asked for the days
      after their latest date starting from the last row's quantity and mean. A meal type
      without rows has no forecast. */
  function GroupForecast(fit: Trainer, meal: Meal, group: seq<FeatureRow>): seq<Prediction>
  {
    if group == [] then []
    else
      var last := group[|group| - 1];
      WeekAhead(Train(fit, group), meal, Latest(GroupDates(group)), last.obs.served, last.mean)
  }

  /** The forecast of one meal type of the table (`df[df['tipo_comida'] == comida]`). */
  function MealForecast(rows: seq<FeatureRow>, fit: Trainer, meal: Meal): seq<Prediction>
  {
    GroupForecast(fit, meal, Select(rows, FeatureMeal, meal))
  }

  /** The forecasts of the listed meal types, one block each. */
  function ForecastBlocks(rows: seq<FeatureRow>, fit: Trainer, meals: seq<Meal>): seq<seq<Prediction>>
  {
    seq(|meals|, k requires 0 <= k < |meals| => MealForecast(rows, fit, meals[k]))
  }

  /** What `entrenar_y_predecir` returns: the forecasts of the table's meal types in order of
      first appearance, one block after the other. */
  function Forecasts(rows: seq<FeatureRow>, fit: Trainer): seq<Prediction>
  {
    Flatten(ForecastBlocks(rows, fit, Unique(MealColumn(rows, FeatureMeal))))
  }

  /** `entrenar_y_predecir`: a loop over the meal types of the table that appends each meal
      type's forecast. */
  method Forecast(rows: seq<FeatureRow>, fit: Trainer) returns (out: seq<Prediction>)
    ensures out == Forecasts(rows, fit)
  {
    var meals := Unique(MealColumn(rows, FeatureMeal));
    ghost var blocks := ForecastBlocks(rows, fit, meals);
    out := [];
    var b := 0;
    while b < |meals|
      invariant b <= |meals|
      invariant out == Flatten(blocks[..b])
    {
      var group := Select(rows, FeatureMeal, meals[b]);
      SelectNonEmpty(rows, FeatureMeal, meals[b]);
      var preds := ForecastMeal(fit, meals[b], group);
      FlattenSnoc(blocks, b);
      out := out + preds;
      b := b + 1;
    }
    assert blocks[..b] == blocks;
  }

  /** The body of the loop of `entrenar_y_predecir` for one meal type's rows: train on them,
      then predict the seven days after their latest date. */
  method ForecastMeal(fit: Trainer, meal: Meal, group: seq<FeatureRow>) returns (preds: seq<Prediction>)
    requires group != []
    ensures preds == GroupForecast(fit, meal, group)
  {
    var lastRow := group[|group| - 1];
    preds := PredictAhead(Train(fit, group), meal, Latest(GroupDates(group)), lastRow.obs.served, lastRow.mean);
  }

  /** The inner loop: the seven days after `lastDate` one at a time, each prediction becoming
      the next day's lag while the mean stays fixed. */
  method PredictAhead(model: Predictor, meal: Meal, lastDate: int, lastServed: int, mean: real) returns (preds: seq<Prediction>)
    ensures preds == WeekAhead(model, meal, lastDate, lastServed, mean)
  {
    var lag := lastServed;
    preds := [];
    var i := 1;
    while i <= DaysAhead
      invariant 1 <= i <= DaysAhead + 1
      invariant preds == Rollout(model, meal, lastDate + 1, lastServed, mean, i - 1)
      invariant lag == LagAfter(model, lastDate + 1, lastServed, mean, i - 1)
    {
      var day := lastDate + i;
      var p := Predict(model, day, lag, mean);
      RolloutSnoc(model, meal, lastDate + 1, lastServed, mean, i, day);
      preds := preds + [Prediction(day, meal, p)];
      lag := p;
      i := i + 1;
    }
  }

  // ---------------------------------------------------------------- properties

  /** The lag in force after `n` predictions from `day` on: `lag` itself, then each prediction. */
  function LagAfter(model: Predictor, day: int, lag: int, mean: real, n: nat): int
    decreases n
  {
    if n == 0 then lag else LagAfter(model, day + 1, Predict(model, day, lag, mean), mean, n - 1)
  }

  /** The `n`-th prediction extends the first `n - 1`: it is for the `n`-th date and uses the lag
      in force after the others. */
  lemma {:induction false} RolloutSnoc(model: Predictor, meal: Meal, first: int, lag: int, mean: real, n: nat, day: int)
    requires n >= 1 && day == first + n - 1
    ensures Rollout(model, meal, first, lag, mean, n)
         == Rollout(model, meal, first, lag, mean, n - 1) + [Prediction(day, meal, Predict(model, day, LagAfter(model, first, lag, mean, n - 1), mean))]
    ensures LagAfter(model, first, lag, mean, n) == Predict(model, day, LagAfter(model, first, lag, mean, n - 1), mean)
    decreases n
  {
    if n > 1 {
      var p := Predict(model, first, lag, mean);
      RolloutSnoc(model, meal, first + 1, p, mean, n - 1, day);
      assert Rollout(model, meal, first, lag, mean, n) == [Prediction(first, meal, p)] + Rollout(model, meal, first + 1, p, mean, n - 1);
      assert Rollout(model, meal, first, lag, mean, n - 1) == [Prediction(first, meal, p)] + Rollout(model, meal, first + 1, p, mean, n - 2);
    }
  }

  lemma {:induction false} RolloutLength(model: Predictor, meal: Meal, day: int, lag: int, mean: real, steps: nat)
    ensures |Rollout(model, meal, day, lag, mean, steps)| == steps
    decreases steps
  {
    if steps > 0 {
      RolloutLength(model, meal, day + 1, Predict(model, day, lag, mean), mean, steps - 1);
    }
  }

  /** The s-th prediction from `day` on is for date `day + s` and the meal type; its lag is
      `lag` for the first one and the previous prediction for the others, and its mean is
      always `mean`. */
  lemma {:induction false} RolloutAt(model: Predictor, meal: Meal, day: int, lag: int, mean: real, steps: nat, s: nat)
    requires s < steps
    ensures |Rollout(model, meal, day, lag, mean, steps)| == steps
    ensures Rollout(model, meal, day, lag, mean, steps)[s]
         == Prediction(day + s, meal,
              Predict(model, day + s, if s == 0 then lag else Rollout(model, meal, day, lag, mean, steps)[s - 1].predicted, mean))
    decreases s
  {
    RolloutLength(model, meal, day, lag, mean, steps);
    if s > 0 {
      var p := Predict(model, day, lag, mean);
      var r := Rollout(model, meal, day, lag, mean, steps);
      var rest := Rollout(model, meal, day + 1, p, mean, steps - 1);
      assert r == [Prediction(day, meal, p)] + rest;
      RolloutAt(model, meal, day + 1, p, mean, steps - 1, s - 1);
      assert r[s] == rest[s - 1];
      assert r[s - 1].predicted == if s == 1 then p else rest[s - 2].predicted;
    }
  }

  /** A meal type's rows give seven forecast rows, no rows none. */
  lemma GroupForecastLength(fit: Trainer, meal: Meal, group: seq<FeatureRow>)
    ensures |GroupForecast(fit, meal, group)| == if group == [] then 0 else DaysAhead
  {
    if group != [] {
      var last := group[|group| - 1];
      RolloutLength(Train(fit, group), meal, Latest(GroupDates(group)) + 1, last.obs.served, last.mean, DaysAhead);
    }
  }

  /** The s-th of the seven predictions is for the (s + 1)-th day after `lastDate`; its lag is
      `lastServed` on the first day and the previous prediction afterwards, and its mean is
      always `mean`. */
  lemma WeekAheadAt(model: Predictor, meal: Meal, lastDate: int, lastServed: int, mean: real, s: nat)
    requires s < DaysAhead
    ensures |WeekAhead(model, meal, lastDate, lastServed, mean)| == DaysAhead
    ensures WeekAhead(model, meal, lastDate, lastServed, mean)[s]
         == Prediction(lastDate + 1 + s, meal,
              Predict(model, lastDate + 1 + s,
                      if s == 0 then lastServed else WeekAhead(model, meal, lastDate, lastServed, mean)[s - 1].predicted, mean))
  {
    RolloutAt(model, meal, lastDate + 1, lastServed, mean, DaysAhead, s);
  }

  /** A meal type of the table has seven forecast rows, any other meal type none. */
  lemma MealForecastLength(rows: seq<FeatureRow>, fit: Trainer, meal: Meal)
    ensures |MealForecast(rows, fit, meal)| == if meal in MealColumn(rows, FeatureMeal) then DaysAhead else 0
  {
    SelectNonEmpty(rows, FeatureMeal, meal);
    GroupForecastLength(fit, meal, Select(rows, FeatureMeal, meal));
  }

  /** The forecast holds seven rows per meal type of the table, one block per meal type in
      order of first appearance. */
  lemma ForecastsAt(rows: seq<FeatureRow>, fit: Trainer, b: nat, s: nat)
    requires b < |Unique(MealColumn(rows, FeatureMeal))| && s < DaysAhead
    ensures |Forecasts(rows, fit)| == |Unique(MealColumn(rows, FeatureMeal))| * DaysAhead
    ensures |MealForecast(rows, fit, Unique(MealColumn(rows, FeatureMeal))[b])| == DaysAhead
    ensures Forecasts(rows, fit)[b * DaysAhead + s] == MealForecast(rows, fit, Unique(MealColumn(rows, FeatureMeal))[b])[s]
  {
    var meals := Unique(MealColumn(rows, FeatureMeal));
    var blocks := ForecastBlocks(rows, fit, meals);
    forall k | 0 <= k < |blocks| ensures |blocks[k]| == DaysAhead {
      MealForecastLength(rows, fit, meals[k]);
    }
    FlattenUniformLength(blocks, DaysAhead);
    FlattenUniformAt(blocks, DaysAhead, b, s);
  }

  /** Rows of other meal types do not change a meal type's forecast. */
  lemma MealForecastIsolated(rows: seq<FeatureRow>, others: seq<FeatureRow>, fit: Trainer, meal: Meal)
    requires forall i :: 0 <= i < |others| ==> others[i].obs.meal != meal
    ensures MealForecast(rows + others, fit, meal) == MealForecast(rows, fit, meal)
  {
    SelectAppend(rows, others, FeatureMeal, meal);
    SelectNone(others, FeatureMeal, meal);
    assert Select(rows + others, FeatureMeal, meal) == Select(rows, FeatureMeal, meal) + [] == Select(rows, FeatureMeal, meal);
  }
}
