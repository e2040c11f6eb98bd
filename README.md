# Canteen demand forecast batch job, modelled in Dafny

The batch job `etl_ml.py` reads the daily canteen sales view, one row per date and meal type
(`tipo_comida`). Each row holds the meals served plus a subsidised/regular breakdown. The job then
does four things:

- It densifies the table into a full grid of dates × meal types, filling missing cells with zeros.
- It adds calendar features, a one-day lag and a 7-day rolling mean per meal type, and drops the
  rows whose features are undefined.
- For each meal type, it trains a regressor and forecasts the next seven days recursively. Each
  prediction becomes the next day's lag.
- It selects as the "actuals" to reconcile the raw rows dated from the latest date minus thirty
  days to the latest date: a window of 31 dates, both ends included.

A guard stops the run when the view has fewer than ten rows.

This project models that core:

| module | file | what |
|---|---|---|
| `Frames` | `frames.dfy` | the input row, `unique`, selection by meal type, `max`/`min`, the date-major layout of a cross product |
| `Calendar` | `calendar.dfy` | `dayofweek`, the two weekend rules and `month`, for dates given as day numbers (day 0 = 1970-01-01); the Gregorian calendar with its leap years |
| `Densifier` | `densify.dfy` | the `date_range` × `unique` cross product and the zero-filling `reindex` |
| `Features` | `features.dfy` | `lag_1` (`groupby().shift(1)`), `media_movil_7` (`groupby().rolling(7).mean()`), `dropna` |
| `Forecaster` | `forecaster.dfy` | `entrenar_y_predecir`: a loop over meal types, an inner seven-step loop, the regressor abstract |
| `Reconcile` | `reconcile.dfy` | the thirty-day filter and `preparar_actualizacion_historica` |
| `Pipeline` | `pipeline.dfy` | the main block: the ten-row guard, then the forecast and the actuals |

Some group operations are defined the way the library computes them:

- `shift(1)` and `rolling(7)` work over the rows of the same meal type, in table order.
- `dropna` removes the rows with an undefined feature.

Those definitions are then proved equal to calendar-day reference definitions on the densified
table. Examples:

- The lag is "the quantity of the previous calendar day".
- The mean is "the sum of the last seven calendar days, divided by seven".
- The rows that survive are "those from the seventh date of the range on".

The forecaster is written as methods with loops, like the source. Each method is proved equal to
a specification function, and the lemmas state the properties of those functions.

## Model

| member | source | states |
|---|---|---|
| `Calendar.Weekday` | etl_ml.py:50 | `dia_semana` is in 0..6 |
| `Calendar.WeekdayOfNextDay` | etl_ml.py:50 | the day after Sunday (6) is Monday (0); otherwise the weekday goes up by one |
| `Calendar.WeekendFlag` | etl_ml.py:51 | `es_finde` in training is 0 or 1 |
| `Calendar.ForecastWeekendFlag` | etl_ml.py:94 | `es_finde` on the forecast path is 0 or 1 |
| `Calendar.WeekendRulesAgree` | etl_ml.py:94 | the training rule `isin([5, 6])` of line 51 and the forecast rule `>= 5` give the same flag on every date; the flag is 1 exactly on Saturday and Sunday |
| `Calendar.LeapYearPeriodic` | etl_ml.py:52 | the Gregorian leap-year rule (every fourth year, except centuries not divisible by 400) repeats every 400 years |
| `Calendar.SplitEra` | etl_ml.py:52 | a day of a 400-year era splits into a year of the era (0..399) and a day of that year below the year's length: 365 days, or 366 when the February of that March-based year has a 29th. The parts recombine to the same day |
| `Calendar.SplitYear` | etl_ml.py:52 | a day of a March-based year splits into a month (1..12) and a day within that month's length, where February has 29 days only in a leap year. The parts recombine to the day of the year |
| `Calendar.CivilFromDays` | etl_ml.py:52 | the civil date of a day number is a real date: month 1..12, and a day within the length of that month in that year |
| `Calendar.CivilOfEra` | etl_ml.py:52 | the civil date of a day of a 400-year era is a real date |
| `Calendar.DaysFromCivilOfEra` | etl_ml.py:52 | the days-from-civil formula on a date built from an era and a year of that era |
| `Calendar.EraRoundTrip` | etl_ml.py:52 | reading back the civil date of a day of an era gives that day |
| `Calendar.CivilRoundTrip` | etl_ml.py:52 | the civil date of every day number, read back with the days-from-civil formula, gives the same day, so no two day numbers share a civil date |
| `Calendar.DaysBeforeYearStep` | etl_ml.py:52 | each year of an era starts where the previous one ends, and the 400 years fill the 146097 days of the era |
| `Calendar.EraPositionUnique` | etl_ml.py:52 | a day of an era has exactly one position: one year of the era and one day of that year |
| `Calendar.SplitEraOf` | etl_ml.py:52 | `SplitEra` gives back the year of the era and the day of the year a day was built from |
| `Calendar.SplitYearOf` | etl_ml.py:52 | `SplitYear` gives back the month and day of any real date of the year |
| `Calendar.DateRoundTrip` | etl_ml.py:52 | every real date (month 1..12, day within its month) is the civil date of its own day number; with `CivilRoundTrip`, day numbers and real dates correspond one to one |
| `Calendar.Month` | etl_ml.py:52 | `mes` is in 1..12, in training and on the forecast path (line 95) |
| `Calendar.MonthOfCivilDate` | etl_ml.py:52 | `mes` is the month of the civil date of the day |
| `Calendar.MonthOfDate` | etl_ml.py:52 | `mes` of the day number of a real date is that date's month |
| `Calendar.EpochIsThursdayFirstOfJanuary` | etl_ml.py:50 | day 0 is 1970-01-01, a Thursday (3), which fixes the weekday numbering |
| `Calendar.LeapDayOf2024` | etl_ml.py:52 | day 19782 is 2024-02-29: the leap day of 2024 exists |
| `Calendar.FirstOfMarch2024` | etl_ml.py:50-52 | the day after the leap day, 19783, is 2024-03-01, a Friday (4) |
| `Frames.Unique` | etl_ml.py:43 | `unique()` holds no meal type twice and holds exactly the meal types of the column |
| `Frames.UniqueKeepsFirstAppearanceOrder` | etl_ml.py:43 | `unique()` lists meal types in the order of their first appearance |
| `Frames.UniqueOfDistinct` | etl_ml.py:43 | `unique()` of a column without repeats is the column itself |
| `Frames.UniqueAbsorbs` | etl_ml.py:43 | appending meal types that already occur does not change `unique()` |
| `Frames.FirstIndex` | etl_ml.py:43 | the first position of a meal type: it holds that meal type and no earlier position does |
| `Frames.Select` | etl_ml.py:70 | `df[df['tipo_comida'] == m]` keeps only rows of meal type `m`, and is no longer than the table |
| `Frames.SelectMembers` | etl_ml.py:70 | a row is selected exactly when it is a row of the table and has meal type `m` |
| `Frames.SelectAppend` | etl_ml.py:70 | selecting from two stretches of rows is selecting from each, in order |
| `Frames.SelectNonEmpty` | etl_ml.py:69-70 | a meal type has rows exactly when it occurs in the meal-type column |
| `Frames.Latest` | etl_ml.py:228 | `max()` (also at lines 42 and 82) is a value of the column and no value exceeds it |
| `Frames.Earliest` | etl_ml.py:42 | `min()` is a value of the column and no value is below it |
| `Frames.SelectFlatten` | etl_ml.py:46-47 | in a date-major cross product, a meal type's rows are its column, one per date in date order |
| `Frames.UniqueOfFlatten` | etl_ml.py:43 | `unique()` of a non-empty date-major cross product is its list of meal types |
| `Densifier.Densify` | etl_ml.py:42-47 | no contract of its own; its size, keys and contents are proved by `Densifier.DensifySize`, `Densifier.DensifyKeysDistinct`, `Densifier.DensifyCovers` and `Densifier.DensifyKeepsObservations` |
| `Densifier.DaySpan` | etl_ml.py:42 | `date_range(min, max)` has at least one date |
| `Densifier.Cell` | etl_ml.py:47 | no contract of its own; `Densifier.CellKey` proves it carries its key and `Densifier.CellContents` states its contents |
| `Densifier.CellKey` | etl_ml.py:47 | the reindexed cell for a (date, meal type) key carries that key, whether it was observed or filled with zeros |
| `Densifier.Lookup` | etl_ml.py:47 | finding a row by (date, meal type): a row found has that key; when none is found, no row has it |
| `Densifier.CellContents` | etl_ml.py:47 | a reindexed cell is the observed row when there is one, and zeros in every quantity otherwise |
| `Densifier.GridAligned` | etl_ml.py:46 | each date block of the cross product lists the meal types in order |
| `Densifier.GridSize` | etl_ml.py:46 | the cross product has days × meal types rows |
| `Densifier.GridAt` | etl_ml.py:46-47 | date-major order: the cell for date `first + i` and the `j`-th meal type is row `i * n + j` (n meal types) |
| `Densifier.GridKeys` | etl_ml.py:46-47 | each grid row's key lies in the date range and the meal-type list, and the key fixes the row's position |
| `Densifier.DensifySize` | etl_ml.py:42-47 | the densified table has (max − min + 1) × meal types rows |
| `Densifier.DensifyKeysDistinct` | etl_ml.py:46-47 | no (date, meal type) key occurs twice in the densified table |
| `Densifier.DensifyCovers` | etl_ml.py:42-47 | every date in [min, max], crossed with every meal type, has its row: the observed quantities if observed, zeros otherwise |
| `Densifier.DensifyKeepsObservations` | etl_ml.py:47 | every observed row appears unchanged in the densified table |
| `Features.History` | etl_ml.py:56-57 | no contract of its own: the quantities of the same meal type's rows up to the row, the series `groupby` hands to `shift` and `rolling`; `Features.GridHistory` proves what it is on the grid |
| `Features.Shift` | etl_ml.py:56 | no contract of its own; `Features.ShiftOfDays` proves it is the previous calendar day's quantity on the grid |
| `Features.RollingMean` | etl_ml.py:57 | no contract of its own; `Features.RollingMeanOfDays` proves it is the seven-day mean on the grid |
| `Features.AddFeatures` | etl_ml.py:55-57 | no contract of its own; `Features.GridFeatures`, `Features.AddFeaturesPrefix` and `Features.AddFeaturesSplit` prove its properties |
| `Features.DropNa` | etl_ml.py:60 | no contract of its own; `Features.DropNaAppend`, `Features.DropNaNoneComplete` and `Features.DropNaAllComplete` prove its properties |
| `Features.Preprocess` | etl_ml.py:37-62 | no contract of its own; `Features.PreprocessShape`, `Features.PreprocessSize`, `Features.PreprocessAt` and `Features.PreprocessGroup` prove its properties |
| `Features.GridHistory` | etl_ml.py:56-57 | on the grid, the group history `groupby` sees at date `first + i` is that meal type's quantities from `first` to `first + i` |
| `Features.ShiftOfDays` | etl_ml.py:56 | `shift(1)` of that history is the previous calendar day's quantity, undefined on the first date |
| `Features.WindowOfDays` | etl_ml.py:57 | the last seven values of that history are the quantities of the seven calendar days ending at the date |
| `Features.RollingMeanOfDays` | etl_ml.py:57 | `rolling(7).mean()` of that history is the seven-day mean, undefined before the seventh date |
| `Features.GridFeatures` | etl_ml.py:55-57 | on the grid, `lag_1` is the same meal type's quantity on the previous day from the second date on; `media_movil_7` is the mean of its last seven days from the seventh date on; neither ever comes from another meal type |
| `Features.GridRowSurvives` | etl_ml.py:59-60 | a grid row has all its features exactly when its date is the seventh of the range or later |
| `Features.DropNaAppend` | etl_ml.py:60 | `dropna` works row by row and keeps the order |
| `Features.DropNaNoneComplete` | etl_ml.py:60 | `dropna` removes every row with an undefined feature |
| `Features.DropNaAllComplete` | etl_ml.py:60 | `dropna` keeps every row whose features are all defined |
| `Features.AddFeaturesPrefix` | etl_ml.py:55-57 | a row's lag and mean depend only on the rows up to it |
| `Features.AddFeaturesSplit` | etl_ml.py:55-57 | the features of an extended table are the old table's features followed by the new rows' features |
| `Features.LastDateRow` | etl_ml.py:59-60 | the rows of the grid's last date survive exactly when that date is the seventh of the range or later |
| `Features.DropNaOfGridStep` | etl_ml.py:55-60 | adding the grid's next date adds that date's expected rows to the survivors when it is the seventh date or later, and nothing otherwise |
| `Features.DropNaOfGrid` | etl_ml.py:55-60 | on the grid, the rows that survive are the expected rows of every date from the seventh on, date-major |
| `Features.PreprocessShape` | etl_ml.py:38-62 | `preprocesar_datos` is, date after date from the seventh date of the range on, one expected row per meal type in order of first appearance |
| `Features.PreprocessSize` | etl_ml.py:59-60 | (span − 6) × meal types rows survive, and none when the range has fewer than seven dates |
| `Features.PreprocessAt` | etl_ml.py:38-62 | row `i * n + j` (n meal types) of the result is the expected row of the (i + 7)-th date and the `j`-th meal type |
| `Features.PreprocessGroup` | etl_ml.py:55-60 | a meal type's surviving rows are its expected rows, one per kept date in date order |
| `Features.PreprocessLagIsPreviousRow` | etl_ml.py:56 | within a meal type's surviving rows, each row's `lag_1` is the previous row's quantity |
| `Features.PreprocessMeals` | etl_ml.py:59-60 | the meal types that survive are all those of the input if the range has at least seven dates, and none otherwise: a meal type never disappears on its own |
| `Forecaster.Train` | etl_ml.py:73-79 | no contract of its own: the regressor is a parameter, fitted on the five feature columns and the served quantities of one meal type's rows |
| `Forecaster.FutureFeatures` | etl_ml.py:92-98 | no contract of its own; its columns are in the ranges the `Calendar.Weekday`, `Calendar.ForecastWeekendFlag` and `Calendar.Month` contracts state |
| `Forecaster.Predict` | etl_ml.py:100 | no contract of its own; the `int()` it applies is stated by `Forecaster.Truncate` |
| `Forecaster.Rollout` | etl_ml.py:88-110 | no contract of its own; `Forecaster.RolloutLength`, `Forecaster.RolloutSnoc` and `Forecaster.RolloutAt` prove its properties |
| `Forecaster.WeekAhead` | etl_ml.py:82-110 | no contract of its own; `Forecaster.WeekAheadAt` proves its properties, and `Forecaster.PredictAhead` is proved equal to it |
| `Forecaster.GroupForecast` | etl_ml.py:70-110 | no contract of its own; `Forecaster.GroupForecastLength` proves its length, and `Forecaster.ForecastMeal` is proved equal to it |
| `Forecaster.MealForecast` | etl_ml.py:69-110 | no contract of its own; `Forecaster.MealForecastLength` and `Forecaster.MealForecastIsolated` prove its properties |
| `Forecaster.Forecasts` | etl_ml.py:64-112 | no contract of its own; `Forecaster.ForecastsAt` proves its shape, and `Forecaster.Forecast` is proved equal to it |
| `Forecaster.Truncate` | etl_ml.py:100 | `int()` truncates toward zero: the result is within one of the value, on the zero side |
| `Forecaster.Forecast` | etl_ml.py:64-112 | the outer loop's output is the concatenation of every meal type's forecast, in order of first appearance |
| `Forecaster.ForecastMeal` | etl_ml.py:70-86 | one meal type's iteration: train on its rows, then forecast from the group's latest date (`max()`, line 82) and the last row's quantity and mean |
| `Forecaster.PredictAhead` | etl_ml.py:85-110 | the inner loop's output is the seven-step rollout: prediction `i` is for date `last + i`; its lag is the previous prediction, or the last real quantity at the first step |
| `Forecaster.RolloutSnoc` | etl_ml.py:88-110 | the `n`-th prediction extends the first `n − 1` and uses the lag left by them |
| `Forecaster.RolloutLength` | etl_ml.py:88 | the rollout has one prediction per step |
| `Forecaster.RolloutAt` | etl_ml.py:88-110 | step `s` is for date `day + s`; its lag is the start lag at the first step and the previous prediction after that; the mean is fixed |
| `Forecaster.WeekAheadAt` | etl_ml.py:82-110 | the seven predictions are for `last + 1 .. last + 7`, with no gaps and no duplicates; the first lag is the last real quantity, each later lag is the previous prediction, and the mean is the last row's at every step |
| `Forecaster.GroupForecastLength` | etl_ml.py:88 | a meal type with rows has exactly `DIAS_A_PREDECIR` forecast rows |
| `Forecaster.MealForecastLength` | etl_ml.py:69-70 | a meal type of the table has seven forecast rows, and any other meal type none |
| `Forecaster.ForecastsAt` | etl_ml.py:64-112 | the output has 7 × meal types rows, and row `b * 7 + s` is step `s` of the `b`-th meal type's forecast |
| `Forecaster.MealForecastIsolated` | etl_ml.py:70 | rows of other meal types do not change a meal type's forecast |
| `Reconcile.RecentWindow` | etl_ml.py:229 | no contract of its own; `Reconcile.RecentWindowMembers`, `Reconcile.RecentWindowAppend`, `Reconcile.RecentWindowIdempotent` and `Reconcile.RecentWindowSuffix` prove its properties |
| `Reconcile.RecentActuals` | etl_ml.py:228-230 | no contract of its own; `Reconcile.RecentActualsSpan` proves the dates it keeps |
| `Reconcile.PrepareActuals` | etl_ml.py:114-131 | no contract of its own; `Reconcile.PrepareActualsLossless` proves it keeps every row and value |
| `Reconcile.ActualRoundTrip` | etl_ml.py:119-131 | the rename moves `raciones_servidas` into `raciones_consumidas_real`, and the projection loses no column of the row |
| `Reconcile.PrepareActualsLossless` | etl_ml.py:114-131 | `preparar_actualizacion_historica` neither drops nor adds rows and changes no value |
| `Reconcile.RecentWindowMembers` | etl_ml.py:229 | a row is selected exactly when it is a raw row dated on or after the cut-off |
| `Reconcile.RecentWindowAppend` | etl_ml.py:229 | the filter works row by row and keeps the original order |
| `Reconcile.RecentWindowIdempotent` | etl_ml.py:229 | the filter never adds rows, and filtering again changes nothing |
| `Reconcile.RecentActualsSpan` | etl_ml.py:228-229 | with the anchor at the latest date, the selection is non-empty; every kept date lies in [max − 30, max], a 31-day window; all rows of the latest date are kept |
| `Reconcile.RecentWindowSuffix` | etl_ml.py:229 | on rows read in date order (the `ORDER BY fecha` of line 31), the selection is a suffix of the rows |
| `Pipeline.Outcome` | etl_ml.py:211-233 | no contract of its own; `Pipeline.OutcomeGuard`, `Pipeline.CompletedForecast` and `Pipeline.ShortRangeForecast` prove its properties, and `Pipeline.Run` is proved equal to it |
| `Pipeline.Run` | etl_ml.py:211-233 | the main block yields the outcome of the guard, the forecast and the actuals |
| `Pipeline.OutcomeGuard` | etl_ml.py:217 | the run stops exactly when the view has fewer than ten rows; otherwise it returns the recent actuals |
| `Pipeline.SeriesEnd` | etl_ml.py:82-86 | a meal type's last surviving row is the one of the latest date, and it is also the latest of its dates |
| `Pipeline.MealForecastExpected` | etl_ml.py:69-110 | each meal type's forecast is a regressor trained on its surviving rows, started from the quantity and the seven-day mean of the latest date |
| `Pipeline.CompletedForecast` | etl_ml.py:64-112 | with seven or more dates, there are seven predictions per input meal type in order of first appearance, and prediction `b * 7 + s` is for the `b`-th meal type and the date `max + 1 + s` |
| `Pipeline.ExpectedForecastAt` | etl_ml.py:83-110 | step 1's lag is the quantity served on the latest date; step `s + 1`'s lag is step `s`'s prediction; the mean is that of the seven days up to the latest date at every step |
| `Pipeline.ShortRangeForecast` | etl_ml.py:217-224 | with fewer than seven dates, the preprocessed table is empty, nothing is predicted and no error is raised |

## Left out

- The database layer is not modelled: `get_db_connection`, `extraer_datos` and `guardar_en_bd`,
  including the SQL upserts, commit/rollback and cursors. This is I/O against an external
  database. The raw rows are a parameter of `Pipeline.Run` and the two tables are its result.
- The `load_dotenv`/`os.getenv` configuration and the `print` logging are environment plumbing.
  They are not modelled.
- `RandomForestRegressor` is not modelled. It is an opaque library doing floating-point work.
  - Training is a parameter `fit: Trainer`, a function of the training rows and targets. With its
    seed fixed, the regressor is deterministic.
  - A trained model is a function from a feature vector to a real number. `Forecaster.Truncate`
    models the `int(...)` around it.
- The breakdown columns `raciones_becados` and `raciones_regulares` are non-null integers. In the
  source, `dropna` would also drop a row whose breakdown is NULL.
- `Pipeline.Run` requires at most one row per (date, meal type). The source's `reindex` raises an
  error on a repeated key, and the view has one row per key.
- Dates are integer day numbers. The `to_datetime` conversion is not modelled, and neither is the
  side effect at line 39, where `df['fecha']` is rewritten in the caller's table.
- The calendar columns `dia_semana`, `es_finde` and `mes` are read from a row's date when needed
  (`Features.DayOfWeek`, `Features.Weekend`, `Features.MonthOf`); they are not stored as columns.
- `raciones_servidas` is a non-null integer. A NULL in one row would make `lag_1` of the next row
  NaN, and `media_movil_7` of that row and the six after it, so `dropna` would drop more rows than
  the model does.
- `media_movil_7` is an exact rational mean. The source computes it in floating point.
- `Forecaster.GroupForecast` of a meal type without rows is empty. The source never asks for one,
  because it loops over the meal types present.
- The source has no error types for empty or short input, and the model adds none. The only guard
  is the ten-row check. A meal type without surviving rows is simply absent from the loop.
  - Because the grid is dense, a meal type has surviving rows exactly when the date range has
    seven or more dates.
  - Its first six rows are dropped (undefined rolling mean), not seven as the comment at line 59
    says. The model follows the code.
