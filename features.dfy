/** The feature builder of `preprocesar_datos`: calendar features of each row, `lag_1`
    (the group's previous `raciones_servidas`, by `groupby('tipo_comida').shift(1)`),
    `media_movil_7` (the group's trailing 7-row mean, by `rolling(7).mean()`), then
    `dropna`. The group operations are stated for any table; on the densified table they
    are proved to mean "the previous calendar day" and "the last seven calendar days". */
module Features {
  import opened Frames
  import opened Calendar
  import opened Densifier

  /** A densified row with its group features; `None` stands for the NaN the library produces.
      The calendar columns `dia_semana`, `es_finde` and `mes` are functions of the row's date
      and are read off it by `DayOfWeek`, `Weekend` and `MonthOf`. */
  datatype Featured = Featured(obs: Observation, lag: Option<int>, mean: Option<real>)

  /** A row left by `dropna`, every feature defined. */
  datatype FeatureRow = FeatureRow(obs: Observation, lag: int, mean: real)

  /** `dia_semana` of a row. */
  function DayOfWeek(r: FeatureRow): int { Weekday(r.obs.date) }

  /** `es_finde` of a row. */
  function Weekend(r: FeatureRow): int { WeekendFlag(Weekday(r.obs.date)) }

  /** `mes` of a row. */
  function MonthOf(r: FeatureRow): int { Month(r.obs.date) }

  function FeatureMeal(r: FeatureRow): Meal { r.obs.meal }

  /** The window of `rolling(7)`. */
  const MeanWindow := 7

  function ServedColumn(rows: seq<Observation>): seq<int>
  {
    seq(|rows|, i requires 0 <= i < |rows| => rows[i].served)
  }

  /** The `raciones_servidas` of row `k`'s group, as `groupby` sees it at row `k`: the rows of
      the same meal type up to and including row `k`, in table order. */
  function History(rows: seq<Observation>, k: nat): seq<int>
    requires k < |rows|
  {
    ServedColumn(Select(rows[..k + 1], ObsMeal, rows[k].meal))
  }

  /** `shift(1)`: the group's previous value, NaN on the group's first row. */
  function Shift(h: seq<int>): Option<int>
  {
    if |h| >= 2 then Some(h[|h| - 2]) else None
  }

  /** `rolling(7).mean()`: the mean of the group's last seven values, NaN before the seventh. */
  function RollingMean(h: seq<int>): Option<real>
  {
    if |h| >= MeanWindow then Some(Sum(h[|h| - MeanWindow..]) as real / MeanWindow as real) else None
  }

  function Featurize(rows: seq<Observation>, k: nat): Featured
    requires k < |rows|
  {
    var h := History(rows, k);
    Featured(rows[k], Shift(h), RollingMean(h))
  }

  function AddFeatures(rows: seq<Observation>): seq<Featured>
  {
    seq(|rows|, k requires 0 <= k < |rows| => Featurize(rows, k))
  }

  predicate Complete(f: Featured)
  {
    f.lag.Some? && f.mean.Some?
  }

  function Completed(f: Featured): FeatureRow
    requires Complete(f)
  {
    FeatureRow(f.obs, f.lag.value, f.mean.value)
  }

  /** `dropna`: the rows whose features are all defined, in table order. */
  function DropNa(fs: seq<Featured>): seq<FeatureRow>
  {
    if fs == [] then []
    else
      var f := fs[|fs| - 1];
      DropNa(fs[..|fs| - 1]) + (if Complete(f) then [Completed(f)] else [])
  }

  /** `preprocesar_datos`: densify, add the features, drop the rows with NaN. */
  function Preprocess(raw: seq<Observation>): seq<FeatureRow>
    requires |raw| > 0
  {
    DropNa(AddFeatures(Densify(raw)))
  }

  // ---------------------------------------------------------------- reference definitions

  /** The quantities of meal type `m` on the `count` dates from `first` on. */
  function DailyServed(raw: seq<Observation>, first: int, count: nat, m: Meal): seq<int>
  {
    seq(count, t requires 0 <= t < count => Served(raw, first + t, m))
  }

  /** The quantities of meal type `m` on the seven calendar days ending at `d`, added up. */
  function WindowSum(raw: seq<Observation>, d: int, m: Meal): int
  {
    Sum(DailyServed(raw, d - (MeanWindow - 1), MeanWindow, m))
  }

  function WindowMean(raw: seq<Observation>, d: int, m: Meal): real
  {
    WindowSum(raw, d, m) as real / MeanWindow as real
  }

  /** What the feature builder should produce for date `d` and meal type `m`: the densified
      cell, the previous calendar day's quantity of the same meal type and the mean of that
      meal type's last seven calendar days. */
  function ExpectedRow(raw: seq<Observation>, d: int, m: Meal): FeatureRow
  {
    FeatureRow(Cell(raw, d, m), Served(raw, d - 1, m), WindowMean(raw, d, m))
  }

  function ExpectedBlock(raw: seq<Observation>, d: int, meals: seq<Meal>): seq<FeatureRow>
  {
    seq(|meals|, j requires 0 <= j < |meals| => ExpectedRow(raw, d, meals[j]))
  }

  /** Dates of a range of `days` dates that keep their rows: all but the first six. */
  function KeptDays(days: nat): nat
  {
    if days >= MeanWindow then days - (MeanWindow - 1) else 0
  }

  /** One block per date from the seventh date of the range on. */
  function ExpectedBlocks(raw: seq<Observation>, first: int, days: nat, meals: seq<Meal>): seq<seq<FeatureRow>>
  {
    seq(KeptDays(days), i requires 0 <= i < KeptDays(days) => ExpectedBlock(raw, first + (MeanWindow - 1) + i, meals))
  }

  /** The expected rows of meal type `m`, one per kept date, in date order. */
  function ExpectedSeries(raw: seq<Observation>, first: int, kept: nat, m: Meal): seq<FeatureRow>
  {
    seq(kept, i requires 0 <= i < kept => ExpectedRow(raw, first + (MeanWindow - 1) + i, m))
  }

  // ---------------------------------------------------------------- proofs

  /** On the grid, the group seen at date `first + i` is the meal type's quantities on every
      date from `first` to `first + i`. */
  lemma GridHistory(raw: seq<Observation>, first: int, days: nat, meals: seq<Meal>, i: nat, j: nat)
    requires Distinct(meals) && i < days && j < |meals|
    ensures i * |meals| + j < |Grid(raw, first, days, meals)|
    ensures History(Grid(raw, first, days, meals), i * |meals| + j) == DailyServed(raw, first, i + 1, meals[j])
  {
    var blocks := DateBlocks(raw, first, days, meals);
    GridAligned(raw, first, days, meals);
    GridAt(raw, first, days, meals, i, j);
    CellKey(raw, first + i, meals[j]);
    SelectUpTo(blocks, ObsMeal, meals, i, j);
    var col := Column(blocks[..i + 1], j);
    forall t | 0 <= t <= i ensures col[t].served == Served(raw, first + t, meals[j]) {
      assert blocks[t] == DateBlock(raw, first + t, meals);
    }
  }

  lemma ShiftOfDays(raw: seq<Observation>, first: int, i: nat, m: Meal)
    ensures Shift(DailyServed(raw, first, i + 1, m)) == if i >= 1 then Some(Served(raw, first + i - 1, m)) else None
  {
  }

  lemma WindowOfDays(raw: seq<Observation>, first: int, i: nat, m: Meal)
    requires i >= MeanWindow - 1
    ensures var h := DailyServed(raw, first, i + 1, m);
      Sum(h[|h| - MeanWindow..]) == WindowSum(raw, first + i, m)
  {
    var h := DailyServed(raw, first, i + 1, m);
    assert h[|h| - MeanWindow..] == DailyServed(raw, first + i - (MeanWindow - 1), MeanWindow, m);
  }

  lemma RollingMeanOfDays(raw: seq<Observation>, first: int, i: nat, m: Meal)
    ensures RollingMean(DailyServed(raw, first, i + 1, m))
         == if i >= MeanWindow - 1 then Some(WindowMean(raw, first + i, m)) else None
  {
    if i >= MeanWindow - 1 {
      WindowOfDays(raw, first, i, m);
    }
  }

  /** On the grid, the features of date `first + i` and meal type `meals[j]`: `lag_1` is the
      previous calendar day's quantity of the same meal type from the second date on, and
      `media_movil_7` the mean of its last seven calendar days from the seventh date on. */
  lemma GridFeatures(raw: seq<Observation>, first: int, days: nat, meals: seq<Meal>, i: nat, j: nat)
    requires Distinct(meals) && i < days && j < |meals|
    ensures i * |meals| + j < |AddFeatures(Grid(raw, first, days, meals))|
    ensures var f := AddFeatures(Grid(raw, first, days, meals))[i * |meals| + j];
      var d, m := first + i, meals[j];
      && f.obs == Cell(raw, d, m)
      && f.lag == (if i >= 1 then Some(Served(raw, d - 1, m)) else None)
      && f.mean == (if i >= MeanWindow - 1 then Some(WindowMean(raw, d, m)) else None)
  {
    var g := Grid(raw, first, days, meals);
    var k := i * |meals| + j;
    GridHistory(raw, first, days, meals, i, j);
    GridAt(raw, first, days, meals, i, j);
    CellKey(raw, first + i, meals[j]);
    ShiftOfDays(raw, first, i, meals[j]);
    RollingMeanOfDays(raw, first, i, meals[j]);
    assert AddFeatures(g)[k] == Featurize(g, k);
  }

  /** Exactly the rows from the seventh date of the range on survive `dropna`. */
  lemma GridRowSurvives(raw: seq<Observation>, first: int, days: nat, meals: seq<Meal>, i: nat, j: nat)
    requires Distinct(meals) && i < days && j < |meals|
    ensures i * |meals| + j < |AddFeatures(Grid(raw, first, days, meals))|
    ensures Complete(AddFeatures(Grid(raw, first, days, meals))[i * |meals| + j]) <==> i >= MeanWindow - 1
  {
    GridFeatures(raw, first, days, meals, i, j);
  }

  lemma {:induction false} DropNaAppend(a: seq<Featured>, b: seq<Featured>)
    ensures DropNa(a + b) == DropNa(a) + DropNa(b)
  {
    if b == [] {
      assert a + b == a;
    } else {
      var b' := b[..|b| - 1];
      assert (a + b)[..|a + b| - 1] == a + b';
      DropNaAppend(a, b');
    }
  }

  lemma {:induction false} DropNaNoneComplete(fs: seq<Featured>)
    requires forall k :: 0 <= k < |fs| ==> !Complete(fs[k])
    ensures DropNa(fs) == []
  {
    if fs != [] {
      DropNaNoneComplete(fs[..|fs| - 1]);
    }
  }

  lemma {:induction false} DropNaAllComplete(fs: seq<Featured>)
    requires forall k :: 0 <= k < |fs| ==> Complete(fs[k])
    ensures DropNa(fs) == seq(|fs|, k requires 0 <= k < |fs| => Completed(fs[k]))
  {
    if fs != [] {
      DropNaAllComplete(fs[..|fs| - 1]);
    }
  }

  lemma DropNaAllCompleted(fs: seq<Featured>, rows: seq<FeatureRow>)
    requires |fs| == |rows|
    requires forall k :: 0 <= k < |fs| ==> Complete(fs[k]) && Completed(fs[k]) == rows[k]
    ensures DropNa(fs) == rows
  {
    DropNaAllComplete(fs);
  }

  /** A row's features depend only on the rows up to it. */
  lemma AddFeaturesPrefix(x: seq<Observation>, y: seq<Observation>)
    ensures |x| <= |AddFeatures(x + y)|
    ensures AddFeatures(x + y)[..|x|] == AddFeatures(x)
  {
    forall k | 0 <= k < |x| ensures Featurize(x + y, k) == Featurize(x, k) {
      assert (x + y)[..k + 1] == x[..k + 1];
    }
  }

  lemma GridExtend(raw: seq<Observation>, first: int, days: nat, meals: seq<Meal>)
    ensures Grid(raw, first, days + 1, meals) == Grid(raw, first, days, meals) + DateBlock(raw, first + days, meals)
  {
    assert DateBlocks(raw, first, days + 1, meals)[..days] == DateBlocks(raw, first, days, meals);
  }

  /** The features of a table extended at the end are the old table's features followed by
      those of the new rows. */
  lemma AddFeaturesSplit(x: seq<Observation>, y: seq<Observation>)
    ensures |x| <= |AddFeatures(x + y)|
    ensures AddFeatures(x + y) == AddFeatures(x) + AddFeatures(x + y)[|x|..]
  {
    AddFeaturesPrefix(x, y);
    var all := AddFeatures(x + y);
    assert all == all[..|x|] + all[|x|..];
  }

  /** The features of the rows of the grid's last date `first + b`. */
  lemma LastDateRow(raw: seq<Observation>, first: int, b: nat, meals: seq<Meal>, t: nat)
    requires Distinct(meals) && t < |meals|
    ensures |Grid(raw, first, b, meals)| + t < |AddFeatures(Grid(raw, first, b + 1, meals))|
    ensures Complete(AddFeatures(Grid(raw, first, b + 1, meals))[|Grid(raw, first, b, meals)| + t])
        <==> b >= MeanWindow - 1
    ensures Complete(AddFeatures(Grid(raw, first, b + 1, meals))[|Grid(raw, first, b, meals)| + t])
        ==> Completed(AddFeatures(Grid(raw, first, b + 1, meals))[|Grid(raw, first, b, meals)| + t])
            == ExpectedRow(raw, first + b, meals[t])
  {
    GridSize(raw, first, b, meals);
    GridFeatures(raw, first, b + 1, meals, b, t);
  }

  /** `dropna` keeps all the rows of the last date `first + b`, as the expected rows, from the
      seventh date on and none of them before. */
  lemma LastDateDropNa(raw: seq<Observation>, first: int, b: nat, meals: seq<Meal>)
    requires Distinct(meals)
    ensures |Grid(raw, first, b, meals)| <= |AddFeatures(Grid(raw, first, b + 1, meals))|
    ensures DropNa(AddFeatures(Grid(raw, first, b + 1, meals))[|Grid(raw, first, b, meals)|..])
         == if b >= MeanWindow - 1 then ExpectedBlock(raw, first + b, meals) else []
  {
    var n := |meals|;
    var prev := Grid(raw, first, b, meals);
    var all := AddFeatures(Grid(raw, first, b + 1, meals));
    GridExtend(raw, first, b, meals);
    var tail := all[|prev|..];
    var expected := ExpectedBlock(raw, first + b, meals);
    assert |tail| == n;
    forall t | 0 <= t < n
      ensures Complete(tail[t]) <==> b >= MeanWindow - 1
      ensures Complete(tail[t]) ==> Completed(tail[t]) == expected[t]
    {
      LastDateRow(raw, first, b, meals, t);
      assert tail[t] == all[|prev| + t];
    }
    if b < MeanWindow - 1 {
      DropNaNoneComplete(tail);
    } else {
      DropNaAllCompleted(tail, expected);
    }
  }

  lemma ExpectedBlocksSnoc(raw: seq<Observation>, first: int, b: nat, meals: seq<Meal>)
    requires b >= MeanWindow - 1
    ensures ExpectedBlocks(raw, first, b + 1, meals) == ExpectedBlocks(raw, first, b, meals) + [ExpectedBlock(raw, first + b, meals)]
  {
    var eb := ExpectedBlocks(raw, first, b + 1, meals);
    var i := b - (MeanWindow - 1);
    assert |eb| == i + 1;
    assert first + (MeanWindow - 1) + i == first + b;
    assert eb[i] == ExpectedBlock(raw, first + b, meals);
    assert eb[..i] == ExpectedBlocks(raw, first, b, meals);
    assert eb == eb[..i] + [eb[i]];
  }

  /** The feature builder on a grid of `days` dates yields the expected rows of its dates from
      the seventh on, block by block. */
  lemma {:induction false} DropNaOfGrid(raw: seq<Observation>, first: int, days: nat, meals: seq<Meal>)
    requires Distinct(meals)
    ensures DropNa(AddFeatures(Grid(raw, first, days, meals))) == Flatten(ExpectedBlocks(raw, first, days, meals))
  {
    if days == 0 {
      assert Grid(raw, first, days, meals) == [];
    } else {
      var b: nat := days - 1;
      DropNaOfGrid(raw, first, b, meals);
      DropNaOfGridStep(raw, first, b, meals);
      ExpectedBlocksStep(raw, first, b, meals);
    }
  }

  /** Adding the grid's next date adds the expected rows of that date, if it is the seventh
      or later, to the rows that survive. */
  lemma DropNaOfGridStep(raw: seq<Observation>, first: int, b: nat, meals: seq<Meal>)
    requires Distinct(meals)
    ensures DropNa(AddFeatures(Grid(raw, first, b + 1, meals)))
         == DropNa(AddFeatures(Grid(raw, first, b, meals)))
            + (if b >= MeanWindow - 1 then ExpectedBlock(raw, first + b, meals) else [])
  {
    var prev := Grid(raw, first, b, meals);
    var block := DateBlock(raw, first + b, meals);
    GridExtend(raw, first, b, meals);
    AddFeaturesSplit(prev, block);
    LastDateDropNa(raw, first, b, meals);
    DropNaAppend(AddFeatures(prev), AddFeatures(prev + block)[|prev|..]);
  }

  lemma ExpectedBlocksStep(raw: seq<Observation>, first: int, b: nat, meals: seq<Meal>)
    ensures Flatten(ExpectedBlocks(raw, first, b + 1, meals))
         == Flatten(ExpectedBlocks(raw, first, b, meals))
            + (if b >= MeanWindow - 1 then ExpectedBlock(raw, first + b, meals) else [])
  {
    var eb := ExpectedBlocks(raw, first, b + 1, meals);
    if b < MeanWindow - 1 {
      assert eb == ExpectedBlocks(raw, first, b, meals);
    } else {
      ExpectedBlocksSnoc(raw, first, b, meals);
      assert eb[..|eb| - 1] == ExpectedBlocks(raw, first, b, meals);
    }
  }

  // ---------------------------------------------------------------- the preprocessed table

  lemma ExpectedAligned(raw: seq<Observation>, first: int, days: nat, meals: seq<Meal>)
    ensures Aligned(ExpectedBlocks(raw, first, days, meals), FeatureMeal, meals)
  {
    var eb := ExpectedBlocks(raw, first, days, meals);
    forall i | 0 <= i < |eb|
      ensures |eb[i]| == |meals| && forall j :: 0 <= j < |meals| ==> FeatureMeal(eb[i][j]) == meals[j]
    {
      var d := first + (MeanWindow - 1) + i;
      assert eb[i] == ExpectedBlock(raw, d, meals);
      forall j | 0 <= j < |meals| ensures FeatureMeal(eb[i][j]) == meals[j] {
        CellKey(raw, d, meals[j]);
      }
    }
  }

  /** `preprocesar_datos` yields, date after date from the seventh date of the range on, one
      expected row per meal type in order of first appearance. */
  lemma PreprocessShape(raw: seq<Observation>)
    requires |raw| > 0
    ensures Preprocess(raw) == Flatten(ExpectedBlocks(raw, FirstDate(raw), DaySpan(raw), Meals(raw)))
  {
    DropNaOfGrid(raw, FirstDate(raw), DaySpan(raw), Meals(raw));
  }

  /** Six dates' rows of every meal type are dropped: (span - 6) * |meal types| rows are left,
      none when the range has fewer than seven dates. */
  lemma PreprocessSize(raw: seq<Observation>)
    requires |raw| > 0
    ensures |Preprocess(raw)| == KeptDays(DaySpan(raw)) * |Meals(raw)|
    ensures DaySpan(raw) < MeanWindow ==> Preprocess(raw) == []
  {
    var eb := ExpectedBlocks(raw, FirstDate(raw), DaySpan(raw), Meals(raw));
    PreprocessShape(raw);
    ExpectedAligned(raw, FirstDate(raw), DaySpan(raw), Meals(raw));
    FlattenLength(eb, FeatureMeal, Meals(raw));
  }

  lemma ExpectedAt(raw: seq<Observation>, first: int, days: nat, meals: seq<Meal>, i: nat, j: nat)
    requires i < KeptDays(days) && j < |meals|
    ensures i * |meals| + j < |Flatten(ExpectedBlocks(raw, first, days, meals))|
    ensures Flatten(ExpectedBlocks(raw, first, days, meals))[i * |meals| + j]
         == ExpectedRow(raw, first + (MeanWindow - 1) + i, meals[j])
  {
    var eb := ExpectedBlocks(raw, first, days, meals);
    ExpectedAligned(raw, first, days, meals);
    FlattenAt(eb, FeatureMeal, meals, i, j);
    assert eb[i] == ExpectedBlock(raw, first + (MeanWindow - 1) + i, meals);
  }

  lemma ExpectedGroup(raw: seq<Observation>, first: int, days: nat, meals: seq<Meal>, j: nat)
    requires Distinct(meals) && j < |meals|
    ensures Select(Flatten(ExpectedBlocks(raw, first, days, meals)), FeatureMeal, meals[j])
         == ExpectedSeries(raw, first, KeptDays(days), meals[j])
  {
    ExpectedColumn(raw, first, days, meals, j);
    SelectFlatten(ExpectedBlocks(raw, first, days, meals), FeatureMeal, meals, j);
  }

  lemma ExpectedColumn(raw: seq<Observation>, first: int, days: nat, meals: seq<Meal>, j: nat)
    requires j < |meals|
    ensures Aligned(ExpectedBlocks(raw, first, days, meals), FeatureMeal, meals)
    ensures Column(ExpectedBlocks(raw, first, days, meals), j) == ExpectedSeries(raw, first, KeptDays(days), meals[j])
  {
    var eb := ExpectedBlocks(raw, first, days, meals);
    ExpectedAligned(raw, first, days, meals);
    var col := Column(eb, j);
    forall i | 0 <= i < |col| ensures col[i] == ExpectedRow(raw, first + (MeanWindow - 1) + i, meals[j]) {
      assert eb[i] == ExpectedBlock(raw, first + (MeanWindow - 1) + i, meals);
    }
  }

  lemma ExpectedSeriesLag(raw: seq<Observation>, first: int, kept: nat, m: Meal, i: nat)
    requires i + 1 < kept
    ensures ExpectedSeries(raw, first, kept, m)[i + 1].lag == ExpectedSeries(raw, first, kept, m)[i].obs.served
  {
    var d := first + (MeanWindow - 1) + i;
    assert ExpectedSeries(raw, first, kept, m)[i + 1] == ExpectedRow(raw, d + 1, m);
    assert ExpectedSeries(raw, first, kept, m)[i] == ExpectedRow(raw, d, m);
    assert d + 1 - 1 == d;
  }

  /** Row `i * |meal types| + j` of the preprocessed table is the expected row of the
      (i + 7)-th date of the range and the j-th meal type. */
  lemma PreprocessAt(raw: seq<Observation>, i: nat, j: nat)
    requires |raw| > 0 && i < KeptDays(DaySpan(raw)) && j < |Meals(raw)|
    ensures i * |Meals(raw)| + j < |Preprocess(raw)|
    ensures Preprocess(raw)[i * |Meals(raw)| + j]
         == ExpectedRow(raw, FirstDate(raw) + (MeanWindow - 1) + i, Meals(raw)[j])
  {
    PreprocessShape(raw);
    ExpectedAt(raw, FirstDate(raw), DaySpan(raw), Meals(raw), i, j);
  }

  /** The rows of one meal type in the preprocessed table are its expected rows, one per kept
      date in date order: rows of other meal types never enter its lags or means. */
  lemma PreprocessGroup(raw: seq<Observation>, m: Meal)
    requires |raw| > 0 && m in Meals(raw)
    ensures Select(Preprocess(raw), FeatureMeal, m) == ExpectedSeries(raw, FirstDate(raw), KeptDays(DaySpan(raw)), m)
  {
    PreprocessShape(raw);
    ExpectedGroup(raw, FirstDate(raw), DaySpan(raw), Meals(raw), FirstIndex(Meals(raw), m));
  }

  /** Within a meal type's surviving rows, each row's `lag_1` is the previous row's quantity. */
  lemma PreprocessLagIsPreviousRow(raw: seq<Observation>, m: Meal, i: nat)
    requires |raw| > 0 && m in Meals(raw)
    requires i + 1 < |Select(Preprocess(raw), FeatureMeal, m)|
    ensures Select(Preprocess(raw), FeatureMeal, m)[i + 1].lag == Select(Preprocess(raw), FeatureMeal, m)[i].obs.served
  {
    PreprocessGroup(raw, m);
    ExpectedSeriesLag(raw, FirstDate(raw), KeptDays(DaySpan(raw)), m, i);
  }

  /** The meal types of the preprocessed table are those of the input when the range has at
      least seven dates, and there are none otherwise: a meal type never disappears alone. */
  lemma PreprocessMeals(raw: seq<Observation>)
    requires |raw| > 0
    ensures Unique(MealColumn(Preprocess(raw), FeatureMeal)) == if DaySpan(raw) >= MeanWindow then Meals(raw) else []
  {
    var eb := ExpectedBlocks(raw, FirstDate(raw), DaySpan(raw), Meals(raw));
    PreprocessShape(raw);
    PreprocessSize(raw);
    if DaySpan(raw) >= MeanWindow {
      ExpectedAligned(raw, FirstDate(raw), DaySpan(raw), Meals(raw));
      UniqueOfFlatten(eb, FeatureMeal, Meals(raw));
    } else {
      assert MealColumn(Preprocess(raw), FeatureMeal) == [];
    }
  }
}
