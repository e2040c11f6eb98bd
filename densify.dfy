/** The densifier of `preprocesar_datos`: every date from the first to the last observed
    date, crossed with every meal type in order of first appearance, date-major; a cell
    keeps the observed row for its (date, meal type) and is zero-filled otherwise. */
module Densifier {
  import opened Frames

  /** The view holds at most one row per (date, meal type); `reindex` needs this. */
  predicate UniqueKeys(raw: seq<Observation>)
  {
    forall i, j :: 0 <= i < j < |raw| ==> raw[i].date != raw[j].date || raw[i].meal != raw[j].meal
  }

  function FirstDate(raw: seq<Observation>): int
    requires |raw| > 0
  {
    Earliest(ObsDates(raw))
  }

  function LastDate(raw: seq<Observation>): int
    requires |raw| > 0
  {
    Latest(ObsDates(raw))
  }

  /** Number of days from the first to the last observed date, both included. */
  function DaySpan(raw: seq<Observation>): (n: nat)
    requires |raw| > 0
    ensures n >= 1
  {
    assert FirstDate(raw) <= ObsDates(raw)[0] <= LastDate(raw);
    LastDate(raw) - FirstDate(raw) + 1
  }

  /** The meal types of the input in order of first appearance (`tipo_comida.unique()`). */
  function Meals(raw: seq<Observation>): seq<Meal>
  {
    Unique(MealColumn(raw, ObsMeal))
  }

  /** The observed row for (d, m), if there is one. */
  function Lookup(raw: seq<Observation>, d: int, m: Meal): (r: Option<Observation>)
    ensures r.Some? ==> r.value in raw && r.value.date == d && r.value.meal == m
    ensures r.None? ==> forall i :: 0 <= i < |raw| ==> raw[i].date != d || raw[i].meal != m
  {
    if raw == [] then None
    else if raw[0].date == d && raw[0].meal == m then Some(raw[0])
    else Lookup(raw[1..], d, m)
  }

  /** The reindexed cell for (d, m): the observed row, or a row of zeros. */
  function Cell(raw: seq<Observation>, d: int, m: Meal): Observation
  {
    match Lookup(raw, d, m)
    case Some(o) => o
    case None => Observation(d, m, 0, 0, 0)
  }

  /** `raciones_servidas` of the reindexed cell for (d, m). */
  function Served(raw: seq<Observation>, d: int, m: Meal): int
  {
    Cell(raw, d, m).served
  }

  /** The grid rows for one date, one per meal type. */
  function DateBlock(raw: seq<Observation>, d: int, meals: seq<Meal>): seq<Observation>
  {
    seq(|meals|, j requires 0 <= j < |meals| => Cell(raw, d, meals[j]))
  }

  /** The blocks of `days` consecutive dates from `first` on. */
  function DateBlocks(raw: seq<Observation>, first: int, days: nat, meals: seq<Meal>): seq<seq<Observation>>
  {
    seq(days, i requires 0 <= i < days => DateBlock(raw, first + i, meals))
  }

  function Grid(raw: seq<Observation>, first: int, days: nat, meals: seq<Meal>): seq<Observation>
  {
    Flatten(DateBlocks(raw, first, days, meals))
  }

  /** `set_index(...).reindex(product(dates, meal types), fill_value=0)`. */
  function Densify(raw: seq<Observation>): seq<Observation>
    requires |raw| > 0
  {
    Grid(raw, FirstDate(raw), DaySpan(raw), Meals(raw))
  }

  // ---------------------------------------------------------------- properties

  /** The reindexed cell for (d, m) carries the key (d, m). */
  lemma CellKey(raw: seq<Observation>, d: int, m: Meal)
    ensures Cell(raw, d, m).date == d && Cell(raw, d, m).meal == m
  {
    match Lookup(raw, d, m) {
      case Some(_) =>
      case None =>
    }
  }

  /** A cell holds the observed row when there is one, zeros otherwise. */
  lemma CellContents(raw: seq<Observation>, d: int, m: Meal)
    requires UniqueKeys(raw)
    ensures forall i :: 0 <= i < |raw| && raw[i].date == d && raw[i].meal == m ==> Cell(raw, d, m) == raw[i]
    ensures (forall i :: 0 <= i < |raw| ==> raw[i].date != d || raw[i].meal != m)
            ==> Cell(raw, d, m) == Observation(d, m, 0, 0, 0)
  {
    match Lookup(raw, d, m)
    case Some(o) =>
      var k :| 0 <= k < |raw| && raw[k] == o;
      forall i | 0 <= i < |raw| && raw[i].date == d && raw[i].meal == m
        ensures Cell(raw, d, m) == raw[i]
      {
        assert i == k;
      }
    case None =>
  }

  lemma GridAligned(raw: seq<Observation>, first: int, days: nat, meals: seq<Meal>)
    ensures Aligned(DateBlocks(raw, first, days, meals), ObsMeal, meals)
  {
    var blocks := DateBlocks(raw, first, days, meals);
    forall i | 0 <= i < days
      ensures |blocks[i]| == |meals| && forall j :: 0 <= j < |meals| ==> ObsMeal(blocks[i][j]) == meals[j]
    {
      assert blocks[i] == DateBlock(raw, first + i, meals);
      forall j | 0 <= j < |meals| ensures ObsMeal(blocks[i][j]) == meals[j] {
        CellKey(raw, first + i, meals[j]);
      }
    }
  }

  /** The grid has one row per (date, meal type): `days * |meals|` rows. */
  lemma GridSize(raw: seq<Observation>, first: int, days: nat, meals: seq<Meal>)
    ensures |Grid(raw, first, days, meals)| == days * |meals|
  {
    GridAligned(raw, first, days, meals);
    FlattenLength(DateBlocks(raw, first, days, meals), ObsMeal, meals);
  }

  /** Date-major order: the cell for date `first + i` and meal type `meals[j]` is row `i * |meals| + j`. */
  lemma GridAt(raw: seq<Observation>, first: int, days: nat, meals: seq<Meal>, i: nat, j: nat)
    requires i < days && j < |meals|
    ensures i * |meals| + j < |Grid(raw, first, days, meals)|
    ensures Grid(raw, first, days, meals)[i * |meals| + j] == Cell(raw, first + i, meals[j])
  {
    var blocks := DateBlocks(raw, first, days, meals);
    GridAligned(raw, first, days, meals);
    FlattenAt(blocks, ObsMeal, meals, i, j);
    assert blocks[i] == DateBlock(raw, first + i, meals);
  }

  /** Every row of the grid is keyed by a date of the range and a listed meal type, and the
      key fixes the row's position. */
  lemma GridKeys(raw: seq<Observation>, first: int, days: nat, meals: seq<Meal>, k: nat)
    requires Distinct(meals)
    requires k < |Grid(raw, first, days, meals)|
    ensures var g := Grid(raw, first, days, meals);
      first <= g[k].date < first + days && g[k].meal in meals
      && k == (g[k].date - first) * |meals| + FirstIndex(meals, g[k].meal)
  {
    var n := |meals|;
    GridSize(raw, first, days, meals);
    assert n > 0;
    var i, j := k / n, k % n;
    assert k == i * n + j;
    if i >= days {
      MulMonotone(days, i, n);
    }
    GridAt(raw, first, days, meals, i, j);
    var o := Cell(raw, first + i, meals[j]);
    CellKey(raw, first + i, meals[j]);
    assert FirstIndex(meals, meals[j]) == j;
  }

  /** The densified table has (last - first + 1) * |meal types| rows. */
  lemma DensifySize(raw: seq<Observation>)
    requires |raw| > 0
    ensures |Densify(raw)| == DaySpan(raw) * |Meals(raw)|
  {
    GridSize(raw, FirstDate(raw), DaySpan(raw), Meals(raw));
  }

  /** No (date, meal type) key occurs twice in the densified table. */
  lemma DensifyKeysDistinct(raw: seq<Observation>, k1: nat, k2: nat)
    requires |raw| > 0
    requires k1 < k2 < |Densify(raw)|
    ensures Densify(raw)[k1].date != Densify(raw)[k2].date || Densify(raw)[k1].meal != Densify(raw)[k2].meal
  {
    GridKeys(raw, FirstDate(raw), DaySpan(raw), Meals(raw), k1);
    GridKeys(raw, FirstDate(raw), DaySpan(raw), Meals(raw), k2);
  }

  /** Every date of the range crossed with every meal type of the input has its row, holding the
      observed quantities if that (date, meal type) was observed and zeros otherwise. */
  lemma DensifyCovers(raw: seq<Observation>, d: int, m: Meal)
    requires |raw| > 0 && UniqueKeys(raw)
    requires FirstDate(raw) <= d <= LastDate(raw) && m in MealColumn(raw, ObsMeal)
    ensures exists k :: 0 <= k < |Densify(raw)| && Densify(raw)[k] == Cell(raw, d, m)
    ensures Cell(raw, d, m).date == d && Cell(raw, d, m).meal == m
    ensures forall i :: 0 <= i < |raw| && raw[i].date == d && raw[i].meal == m ==> Cell(raw, d, m) == raw[i]
    ensures (forall i :: 0 <= i < |raw| ==> raw[i].date != d || raw[i].meal != m)
            ==> Cell(raw, d, m) == Observation(d, m, 0, 0, 0)
  {
    var meals := Meals(raw);
    var j := FirstIndex(meals, m);
    var i := d - FirstDate(raw);
    GridAt(raw, FirstDate(raw), DaySpan(raw), meals, i, j);
    assert Densify(raw)[i * |meals| + j] == Cell(raw, d, m);
    CellKey(raw, d, m);
    CellContents(raw, d, m);
  }

  /** Every observed row survives densification unchanged. */
  lemma DensifyKeepsObservations(raw: seq<Observation>, i: nat)
    requires UniqueKeys(raw) && i < |raw|
    ensures exists k :: 0 <= k < |Densify(raw)| && Densify(raw)[k] == raw[i]
  {
    assert ObsDates(raw)[i] == raw[i].date;
    assert MealColumn(raw, ObsMeal)[i] == raw[i].meal;
    DensifyCovers(raw, raw[i].date, raw[i].meal);
  }
}
