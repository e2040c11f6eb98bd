/** Table operations the batch job borrows from its data-frame library, stated over
    sequences of rows: the input record, `unique`, selecting one meal type's rows
    (`df[df['tipo_comida'] == m]`), `max`, and the row-major layout of a cross product. */
module Frames {

  /** A meal type (`tipo_comida`); the job only ever compares meal types for equality. */
  type Meal = string

  datatype Option<T> = None | Some(value: T)

  /** One row of the daily sales view: the date as a day number (day 0 is 1970-01-01),
      the meal type, the meals served, and the subsidised and regular breakdown. */
  datatype Observation = Observation(date: int, meal: Meal, served: int, subsidized: int, regular: int)

  function ObsMeal(o: Observation): Meal { o.meal }

  function ObsDates(rows: seq<Observation>): seq<int>
  {
    seq(|rows|, i requires 0 <= i < |rows| => rows[i].date)
  }

  /** The meal-type column of a table whose rows carry their meal type through `mealOf`. */
  function MealColumn<T>(rows: seq<T>, mealOf: T -> Meal): seq<Meal>
  {
    seq(|rows|, i requires 0 <= i < |rows| => mealOf(rows[i]))
  }

  predicate Distinct(ms: seq<Meal>)
  {
    forall i, j :: 0 <= i < j < |ms| ==> ms[i] != ms[j]
  }

  // ---------------------------------------------------------------- unique

  /** The distinct meal types of `ms` in order of first appearance (`Series.unique`). */
  function Unique(ms: seq<Meal>): (u: seq<Meal>)
    ensures Distinct(u)
    ensures forall m :: m in u <==> m in ms
  {
    if ms == [] then []
    else
      var init := ms[..|ms| - 1];
      var u0 := Unique(init);
      assert ms == init + [ms[|ms| - 1]];
      if ms[|ms| - 1] in u0 then u0 else u0 + [ms[|ms| - 1]]
  }

  /** The position at which `m` first occurs in `ms`. */
  function FirstIndex(ms: seq<Meal>, m: Meal): (k: nat)
    requires m in ms
    ensures k < |ms| && ms[k] == m
    ensures forall i :: 0 <= i < k ==> ms[i] != m
  {
    if ms[0] == m then 0 else 1 + FirstIndex(ms[1..], m)
  }

  lemma FirstIndexOfPrefix(a: seq<Meal>, b: seq<Meal>, m: Meal)
    requires m in a
    ensures FirstIndex(a + b, m) == FirstIndex(a, m)
  {
    var k, k' := FirstIndex(a + b, m), FirstIndex(a, m);
    assert (a + b)[k'] == m;
  }

  /** `unique` lists the meal types in the order in which they first appear. */
  lemma {:induction false} UniqueKeepsFirstAppearanceOrder(ms: seq<Meal>, i: nat, j: nat)
    requires i < j < |Unique(ms)|
    ensures FirstIndex(ms, Unique(ms)[i]) < FirstIndex(ms, Unique(ms)[j])
  {
    var init, x := ms[..|ms| - 1], ms[|ms| - 1];
    assert ms == init + [x];
    var u0 := Unique(init);
    var u := Unique(ms);
    assert u[i] in u0 by {
      if x !in u0 { assert u == u0 + [x]; assert i < |u0|; }
    }
    assert u[i] == u0[i];
    FirstIndexOfPrefix(init, [x], u[i]);
    if j < |u0| {
      assert u[j] == u0[j];
      UniqueKeepsFirstAppearanceOrder(init, i, j);
      FirstIndexOfPrefix(init, [x], u[j]);
    } else {
      assert x !in u0 && u[j] == x;
      assert x !in init;
      assert FirstIndex(ms, x) == |ms| - 1;
    }
  }

  lemma {:induction false} UniqueOfDistinct(ms: seq<Meal>)
    requires Distinct(ms)
    ensures Unique(ms) == ms
  {
    if ms != [] {
      var init := ms[..|ms| - 1];
      UniqueOfDistinct(init);
      assert ms[|ms| - 1] !in init;
      assert ms == init + [ms[|ms| - 1]];
    }
  }

  /** Appending meal types that already occur changes nothing in `unique`. */
  lemma {:induction false} UniqueAbsorbs(s: seq<Meal>, t: seq<Meal>)
    requires forall m :: m in t ==> m in s
    ensures Unique(s + t) == Unique(s)
  {
    if t == [] {
      assert s + t == s;
    } else {
      var t' := t[..|t| - 1];
      assert (s + t)[..|s + t| - 1] == s + t';
      assert t[|t| - 1] in t;
      UniqueAbsorbs(s, t');
    }
  }

  // ---------------------------------------------------------------- selection by meal type

  /** The rows of meal type `m`, in table order (`df[df['tipo_comida'] == m]`). */
  function Select<T>(rows: seq<T>, mealOf: T -> Meal, m: Meal): (r: seq<T>)
    ensures |r| <= |rows|
    ensures forall i :: 0 <= i < |r| ==> mealOf(r[i]) == m
  {
    if rows == [] then []
    else
      var init := Select(rows[..|rows| - 1], mealOf, m);
      if mealOf(rows[|rows| - 1]) == m then init + [rows[|rows| - 1]] else init
  }

  /** A row is selected exactly when it is a row of the table of meal type `m`. */
  lemma {:induction false} SelectMembers<T>(rows: seq<T>, mealOf: T -> Meal, m: Meal, x: T)
    ensures x in Select(rows, mealOf, m) <==> x in rows && mealOf(x) == m
  {
    if rows != [] {
      var init := rows[..|rows| - 1];
      SelectMembers(init, mealOf, m, x);
      assert rows == init + [rows[|rows| - 1]];
    }
  }

  lemma {:induction false} SelectAppend<T>(a: seq<T>, b: seq<T>, mealOf: T -> Meal, m: Meal)
    ensures Select(a + b, mealOf, m) == Select(a, mealOf, m) + Select(b, mealOf, m)
  {
    if b == [] {
      assert a + b == a;
    } else {
      var b' := b[..|b| - 1];
      assert (a + b)[..|a + b| - 1] == a + b';
      SelectAppend(a, b', mealOf, m);
    }
  }

  /** A meal type that no row has selects nothing. */
  lemma {:induction false} SelectNone<T>(rows: seq<T>, mealOf: T -> Meal, m: Meal)
    requires forall i :: 0 <= i < |rows| ==> mealOf(rows[i]) != m
    ensures Select(rows, mealOf, m) == []
  {
    if rows != [] {
      SelectNone(rows[..|rows| - 1], mealOf, m);
    }
  }

  /** A meal type has rows exactly when it occurs in the meal-type column. */
  lemma {:induction false} SelectNonEmpty<T>(rows: seq<T>, mealOf: T -> Meal, m: Meal)
    ensures |Select(rows, mealOf, m)| > 0 <==> m in MealColumn(rows, mealOf)
  {
    if rows != [] {
      var init := rows[..|rows| - 1];
      SelectNonEmpty(init, mealOf, m);
      assert MealColumn(rows, mealOf) == MealColumn(init, mealOf) + [mealOf(rows[|rows| - 1])];
    }
  }

  // ---------------------------------------------------------------- row-major blocks

  /** The rows of consecutive blocks, block after block. */
  function Flatten<T>(blocks: seq<seq<T>>): seq<T>
  {
    if blocks == [] then [] else Flatten(blocks[..|blocks| - 1]) + blocks[|blocks| - 1]
  }

  /** Every block holds one row per meal type, in the order of `meals`. */
  predicate Aligned<T>(blocks: seq<seq<T>>, mealOf: T -> Meal, meals: seq<Meal>)
  {
    forall i :: 0 <= i < |blocks| ==>
      |blocks[i]| == |meals| && forall j :: 0 <= j < |meals| ==> mealOf(blocks[i][j]) == meals[j]
  }

  /** The `j`-th row of every block. */
  function Column<T>(blocks: seq<seq<T>>, j: nat): seq<T>
    requires forall i :: 0 <= i < |blocks| ==> j < |blocks[i]|
  {
    seq(|blocks|, i requires 0 <= i < |blocks| => blocks[i][j])
  }

  lemma {:induction false} FlattenAppend<T>(a: seq<seq<T>>, b: seq<seq<T>>)
    ensures Flatten(a + b) == Flatten(a) + Flatten(b)
  {
    if b == [] {
      assert a + b == a;
    } else {
      var b' := b[..|b| - 1];
      assert (a + b)[..|a + b| - 1] == a + b';
      FlattenAppend(a, b');
    }
  }

  /** Flattening one more block appends its rows. */
  lemma FlattenSnoc<T>(blocks: seq<seq<T>>, b: nat)
    requires b < |blocks|
    ensures Flatten(blocks[..b + 1]) == Flatten(blocks[..b]) + blocks[b]
  {
    assert blocks[..b + 1][..b] == blocks[..b];
  }

  /** Blocks of `n` rows each flatten to `n` rows per block. */
  lemma {:induction false} FlattenUniformLength<T>(blocks: seq<seq<T>>, n: nat)
    requires forall k :: 0 <= k < |blocks| ==> |blocks[k]| == n
    ensures |Flatten(blocks)| == |blocks| * n
  {
    if blocks != [] {
      var c := |blocks| - 1;
      FlattenUniformLength(blocks[..c], n);
      assert (c + 1) * n == c * n + n;
    }
  }

  /** Row `s` of block `b` is row `b * n + s` of the flattened blocks of `n` rows each. */
  lemma {:induction false} FlattenUniformAt<T>(blocks: seq<seq<T>>, n: nat, b: nat, s: nat)
    requires forall k :: 0 <= k < |blocks| ==> |blocks[k]| == n
    requires b < |blocks| && s < n
    ensures b * n + s < |Flatten(blocks)|
    ensures Flatten(blocks)[b * n + s] == blocks[b][s]
  {
    var c := |blocks| - 1;
    var init := blocks[..c];
    FlattenUniformLength(init, n);
    if b < c {
      FlattenUniformAt(init, n, b, s);
      MulMonotone(b + 1, c, n);
      assert (b + 1) * n == b * n + n;
    }
  }

  lemma FlattenLength<T>(blocks: seq<seq<T>>, mealOf: T -> Meal, meals: seq<Meal>)
    requires Aligned(blocks, mealOf, meals)
    ensures |Flatten(blocks)| == |blocks| * |meals|
  {
    FlattenUniformLength(blocks, |meals|);
  }

  /** Row `j` of block `i` sits at position `i * |meals| + j`. */
  lemma FlattenAt<T>(blocks: seq<seq<T>>, mealOf: T -> Meal, meals: seq<Meal>, i: nat, j: nat)
    requires Aligned(blocks, mealOf, meals)
    requires i < |blocks| && j < |meals|
    ensures i * |meals| + j < |Flatten(blocks)|
    ensures Flatten(blocks)[i * |meals| + j] == blocks[i][j]
  {
    FlattenUniformAt(blocks, |meals|, i, j);
  }

  /** The blocks before block `i`, block `i`, and the blocks after it. */
  lemma FlattenSplit<T>(blocks: seq<seq<T>>, i: nat)
    requires i < |blocks|
    ensures Flatten(blocks) == Flatten(blocks[..i]) + blocks[i] + Flatten(blocks[i + 1..])
  {
    var init, cur, rest := blocks[..i], blocks[i], blocks[i + 1..];
    assert blocks == (init + [cur]) + rest;
    FlattenAppend(init + [cur], rest);
    assert (init + [cur])[..i] == init;
  }

  lemma MulMonotone(a: nat, b: nat, n: nat)
    requires a <= b
    ensures a * n <= b * n
  {
    assert b * n == a * n + (b - a) * n;
  }

  /** The blocks before block `i` are aligned too. */
  lemma AlignedPrefix<T>(blocks: seq<seq<T>>, mealOf: T -> Meal, meals: seq<Meal>, i: nat)
    requires Aligned(blocks, mealOf, meals) && i <= |blocks|
    ensures Aligned(blocks[..i], mealOf, meals)
  {
  }

  /** Block `i` of aligned blocks holds the meal types of `meals` in order. */
  lemma AlignedBlock<T>(blocks: seq<seq<T>>, mealOf: T -> Meal, meals: seq<Meal>, i: nat)
    requires Aligned(blocks, mealOf, meals) && i < |blocks|
    ensures |blocks[i]| == |meals| && forall k :: 0 <= k < |meals| ==> mealOf(blocks[i][k]) == meals[k]
    ensures MealColumn(blocks[i], mealOf) == meals
  {
  }

  /** Row `j` of blocks `0..i` is row `j` of the blocks before `i`, then row `j` of block `i`. */
  lemma ColumnSnoc<T>(blocks: seq<seq<T>>, i: nat, j: nat)
    requires i < |blocks| && forall k :: 0 <= k < |blocks| ==> j < |blocks[k]|
    ensures Column(blocks[..i + 1], j) == Column(blocks[..i], j) + [blocks[i][j]]
  {
  }

  lemma MealColumnAppend<T>(a: seq<T>, b: seq<T>, mealOf: T -> Meal)
    ensures MealColumn(a + b, mealOf) == MealColumn(a, mealOf) + MealColumn(b, mealOf)
  {
  }

  /** Within one aligned block, the first `t` rows hold meal type `meals[j]` once if `j < t`. */
  lemma {:induction false} SelectInBlock<T>(block: seq<T>, mealOf: T -> Meal, meals: seq<Meal>, j: nat, t: nat)
    requires |block| == |meals| && forall k :: 0 <= k < |meals| ==> mealOf(block[k]) == meals[k]
    requires Distinct(meals)
    requires j < |meals| && t <= |meals|
    ensures Select(block[..t], mealOf, meals[j]) == if j < t then [block[j]] else []
  {
    if t > 0 {
      SelectInBlock(block, mealOf, meals, j, t - 1);
      assert block[..t][..t - 1] == block[..t - 1];
    }
  }

  /** Selecting one meal type from aligned blocks picks that meal type's column. */
  lemma {:induction false} SelectFlatten<T>(blocks: seq<seq<T>>, mealOf: T -> Meal, meals: seq<Meal>, j: nat)
    requires Aligned(blocks, mealOf, meals) && Distinct(meals) && j < |meals|
    ensures Select(Flatten(blocks), mealOf, meals[j]) == Column(blocks, j)
  {
    if blocks != [] {
      var c := |blocks| - 1;
      var init, last := blocks[..c], blocks[c];
      AlignedPrefix(blocks, mealOf, meals, c);
      AlignedBlock(blocks, mealOf, meals, c);
      SelectFlatten(init, mealOf, meals, j);
      SelectAppend(Flatten(init), last, mealOf, meals[j]);
      SelectInBlock(last, mealOf, meals, j, |meals|);
      assert last[..|meals|] == last;
      ColumnSnoc(blocks, c, j);
      assert blocks[..c + 1] == blocks;
    }
  }

  lemma PrefixOfConcat<T>(x: seq<T>, y: seq<T>, z: seq<T>, k: nat)
    requires k <= |y|
    ensures (x + y + z)[..|x| + k] == x + y[..k]
  {
  }

  /** The rows before block `i`, then the first `j + 1` rows of block `i`. */
  lemma FlattenPrefix<T>(blocks: seq<seq<T>>, mealOf: T -> Meal, meals: seq<Meal>, i: nat, j: nat)
    requires Aligned(blocks, mealOf, meals)
    requires i < |blocks| && j < |meals|
    ensures i * |meals| + j < |Flatten(blocks)|
    ensures Flatten(blocks)[..i * |meals| + j + 1] == Flatten(blocks[..i]) + blocks[i][..j + 1]
  {
    FlattenAt(blocks, mealOf, meals, i, j);
    FlattenSplit(blocks, i);
    FlattenUniformLength(blocks[..i], |meals|);
    PrefixOfConcat(Flatten(blocks[..i]), blocks[i], Flatten(blocks[i + 1..]), j + 1);
  }

  /** The rows up to and including row `j` of block `i`, restricted to meal type `meals[j]`,
      are row `j` of blocks `0..i`. */
  lemma SelectUpTo<T>(blocks: seq<seq<T>>, mealOf: T -> Meal, meals: seq<Meal>, i: nat, j: nat)
    requires Aligned(blocks, mealOf, meals) && Distinct(meals)
    requires i < |blocks| && j < |meals|
    ensures i * |meals| + j < |Flatten(blocks)|
    ensures Select(Flatten(blocks)[..i * |meals| + j + 1], mealOf, meals[j]) == Column(blocks[..i + 1], j)
  {
    FlattenPrefix(blocks, mealOf, meals, i, j);
    var init, cur := blocks[..i], blocks[i];
    AlignedPrefix(blocks, mealOf, meals, i);
    AlignedBlock(blocks, mealOf, meals, i);
    SelectAppend(Flatten(init), cur[..j + 1], mealOf, meals[j]);
    SelectFlatten(init, mealOf, meals, j);
    SelectInBlock(cur, mealOf, meals, j, j + 1);
    ColumnSnoc(blocks, i, j);
  }

  /** `unique` over aligned blocks (at least one) gives back the block's meal types. */
  lemma {:induction false} UniqueOfFlatten<T>(blocks: seq<seq<T>>, mealOf: T -> Meal, meals: seq<Meal>)
    requires Aligned(blocks, mealOf, meals) && Distinct(meals) && |blocks| > 0
    ensures Unique(MealColumn(Flatten(blocks), mealOf)) == meals
  {
    var c := |blocks| - 1;
    var pre := Flatten(blocks[..c]);
    AlignedBlock(blocks, mealOf, meals, c);
    MealColumnAppend(pre, blocks[c], mealOf);
    if c == 0 {
      assert blocks[..0] == [];
      assert MealColumn(Flatten(blocks), mealOf) == meals;
      UniqueOfDistinct(meals);
    } else {
      AlignedPrefix(blocks, mealOf, meals, c);
      UniqueOfFlatten(blocks[..c], mealOf, meals);
      UniqueAbsorbs(MealColumn(pre, mealOf), meals);
    }
  }

  // ---------------------------------------------------------------- aggregates

  /** The largest value (`max`). */
  function Latest(s: seq<int>): (r: int)
    requires |s| > 0
    ensures r in s
    ensures forall i :: 0 <= i < |s| ==> s[i] <= r
  {
    if |s| == 1 then s[0]
    else
      var r0 := Latest(s[..|s| - 1]);
      if s[|s| - 1] > r0 then s[|s| - 1] else r0
  }

  /** The smallest value (`min`). */
  function Earliest(s: seq<int>): (r: int)
    requires |s| > 0
    ensures r in s
    ensures forall i :: 0 <= i < |s| ==> r <= s[i]
  {
    if |s| == 1 then s[0]
    else
      var r0 := Earliest(s[..|s| - 1]);
      if s[|s| - 1] < r0 then s[|s| - 1] else r0
  }

  function Sum(s: seq<int>): int
  {
    if s == [] then 0 else Sum(s[..|s| - 1]) + s[|s| - 1]
  }
}
