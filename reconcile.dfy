/** The reconciliation step of the batch job: the raw rows of the last thirty days before the
    latest observed date (both ends included) and `preparar_actualizacion_historica`, which
    renames `raciones_servidas` to `raciones_consumidas_real` and keeps five columns. */
module Reconcile {
  import opened Frames
  import opened Densifier

  /** `timedelta(days=30)`. */
  const LookbackDays := 30

  /** A row of the actuals table: `fecha`, `tipo_comida`, `raciones_consumidas_real`,
      `raciones_becados`, `raciones_regulares`. */
  datatype ActualRow = ActualRow(date: int, meal: Meal, consumed: int, subsidized: int, regular: int)

  /** The rename and the column selection on one row. */
  function ToActual(o: Observation): ActualRow
  {
    ActualRow(o.date, o.meal, o.served, o.subsidized, o.regular)
  }

  /** Reading an actuals row back as a raw row; the partner of `ToActual`. */
  function FromActual(a: ActualRow): Observation
  {
    Observation(a.date, a.meal, a.consumed, a.subsidized, a.regular)
  }

  /** `preparar_actualizacion_historica`: every row, renamed and projected, in the same order. */
  function PrepareActuals(rows: seq<Observation>): seq<ActualRow>
  {
    seq(|rows|, i requires 0 <= i < |rows| => ToActual(rows[i]))
  }

  function RestoreObservations(actuals: seq<ActualRow>): seq<Observation>
  {
    seq(|actuals|, i requires 0 <= i < |actuals| => FromActual(actuals[i]))
  }

  /** A row is recent when it is dated on or after `anchor` minus thirty days. */
  predicate Recent(o: Observation, anchor: int)
  {
    o.date >= anchor - LookbackDays
  }

  /** `df_raw[fecha >= anchor - 30 days]`: the recent rows, in their original order. */
  function RecentWindow(raw: seq<Observation>, anchor: int): seq<Observation>
  {
    if raw == [] then []
    else
      var o := raw[|raw| - 1];
      RecentWindow(raw[..|raw| - 1], anchor) + (if Recent(o, anchor) then [o] else [])
  }

  /** The actuals the job reconciles: the rows of the thirty days up to the latest date. */
  function RecentActuals(raw: seq<Observation>): seq<ActualRow>
    requires |raw| > 0
  {
    PrepareActuals(RecentWindow(raw, LastDate(raw)))
  }

  // ---------------------------------------------------------------- properties

  /** The projection loses nothing: the raw rows can be read back from the actuals. */
  lemma ActualRoundTrip(o: Observation)
    ensures FromActual(ToActual(o)) == o
    ensures ToActual(o).consumed == o.served
  {
  }

  /** `preparar_actualizacion_historica` neither drops nor adds rows nor changes a value. */
  lemma PrepareActualsLossless(rows: seq<Observation>)
    ensures |PrepareActuals(rows)| == |rows|
    ensures RestoreObservations(PrepareActuals(rows)) == rows
  {
    var back := RestoreObservations(PrepareActuals(rows));
    forall i | 0 <= i < |rows| ensures back[i] == rows[i] {
      ActualRoundTrip(rows[i]);
    }
  }

  /** A row is in the window exactly when it is a raw row dated on or after the cut-off. */
  lemma {:induction false} RecentWindowMembers(raw: seq<Observation>, anchor: int, o: Observation)
    ensures o in RecentWindow(raw, anchor) <==> o in raw && Recent(o, anchor)
  {
    if raw != [] {
      var init := raw[..|raw| - 1];
      RecentWindowMembers(init, anchor, o);
      assert raw == init + [raw[|raw| - 1]];
    }
  }

  /** The filter works row by row: filtering two stretches of rows one after the other is
      filtering their concatenation, so the window keeps the original order. */
  lemma {:induction false} RecentWindowAppend(a: seq<Observation>, b: seq<Observation>, anchor: int)
    ensures RecentWindow(a + b, anchor) == RecentWindow(a, anchor) + RecentWindow(b, anchor)
  {
    if b == [] {
      assert a + b == a;
    } else {
      var init := b[..|b| - 1];
      RecentWindowAppend(a, init, anchor);
      assert (a + b)[..|a + b| - 1] == a + init;
    }
  }

  /** The window never grows the input and filtering it again changes nothing. */
  lemma {:induction false} RecentWindowIdempotent(raw: seq<Observation>, anchor: int)
    ensures |RecentWindow(raw, anchor)| <= |raw|
    ensures RecentWindow(RecentWindow(raw, anchor), anchor) == RecentWindow(raw, anchor)
  {
    if raw != [] {
      var init := raw[..|raw| - 1];
      var o := raw[|raw| - 1];
      RecentWindowIdempotent(init, anchor);
      var tail := if Recent(o, anchor) then [o] else [];
      RecentWindowAppend(RecentWindow(init, anchor), tail, anchor);
      if Recent(o, anchor) {
        assert RecentWindow(tail, anchor) == RecentWindow([], anchor) + [o];
      }
    }
  }

  /** With the latest date as anchor, every kept row lies in the 31 days from the latest date
      minus thirty to the latest date, and the rows of the latest date are all kept. */
  lemma RecentActualsSpan(raw: seq<Observation>)
    requires |raw| > 0
    ensures var w := RecentWindow(raw, LastDate(raw));
      |w| > 0 && forall i :: 0 <= i < |w| ==> LastDate(raw) - LookbackDays <= w[i].date <= LastDate(raw)
    ensures forall i :: 0 <= i < |raw| && raw[i].date == LastDate(raw) ==> raw[i] in RecentWindow(raw, LastDate(raw))
  {
    var w := RecentWindow(raw, LastDate(raw));
    forall i | 0 <= i < |w| ensures LastDate(raw) - LookbackDays <= w[i].date <= LastDate(raw) {
      RecentWindowMembers(raw, LastDate(raw), w[i]);
      var k :| 0 <= k < |raw| && raw[k] == w[i];
      assert ObsDates(raw)[k] == raw[k].date;
    }
    forall i | 0 <= i < |raw| && raw[i].date == LastDate(raw) ensures raw[i] in w {
      RecentWindowMembers(raw, LastDate(raw), raw[i]);
    }
    var k :| 0 <= k < |raw| && ObsDates(raw)[k] == LastDate(raw);
    RecentWindowMembers(raw, LastDate(raw), raw[k]);
  }

  predicate SortedByDate(raw: seq<Observation>)
  {
    forall i, j :: 0 <= i < j < |raw| ==> raw[i].date <= raw[j].date
  }

  /** On rows sorted by date (the view is read `ORDER BY fecha ASC`) the window is a suffix:
      the last rows, as many as it holds. */
  lemma {:induction false} RecentWindowSuffix(raw: seq<Observation>, anchor: int)
    requires SortedByDate(raw)
    ensures |RecentWindow(raw, anchor)| <= |raw|
    ensures RecentWindow(raw, anchor) == raw[|raw| - |RecentWindow(raw, anchor)|..]
  {
    if raw != [] {
      var init := raw[..|raw| - 1];
      var o := raw[|raw| - 1];
      SortedInit(raw);
      if Recent(o, anchor) {
        RecentWindowSuffix(init, anchor);
        var n := |RecentWindow(init, anchor)|;
        assert raw[|raw| - (n + 1)..] == init[|init| - n..] + [o];
      } else {
        NoneBeforeOld(raw, anchor);
        RecentWindowNone(raw, anchor);
      }
    }
  }

  lemma SortedInit(raw: seq<Observation>)
    requires SortedByDate(raw) && raw != []
    ensures SortedByDate(raw[..|raw| - 1])
  {
  }

  /** On sorted rows, an old last row means every row is old. */
  lemma NoneBeforeOld(raw: seq<Observation>, anchor: int)
    requires SortedByDate(raw) && raw != [] && !Recent(raw[|raw| - 1], anchor)
    ensures forall i :: 0 <= i < |raw| ==> !Recent(raw[i], anchor)
  {
    forall i | 0 <= i < |raw| - 1 ensures !Recent(raw[i], anchor) {
      assert raw[i].date <= raw[|raw| - 1].date;
    }
  }

  lemma {:induction false} RecentWindowNone(raw: seq<Observation>, anchor: int)
    requires forall i :: 0 <= i < |raw| ==> !Recent(raw[i], anchor)
    ensures RecentWindow(raw, anchor) == []
  {
    if raw != [] {
      RecentWindowNone(raw[..|raw| - 1], anchor);
    }
  }
}
