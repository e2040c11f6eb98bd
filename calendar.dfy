/** Calendar features of a date given as a day number (day 0 is 1970-01-01, a Thursday),
    in the proleptic Gregorian calendar the data-frame library's timestamps use. */
module Calendar {

  /** Day of the week with Monday = 0 and Sunday = 6 (`dt.dayofweek`). */
  function Weekday(d: int): (w: int)
    ensures 0 <= w <= 6
  {
    (d + 3) % 7
  }

  /** The next day is the next day of the week, Sunday wrapping round to Monday. */
  lemma WeekdayOfNextDay(d: int)
    ensures Weekday(d + 1) == if Weekday(d) == 6 then 0 else Weekday(d) + 1
  {
  }

  /** `es_finde` in the training table: 1 when the weekday is Saturday (5) or Sunday (6). */
  function WeekendFlag(w: int): (f: int)
    ensures f == 0 || f == 1
  {
    if w == 5 || w == 6 then 1 else 0
  }

  /** `es_finde` on the forecast path: 1 when the weekday is 5 or later. */
  function ForecastWeekendFlag(w: int): (f: int)
    ensures f == 0 || f == 1
  {
    if w >= 5 then 1 else 0
  }

  /** Both weekend rules give the same flag on every date, and it is 1 exactly on weekends. */
  lemma WeekendRulesAgree(d: int)
    ensures WeekendFlag(Weekday(d)) == ForecastWeekendFlag(Weekday(d))
    ensures WeekendFlag(Weekday(d)) == 1 <==> Weekday(d) in {5, 6}
  {
  }

  datatype CivilDate = CivilDate(year: int, month: int, day: int)

  /** A leap year of the proleptic Gregorian calendar. */
  predicate LeapYear(y: int)
  {
    y % 4 == 0 && (y % 100 != 0 || y % 400 == 0)
  }

  /** The number of days of `month` (1..12), February having 29 in a leap year. */
  function MonthLength(month: int, leap: bool): int
  {
    if month == 2 then (if leap then 29 else 28)
    else if month == 4 || month == 6 || month == 9 || month == 11 then 30
    else 31
  }

  function DaysInMonth(year: int, month: int): int
  {
    MonthLength(month, LeapYear(year))
  }

  /** A date that exists: a month 1..12 and a day that month has in that year. */
  predicate ValidDate(c: CivilDate)
  {
    1 <= c.month <= 12 && 1 <= c.day <= DaysInMonth(c.year, c.month)
  }

  /** Leap years repeat every 400 years. */
  lemma LeapYearPeriodic(era: int, y: int)
    ensures LeapYear(400 * era + y) == LeapYear(y)
  {
    var x := 400 * era + y;
    assert x % 4 == y % 4 by { ShiftBy4(100 * era, y); }
    assert x % 100 == y % 100 by { ShiftBy100(4 * era, y); }
    assert x % 400 == y % 400 by { ShiftBy400(era, y); }
  }

  lemma ShiftBy4(k: int, y: int)
    ensures (4 * k + y) % 4 == y % 4
  {
    assert 4 * k + y == 4 * (k + y / 4) + y % 4;
  }

  lemma ShiftBy100(k: int, y: int)
    ensures (100 * k + y) % 100 == y % 100
  {
    assert 100 * k + y == 100 * (k + y / 100) + y % 100;
  }

  lemma ShiftBy400(k: int, y: int)
    ensures (400 * k + y) % 400 == y % 400
  {
    assert 400 * k + y == 400 * (k + y / 400) + y % 400;
  }

  /** Days before the start of year `yoe` of a 400-year era whose years begin on 1 March:
      365 a year plus a leap day every fourth year except at the turn of a century. */
  function DaysBeforeYear(yoe: int): int
  {
    365 * yoe + yoe / 4 - yoe / 100
  }

  /** Days of year `yoe` of an era, which runs from 1 March to the end of February of the
      next calendar year: 366 when that February has a leap day. */
  function YearLength(yoe: int): int
  {
    if LeapYear(yoe + 1) then 366 else 365
  }

  /** Days of a March-based year before `day` of `month` (March = 3 ... February = 2). */
  function DaysBeforeDate(month: int, day: int): int
  {
    var mp := if month > 2 then month - 3 else month + 9;
    (153 * mp + 2) / 5 + day - 1
  }

  datatype EraPosition = EraPosition(yoe: int, doy: int)

  /** Splits a day of a 400-year era into the year of the era and the day of that year:
      centuries of 36524 days (the last one 36525), four-year groups of 1461 days (the last
      of a non-final century 1460) and years of 365 days (the last of a group 366). */
  function SplitEra(doe: int): (p: EraPosition)
    requires 0 <= doe < 146097
    ensures 0 <= p.yoe < 400 && 0 <= p.doy < YearLength(p.yoe)
    ensures DaysBeforeYear(p.yoe) + p.doy == doe
  {
    var cen := if doe / 36524 < 3 then doe / 36524 else 3;
    var doc := doe - 36524 * cen;
    assert 0 <= cen <= 3 && 0 <= doc <= 36524;
    assert doc == 36524 ==> cen == 3;
    var quad := doc / 1461;
    var doq := doc - 1461 * quad;
    assert 0 <= quad <= 24 && 0 <= doq <= 1460;
    var yoq := if doq / 365 < 3 then doq / 365 else 3;
    var doy := doq - 365 * yoq;
    assert 0 <= yoq <= 3 && 0 <= doy <= 365;
    var yoe := 100 * cen + 4 * quad + yoq;
    assert yoe / 4 == 25 * cen + quad && yoe / 100 == cen;
    assert doy == 365 ==> LeapYear(yoe + 1) by {
      if doy == 365 {
        assert yoq == 3 && doq == 1460;
        LastYearOfGroupIsLeap(cen, quad);
      }
    }
    EraPosition(yoe, doy)
  }

  /** The last year of a four-year group ends with a leap day, except in the last group of a
      century other than the era's fourth. */
  lemma LastYearOfGroupIsLeap(cen: int, quad: int)
    requires 0 <= cen <= 3 && 0 <= quad <= 24
    requires quad == 24 ==> cen == 3
    ensures LeapYear(100 * cen + 4 * quad + 4)
  {
    var y := 100 * cen + 4 * quad + 4;
    assert y % 4 == 0 by { assert y == 4 * (25 * cen + quad + 1); }
    if quad < 24 {
      assert y % 100 == 4 * quad + 4 by { assert y == 100 * cen + (4 * quad + 4); }
    } else {
      assert y == 400;
    }
  }

  datatype MonthDay = MonthDay(month: int, day: int)

  /** The month and day of the `doy`-th day of a March-based year, which has a leap day when
      `leap` holds. */
  function SplitYear(doy: int, leap: bool): (md: MonthDay)
    requires 0 <= doy < (if leap then 366 else 365)
    ensures 1 <= md.month <= 12 && 1 <= md.day <= MonthLength(md.month, leap)
    ensures DaysBeforeDate(md.month, md.day) == doy
  {
    var mp := (5 * doy + 2) / 153;
    assert 0 <= mp <= 11;
    var start := (153 * mp + 2) / 5;
    var day := doy - start + 1;
    MonthStarts(mp);
    assert start <= doy < (153 * (mp + 1) + 2) / 5;
    MonthDay(if mp < 10 then mp + 3 else mp - 9, day)
  }

  /** Month `mp` of a March-based year (0 = March) starts on day `(153 * mp + 2) / 5` and
      lasts until the next one starts: 31, 30, 31, 30, 31, 31, 30, 31, 30, 31, 31 days, then
      February. */
  lemma MonthStarts(mp: int)
    requires 0 <= mp <= 11
    ensures var m := if mp < 10 then mp + 3 else mp - 9;
      mp < 11 ==> (153 * (mp + 1) + 2) / 5 - (153 * mp + 2) / 5 == MonthLength(m, false)
    ensures mp == 11 ==> (153 * mp + 2) / 5 == 337
  {
  }

  /** The civil date of a day number, counting from 0000-03-01 in 400-year eras. */
  function CivilFromDays(d: int): (c: CivilDate)
    ensures ValidDate(c)
  {
    var z := d + 719468;
    CivilOfEra(z / 146097, z % 146097)
  }

  /** The civil date of day `doe` of 400-year era `era`. */
  function CivilOfEra(era: int, doe: int): (c: CivilDate)
    requires 0 <= doe < 146097
    ensures ValidDate(c)
  {
    var p := SplitEra(doe);
    var md := SplitYear(p.doy, LeapYear(p.yoe + 1));
    LeapYearPeriodic(era, p.yoe + 1);
    CivilDate(400 * era + p.yoe + (if md.month <= 2 then 1 else 0), md.month, md.day)
  }

  /** The day number of a civil date, as the widely used days-from-civil formula computes it. */
  function DaysFromCivil(c: CivilDate): int
  {
    var y := if c.month <= 2 then c.year - 1 else c.year;
    var era := y / 400;
    var yoe := y - 400 * era;
    146097 * era + DaysBeforeYear(yoe) + DaysBeforeDate(c.month, c.day) - 719468
  }

  lemma DaysFromCivilOfEra(era: int, yoe: int, month: int, day: int)
    requires 0 <= yoe < 400
    ensures DaysFromCivil(CivilDate(400 * era + yoe + (if month <= 2 then 1 else 0), month, day))
         == 146097 * era + DaysBeforeYear(yoe) + DaysBeforeDate(month, day) - 719468
  {
    var y := 400 * era + yoe;
    assert y / 400 == era;
  }

  lemma EraRoundTrip(era: int, doe: int)
    requires 0 <= doe < 146097
    ensures DaysFromCivil(CivilOfEra(era, doe)) == 146097 * era + doe - 719468
  {
    var p := SplitEra(doe);
    var md := SplitYear(p.doy, LeapYear(p.yoe + 1));
    DaysFromCivilOfEra(era, p.yoe, md.month, md.day);
  }

  /** Reading the day number back from the civil date gives the same day. */
  lemma CivilRoundTrip(d: int)
    ensures DaysFromCivil(CivilFromDays(d)) == d
  {
    var z := d + 719468;
    var era, doe := z / 146097, z % 146097;
    assert 146097 * era + doe == z;
    EraRoundTrip(era, doe);
  }

  /** Each year of an era starts where the previous one ends, and the 400 years fill the
      146097 days of the era. */
  lemma DaysBeforeYearStep(yoe: int)
    requires 0 <= yoe < 400
    ensures DaysBeforeYear(yoe) + YearLength(yoe) == if yoe < 399 then DaysBeforeYear(yoe + 1) else 146097
  {
    var y := yoe + 1;
    assert y % 400 == 0 <==> yoe == 399;
    assert (y / 4 - yoe / 4 == 1) <==> y % 4 == 0;
    assert (y / 100 - yoe / 100 == 1) <==> y % 100 == 0;
    assert 0 <= y / 4 - yoe / 4 <= 1 && 0 <= y / 100 - yoe / 100 <= 1;
  }

  lemma {:induction false} DaysBeforeYearMonotone(a: int, b: int)
    requires 0 <= a <= b < 400
    ensures DaysBeforeYear(a) <= DaysBeforeYear(b)
    decreases b - a
  {
    if a < b {
      DaysBeforeYearMonotone(a, b - 1);
      DaysBeforeYearStep(b - 1);
    }
  }

  /** A day of an era has only one year of the era and day of that year. */
  lemma EraPositionUnique(p: EraPosition, q: EraPosition)
    requires 0 <= p.yoe < 400 && 0 <= p.doy < YearLength(p.yoe)
    requires 0 <= q.yoe < 400 && 0 <= q.doy < YearLength(q.yoe)
    requires DaysBeforeYear(p.yoe) + p.doy == DaysBeforeYear(q.yoe) + q.doy
    ensures p == q
  {
    if p.yoe < q.yoe {
      DaysBeforeYearStep(p.yoe);
      DaysBeforeYearMonotone(p.yoe + 1, q.yoe);
    } else if q.yoe < p.yoe {
      DaysBeforeYearStep(q.yoe);
      DaysBeforeYearMonotone(q.yoe + 1, p.yoe);
    }
  }

  /** `SplitEra` finds the year of the era and the day of the year a day was built from. */
  lemma SplitEraOf(yoe: int, doy: int)
    requires 0 <= yoe < 400 && 0 <= doy < YearLength(yoe)
    ensures 0 <= DaysBeforeYear(yoe) + doy < 146097
    ensures SplitEra(DaysBeforeYear(yoe) + doy) == EraPosition(yoe, doy)
  {
    DaysBeforeYearMonotone(0, yoe);
    DaysBeforeYearStep(yoe);
    if yoe < 399 {
      DaysBeforeYearMonotone(yoe + 1, 399);
      DaysBeforeYearStep(399);
    }
    EraPositionUnique(SplitEra(DaysBeforeYear(yoe) + doy), EraPosition(yoe, doy));
  }

  /** `SplitYear` finds the month and day a day of the year was built from. */
  lemma SplitYearOf(month: int, day: int, leap: bool)
    requires 1 <= month <= 12 && 1 <= day <= MonthLength(month, leap)
    ensures 0 <= DaysBeforeDate(month, day) < (if leap then 366 else 365)
    ensures SplitYear(DaysBeforeDate(month, day), leap) == MonthDay(month, day)
  {
    var mp := if month > 2 then month - 3 else month + 9;
    MonthStarts(mp);
    MonthIndexOf(mp, day, MonthLength(month, leap));
  }

  /** The day `day` of the month that starts the year's `mp`-th month (March first) lies in
      that month of `SplitYear`'s month table. */
  lemma MonthIndexOf(mp: int, day: int, length: int)
    requires 0 <= mp <= 11 && 1 <= day <= length
    requires mp < 11 ==> length == (153 * (mp + 1) + 2) / 5 - (153 * mp + 2) / 5
    requires mp == 11 ==> length <= 29
    ensures (5 * ((153 * mp + 2) / 5 + day - 1) + 2) / 153 == mp
  {
    var start := (153 * mp + 2) / 5;
    var doy := start + day - 1;
    MonthStarts(mp);
    assert 153 * mp <= 5 * doy + 2 < 153 * (mp + 1);
  }


  /** A date of a year of an era is the day of the era that `SplitEra` and `SplitYear` take
      back to that year, month and day. */
  lemma DayOfEraOf(yoe: int, month: int, day: int)
    requires 0 <= yoe < 400 && 1 <= month <= 12 && 1 <= day <= MonthLength(month, LeapYear(yoe + 1))
    ensures var doy := DaysBeforeDate(month, day);
      0 <= DaysBeforeYear(yoe) + doy < 146097
      && SplitEra(DaysBeforeYear(yoe) + doy) == EraPosition(yoe, doy)
      && SplitYear(doy, LeapYear(yoe + 1)) == MonthDay(month, day)
  {
    SplitYearOf(month, day, LeapYear(yoe + 1));
    SplitEraOf(yoe, DaysBeforeDate(month, day));
  }

  /** `CivilOfEra` assembles the date from the year of the era and the month and day. */
  lemma CivilOfEraParts(era: int, doe: int, p: EraPosition, md: MonthDay)
    requires 0 <= doe < 146097 && SplitEra(doe) == p && SplitYear(p.doy, LeapYear(p.yoe + 1)) == md
    ensures CivilOfEra(era, doe) == CivilDate(400 * era + p.yoe + (if md.month <= 2 then 1 else 0), md.month, md.day)
  {
  }

  /** The round trip from a date, stated on its era, year of the era, month and day. */
  lemma EraDateRoundTrip(d: int, era: int, yoe: int, month: int, day: int)
    requires 0 <= yoe < 400 && 1 <= month <= 12 && 1 <= day <= MonthLength(month, LeapYear(yoe + 1))
    requires d == 146097 * era + DaysBeforeYear(yoe) + DaysBeforeDate(month, day) - 719468
    ensures CivilFromDays(d) == CivilDate(400 * era + yoe + (if month <= 2 then 1 else 0), month, day)
  {
    var doy := DaysBeforeDate(month, day);
    DayOfEraOf(yoe, month, day);
    var doe := DaysBeforeYear(yoe) + doy;
    CivilOfEraParts(era, doe, EraPosition(yoe, doy), MonthDay(month, day));
    CivilFromDaysOfEra(d, era, doe);
  }

  /** A day number is taken apart on the era and the day of the era it falls in. */
  lemma CivilFromDaysOfEra(d: int, era: int, doe: int)
    requires 0 <= doe < 146097 && d + 719468 == 146097 * era + doe
    ensures CivilFromDays(d) == CivilOfEra(era, doe)
  {
    var z := d + 719468;
    assert z / 146097 == era && z % 146097 == doe;
  }

  /** Every date that exists has a day number, and `CivilFromDays` gives that date back:
      with `CivilRoundTrip`, day numbers and real dates correspond one to one. */
  lemma DateRoundTrip(c: CivilDate)
    requires ValidDate(c)
    ensures CivilFromDays(DaysFromCivil(c)) == c
  {
    var y := if c.month <= 2 then c.year - 1 else c.year;
    var era := y / 400;
    var yoe := y - 400 * era;
    assert c == CivilDate(400 * era + yoe + (if c.month <= 2 then 1 else 0), c.month, c.day);
    assert c.day <= MonthLength(c.month, LeapYear(yoe + 1)) by {
      LeapYearPeriodic(era, yoe + 1);
    }
    DaysFromCivilOfEra(era, yoe, c.month, c.day);
    EraDateRoundTrip(DaysFromCivil(c), era, yoe, c.month, c.day);
  }

  /** The month, 1..12 (`dt.month`): the steps of `CivilFromDays` that lead to the month,
      written out in one expression. */
  function Month(d: int): (m: int)
    ensures 1 <= m <= 12
  {
    var doe := (d + 719468) % 146097;
    var cen := if doe / 36524 < 3 then doe / 36524 else 3;
    var doc := doe - 36524 * cen;
    assert 0 <= doc <= 36524;
    var doq := doc - 1461 * (doc / 1461);
    var yoq := if doq / 365 < 3 then doq / 365 else 3;
    var doy := doq - 365 * yoq;
    assert 0 <= doy <= 365;
    var mp := (5 * doy + 2) / 153;
    if mp < 10 then mp + 3 else mp - 9
  }

  /** `Month` is the month of the civil date. */
  lemma MonthOfCivilDate(d: int)
    ensures Month(d) == CivilFromDays(d).month
  {
  }

  /** The month of the day numbered by a real date is that date's month. */
  lemma MonthOfDate(c: CivilDate)
    requires ValidDate(c)
    ensures Month(DaysFromCivil(c)) == c.month
  {
    DateRoundTrip(c);
    MonthOfCivilDate(DaysFromCivil(c));
  }

  /** 1970-01-01 (day 0) was a Thursday. */
  lemma EpochIsThursdayFirstOfJanuary()
    ensures CivilFromDays(0) == CivilDate(1970, 1, 1) && Weekday(0) == 3
  {
    assert 719468 / 146097 == 4 && 719468 % 146097 == 135080;
    assert SplitEra(135080) == EraPosition(369, 306);
    assert SplitYear(306, false) == MonthDay(1, 1);
  }

  /** 2024 was a leap year: day 19782 is 2024-02-29. */
  lemma LeapDayOf2024()
    ensures CivilFromDays(19782) == CivilDate(2024, 2, 29)
  {
    assert 739250 / 146097 == 5 && 739250 % 146097 == 8765;
    assert SplitEra(8765) == EraPosition(23, 365);
    assert SplitYear(365, true) == MonthDay(2, 29);
  }

  /** The next day, 19783, is 2024-03-01, a Friday. */
  lemma FirstOfMarch2024()
    ensures CivilFromDays(19783) == CivilDate(2024, 3, 1) && Weekday(19783) == 4
  {
    assert 739251 / 146097 == 5 && 739251 % 146097 == 8766;
    assert SplitEra(8766) == EraPosition(24, 0);
    assert SplitYear(0, false) == MonthDay(3, 1);
  }
}
