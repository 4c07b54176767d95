/** The UTC calendar arithmetic behind the benchmark client's request dates.

    `CivilFromDays` is the closed-form conversion the client uses; `DayNumber`
    counts days the slow way, year by year and month by month. The two are proved
    inverse to each other over every integer day and every Gregorian date. */
module Calendar {

  datatype Date = Date(y: int, m: int, d: int)

  // ----- the code ---------------------------------------------------------

  function DayOfEra(z: int): int { (z + 719_468) % 146_097 }

  function YearOfEra(doe: int): int {
    (doe - doe / 1460 + doe / 36_524 - doe / 146_096) / 365
  }

  function DayOfYear(doe: int): int {
    var yoe := YearOfEra(doe);
    doe - (365 * yoe + yoe / 4 - yoe / 100)
  }

  /** Day `doy` of the year that starts on the first of March of year `y`. */
  function FromMarch(y: int, doy: int): Date {
    var mp := (5 * doy + 2) / 153;
    var d := doy - (153 * mp + 2) / 5 + 1;
    var m := if mp < 10 then mp + 3 else mp - 9;
    Date(if m <= 2 then y + 1 else y, m, d)
  }

  function CivilFromDays(z: int): Date {
    var era := (z + 719_468) / 146_097;
    var doe := DayOfEra(z);
    FromMarch(YearOfEra(doe) + era * 400, DayOfYear(doe))
  }

  /** A Unix time in seconds as a date and hour, minute, second. */
  datatype Instant = Instant(date: Date, hour: int, minute: int, second: int)

  function UtcAt(secs: nat): Instant {
    var tod := secs % 86_400;
    Instant(CivilFromDays(secs / 86_400), tod / 3600, (tod % 3600) / 60, tod % 60)
  }

  // ----- the Gregorian calendar, from its rules ---------------------------

  predicate LeapYear(y: int) { y % 4 == 0 && (y % 100 != 0 || y % 400 == 0) }

  function DaysInMonth(y: int, m: int): int
    requires 1 <= m <= 12
  {
    if m == 2 then (if LeapYear(y) then 29 else 28)
    else if m == 4 || m == 6 || m == 9 || m == 11 then 30
    else 31
  }

  predicate Valid(t: Date) { 1 <= t.m <= 12 && 1 <= t.d <= DaysInMonth(t.y, t.m) }

  function NextDay(t: Date): Date
    requires Valid(t)
  {
    if t.d < DaysInMonth(t.y, t.m) then Date(t.y, t.m, t.d + 1)
    else if t.m < 12 then Date(t.y, t.m + 1, 1)
    else Date(t.y + 1, 1, 1)
  }

  predicate Before(a: Date, b: Date) {
    a.y < b.y || (a.y == b.y && (a.m < b.m || (a.m == b.m && a.d < b.d)))
  }

  function YearDays(y: int): int { if LeapYear(y) then 366 else 365 }

  /** Days from 0001-01-01 to the first of January of year `y`: year by year,
      forward and back. */
  function DaysBeforeYear(y: int): int
    decreases if y >= 1 then y else 2 - y
  {
    if y == 1 then 0
    else if y > 1 then DaysBeforeYear(y - 1) + YearDays(y - 1)
    else DaysBeforeYear(y + 1) - YearDays(y)
  }

  function DaysBeforeMonth(y: int, m: int): int
    requires 1 <= m <= 13
  {
    if m == 1 then 0 else DaysBeforeMonth(y, m - 1) + DaysInMonth(y, m - 1)
  }

  /** Days from 1970-01-01 to `t`. */
  function DayNumber(t: Date): int
    requires Valid(t)
  {
    DaysBeforeYear(t.y) + DaysBeforeMonth(t.y, t.m) + t.d - 1 - 719_162
  }

  // ----- counting days ----------------------------------------------------

  lemma YearLength(y: int)
    ensures DaysBeforeYear(y + 1) - DaysBeforeYear(y) == YearDays(y)
  {
  }

  function ClosedForm(y: int): int { 365 * (y - 1) + (y - 1) / 4 - (y - 1) / 100 + (y - 1) / 400 }

  lemma ClosedFormOn(y: int)
    ensures ClosedForm(y + 1) - ClosedForm(y) == YearDays(y)
  {
    FourthYear(y);
    HundredthYear(y);
    FourHundredthYear(y);
  }

  lemma {:induction false} YearsInClosedForm(y: int)
    ensures DaysBeforeYear(y) == ClosedForm(y)
    decreases if y >= 1 then y else 2 - y
  {
    if y > 1 {
      YearsInClosedForm(y - 1);
      ClosedFormOn(y - 1);
    } else if y < 1 {
      YearsInClosedForm(y + 1);
      ClosedFormOn(y);
    }
  }

  lemma FourthYear(y: int)
    ensures (y - 1) / 4 == if y % 4 == 0 then y / 4 - 1 else y / 4
  {
  }

  lemma HundredthYear(y: int)
    ensures (y - 1) / 100 == if y % 100 == 0 then y / 100 - 1 else y / 100
    ensures y % 100 == 0 ==> y % 4 == 0
  {
    var q, r := y / 100, y % 100;
    if r == 0 {
      By100(y - 1, q - 1, 99);
      By4(y, 25 * q, 0);
    } else {
      By100(y - 1, q, r - 1);
    }
  }

  lemma FourHundredthYear(y: int)
    ensures (y - 1) / 400 == if y % 400 == 0 then y / 400 - 1 else y / 400
    ensures y % 400 == 0 ==> y % 100 == 0
  {
    var q, r := y / 400, y % 400;
    if r == 0 {
      By400(y - 1, q - 1, 399);
      By100(y, 4 * q, 0);
    } else {
      By400(y - 1, q, r - 1);
    }
  }

  lemma By4(x: int, q: int, r: int)
    requires 0 <= r < 4 && x == 4 * q + r
    ensures x / 4 == q && x % 4 == r
  {
  }

  lemma By100(x: int, q: int, r: int)
    requires 0 <= r < 100 && x == 100 * q + r
    ensures x / 100 == q && x % 100 == r
  {
  }

  lemma By400(x: int, q: int, r: int)
    requires 0 <= r < 400 && x == 400 * q + r
    ensures x / 400 == q && x % 400 == r
  {
  }

  lemma {:induction false} YearsGrow(y: int, y': int)
    requires y < y'
    ensures DaysBeforeYear(y + 1) <= DaysBeforeYear(y')
    decreases y' - y
  {
    if y + 1 < y' {
      YearLength(y + 1);
      YearsGrow(y + 1, y');
    }
  }

  lemma MonthTable(y: int)
    ensures var l := if LeapYear(y) then 1 else 0;
      DaysBeforeMonth(y, 2) == 31 && DaysBeforeMonth(y, 3) == 59 + l && DaysBeforeMonth(y, 4) == 90 + l &&
      DaysBeforeMonth(y, 5) == 120 + l && DaysBeforeMonth(y, 6) == 151 + l && DaysBeforeMonth(y, 7) == 181 + l &&
      DaysBeforeMonth(y, 8) == 212 + l && DaysBeforeMonth(y, 9) == 243 + l && DaysBeforeMonth(y, 10) == 273 + l &&
      DaysBeforeMonth(y, 11) == 304 + l && DaysBeforeMonth(y, 12) == 334 + l && DaysBeforeMonth(y, 13) == 365 + l
  {
    assert DaysBeforeMonth(y, 2) == 31;
    assert DaysBeforeMonth(y, 3) == 31 + DaysInMonth(y, 2);
    assert DaysBeforeMonth(y, 5) == DaysBeforeMonth(y, 3) + 61;
    assert DaysBeforeMonth(y, 7) == DaysBeforeMonth(y, 5) + 61;
    assert DaysBeforeMonth(y, 9) == DaysBeforeMonth(y, 7) + 62;
    assert DaysBeforeMonth(y, 11) == DaysBeforeMonth(y, 9) + 61;
    assert DaysBeforeMonth(y, 13) == DaysBeforeMonth(y, 11) + 61;
  }

  lemma {:induction false} MonthsGrow(y: int, m: int, m': int)
    requires 1 <= m < m' <= 13
    ensures DaysBeforeMonth(y, m) + DaysInMonth(y, m) <= DaysBeforeMonth(y, m')
  {
    if m + 1 < m' { MonthsGrow(y, m, m' - 1); }
  }

  lemma EarlierCountsLess(a: Date, b: Date)
    requires Valid(a) && Valid(b) && Before(a, b)
    ensures DayNumber(a) < DayNumber(b)
  {
    if a.y < b.y {
      MonthTable(a.y);
      MonthTable(b.y);
      YearLength(a.y);
      YearsGrow(a.y, b.y);
      if a.m < 12 { MonthsGrow(a.y, a.m, 13); }
      if 1 < b.m { MonthsGrow(b.y, 1, b.m); }
    } else if a.m < b.m {
      MonthsGrow(a.y, a.m, b.m);
    }
  }

  lemma SameCountSameDate(a: Date, b: Date)
    requires Valid(a) && Valid(b) && DayNumber(a) == DayNumber(b)
    ensures a == b
  {
    if Before(a, b) {
      EarlierCountsLess(a, b);
    } else if Before(b, a) {
      EarlierCountsLess(b, a);
    }
  }

  lemma NextDayCountsOne(t: Date)
    requires Valid(t)
    ensures Valid(NextDay(t)) && DayNumber(NextDay(t)) == DayNumber(t) + 1
  {
    MonthTable(t.y);
    YearLength(t.y);
  }

  // ----- the closed form: eras, years of the era, months ------------------

  /** Days from the start of a 400-year era (on a first of March) to its year `yoe`. */
  function YearStart(yoe: int): int { 365 * yoe + yoe / 4 - yoe / 100 }

  /** A day of the era, by century, four-year cycle, year and day of the year. */
  lemma DayByParts(doe: int) returns (c: int, q: int, y: int, r: int)
    requires 0 <= doe < 146_097
    ensures doe == 36_524 * c + 1461 * q + 365 * y + r
    ensures 0 <= c <= 3 && 0 <= q <= 24 && 0 <= y <= 3 && 0 <= r <= 365
    ensures r == 365 ==> y == 3 && (q < 24 || c == 3)
  {
    c := if doe == 146_096 then 3 else doe / 36_524;
    var inCentury := doe - 36_524 * c;
    q := if inCentury == 36_524 then 24 else inCentury / 1461;
    var s := inCentury - 1461 * q;
    y := if s == 1460 then 3 else s / 365;
    r := s - 365 * y;
  }

  lemma YearsByParts(c: int, q: int, y: int)
    requires 0 <= c <= 3 && 0 <= q <= 24 && 0 <= y <= 3
    ensures YearStart(100 * c + 4 * q + y) == 36_524 * c + 1461 * q + 365 * y
  {
    var yoe := 100 * c + 4 * q + y;
    assert yoe / 4 == 25 * c + q && yoe / 100 == c;
  }

  /** The year formula picks the year whose days hold `doe`, centuries and
      four-year cycles taken apart. */
  lemma YearOfEraHolds(doe: int)
    requires 0 <= doe < 146_097
    ensures var yoe := YearOfEra(doe);
      0 <= yoe < 400 && YearStart(yoe) <= doe && (yoe < 399 ==> doe < YearStart(yoe + 1))
  {
    var c, q, y, r := DayByParts(doe);
    YearFormula(c, q, y, r);
    YearsByParts(c, q, y);
    if 100 * c + 4 * q + y < 399 { NextYearStart(c, q, y); }
  }

  lemma NextYearStart(c: int, q: int, y: int)
    requires 0 <= c <= 3 && 0 <= q <= 24 && 0 <= y <= 3 && 100 * c + 4 * q + y < 399
    ensures YearStart(100 * c + 4 * q + y + 1) ==
      36_524 * c + 1461 * q + 365 * y + (if y == 3 && (q < 24 || c == 3) then 366 else 365)
  {
    if y < 3 {
      YearsByParts(c, q, y + 1);
    } else if q < 24 {
      YearsByParts(c, q + 1, 0);
    } else {
      YearsByParts(c + 1, 0, 0);
    }
  }

  lemma YearFormula(c: int, q: int, y: int, r: int)
    requires 0 <= c <= 3 && 0 <= q <= 24 && 0 <= y <= 3 && 0 <= r <= 365
    requires r == 365 ==> y == 3 && (q < 24 || c == 3)
    ensures YearOfEra(36_524 * c + 1461 * q + 365 * y + r) == 100 * c + 4 * q + y
  {
    var doe := 36_524 * c + 1461 * q + 365 * y + r;
    var t := 24 * c + q + 365 * y + r;
    assert doe == 1460 * (25 * c + q) + t;
    assert 0 <= t <= 1556;
    assert doe / 1460 == 25 * c + q + (if t < 1460 then 0 else 1);
    assert doe / 36_524 == if doe == 146_096 then 4 else c;
    assert doe / 146_096 == if doe == 146_096 then 1 else 0;
  }

  /** A year starting in March has its months at `(153 * mp + 2) / 5`. */
  lemma MonthOfYear(doy: int)
    requires 0 <= doy <= 365
    ensures var mp := (5 * doy + 2) / 153;
      0 <= mp <= 11 && (153 * mp + 2) / 5 <= doy && (mp < 11 ==> doy < (153 * mp + 155) / 5)
  {
  }

  /** March-based year `y` and day `doy` of it, as days before it from 0001-01-01. */
  lemma MarchYear(y: int)
    ensures DaysBeforeYear(y) + DaysBeforeMonth(y, 3) == 365 * y + y / 4 - y / 100 + y / 400 - 306
  {
    MonthTable(y);
    YearLength(y);
    YearsInClosedForm(y + 1);
  }

  // ----- the main results -------------------------------------------------

  /** Counting the days of a converted date gives the day back, so no day is
      converted to a date that does not exist. */
  lemma CivilCountsBack(z: int)
    ensures IsDay(CivilFromDays(z), z)
  {
    var era, doe := EraOf(z), DayOfEra(z);
    EraAndDay(z);
    YearOfEraHolds(doe);
    EraDate(era, YearOfEra(doe), doe, z);
    CivilByParts(z, era, doe);
  }

  predicate IsDay(t: Date, z: int) { Valid(t) && DayNumber(t) == z }

  function EraOf(z: int): int { (z + 719_468) / 146_097 }

  lemma EraAndDay(z: int)
    ensures 0 <= DayOfEra(z) < 146_097 && z == EraOf(z) * 146_097 + DayOfEra(z) - 719_468
  {
  }

  lemma CivilByParts(z: int, era: int, doe: int)
    requires era == EraOf(z) && doe == DayOfEra(z)
    ensures CivilFromDays(z) == FromMarch(YearOfEra(doe) + era * 400, doe - YearStart(YearOfEra(doe)))
  {
  }

  /** Day `doe` of era `era`, in the era's year `yoe`. */
  lemma EraDate(era: int, yoe: int, doe: int, z: int)
    requires 0 <= yoe < 400 && 0 <= doe < 146_097 && z == era * 146_097 + doe - 719_468
    requires YearStart(yoe) <= doe && (yoe < 399 ==> doe < YearStart(yoe + 1))
    ensures IsDay(FromMarch(yoe + era * 400, doe - YearStart(yoe)), z)
  {
    YearSpan(yoe, doe);
    SameLeap(yoe + 1, era);
    EraShift(yoe, era);
    MarchDate(yoe + era * 400, doe - YearStart(yoe), z);
  }

  lemma SameLeap(y: int, era: int)
    ensures LeapYear(y + era * 400) == LeapYear(y)
  {
    var y' := y + era * 400;
    assert y' / 4 == y / 4 + 100 * era;
    assert y' / 100 == y / 100 + 4 * era;
    assert y' / 400 == y / 400 + era;
  }

  lemma MarchDate(y: int, doy: int, z: int)
    requires 0 <= doy <= 365 && (doy == 365 ==> LeapYear(y + 1))
    requires z == 365 * y + y / 4 - y / 100 + y / 400 + doy - 719_468
    ensures IsDay(FromMarch(y, doy), z)
  {
    MonthOfYear(doy);
    MarchYear(y);
    MonthTable(y);
    MonthTable(y + 1);
    YearLength(y);
  }

  lemma YearSpan(yoe: int, doe: int)
    requires 0 <= yoe < 400 && 0 <= doe < 146_097
    requires YearStart(yoe) <= doe && (yoe < 399 ==> doe < YearStart(yoe + 1))
    ensures doe - YearStart(yoe) <= 365
    ensures doe - YearStart(yoe) == 365 ==> LeapYear(yoe + 1)
  {
  }

  lemma EraShift(yoe: int, era: int)
    requires 0 <= yoe < 400
    ensures var y := yoe + era * 400;
      365 * y + y / 4 - y / 100 + y / 400 == 146_097 * era + YearStart(yoe)
  {
    var y := yoe + era * 400;
    assert y / 4 == 100 * era + yoe / 4;
    assert y / 100 == 4 * era + yoe / 100;
    assert y / 400 == era;
  }

  /** Converting a date's day number gives the date back. */
  lemma EveryDateIsReached(t: Date)
    requires Valid(t)
    ensures CivilFromDays(DayNumber(t)) == t
  {
    CivilCountsBack(DayNumber(t));
    SameCountSameDate(CivilFromDays(DayNumber(t)), t);
  }

  lemma EpochIsDayZero()
    ensures CivilFromDays(0) == Date(1970, 1, 1)
  {
    assert DayOfEra(0) == 135_080;
    assert YearOfEra(135_080) == 369;
  }

  /** Each next day is the calendar's next day. */
  lemma DaysFollowTheCalendar(z: int)
    ensures Valid(CivilFromDays(z)) && CivilFromDays(z + 1) == NextDay(CivilFromDays(z))
  {
    CivilCountsBack(z);
    CivilCountsBack(z + 1);
    NextDayCountsOne(CivilFromDays(z));
    SameCountSameDate(CivilFromDays(z + 1), NextDay(CivilFromDays(z)));
  }

  lemma LaterDayLaterDate(z: int, z': int)
    ensures z < z' <==> Before(CivilFromDays(z), CivilFromDays(z'))
  {
    CivilCountsBack(z);
    CivilCountsBack(z');
    if z < z' {
      if Before(CivilFromDays(z'), CivilFromDays(z)) {
        EarlierCountsLess(CivilFromDays(z'), CivilFromDays(z));
      }
    } else if Before(CivilFromDays(z), CivilFromDays(z')) {
      EarlierCountsLess(CivilFromDays(z), CivilFromDays(z'));
    }
  }

  /** A stamp is a time that exists, and holds exactly the seconds it was made from. */
  lemma StampHoldsTheSeconds(secs: nat)
    ensures var t := UtcAt(secs);
      Valid(t.date) && 0 <= t.hour < 24 && 0 <= t.minute < 60 && 0 <= t.second < 60 &&
      DayNumber(t.date) * 86_400 + (t.hour * 60 + t.minute) * 60 + t.second == secs
  {
    CivilCountsBack(secs / 86_400);
    TimeOfDay(secs % 86_400);
  }

  lemma TimeOfDay(tod: int)
    requires 0 <= tod < 86_400
    ensures tod / 3600 < 24 && tod % 3600 / 60 < 60
    ensures (tod / 3600 * 60 + tod % 3600 / 60) * 60 + tod % 60 == tod
  {
  }
}
