// Proleptic Gregorian dates (mastomini_bots/src/tz.rs). The specification counts days
// by the leap rule and the month lengths; the code converts in constant time.
module Calendar {
  import opened Arith

  datatype Date = Date(year: int, month: int, day: int)

  // ---------------------------------------------------------------------------
  // Specification: the calendar as a person counts it
  // ---------------------------------------------------------------------------

  predicate IsLeap(y: int) {
    y % 4 == 0 && (y % 100 != 0 || y % 400 == 0)
  }

  function YearLength(y: int): int {
    if IsLeap(y) then 366 else 365
  }

  function MonthLength(y: int, m: int): int
    requires 1 <= m <= 12
  {
    if m == 2 then (if IsLeap(y) then 29 else 28)
    else if m == 4 || m == 6 || m == 9 || m == 11 then 30
    else 31
  }

  predicate Valid(d: Date) {
    1 <= d.month <= 12 && 1 <= d.day <= MonthLength(d.year, d.month)
  }

  predicate Before(a: Date, b: Date) {
    a.year < b.year
    || (a.year == b.year && (a.month < b.month || (a.month == b.month && a.day < b.day)))
  }

  /** Day number of 1 January of year `y`, one year at a time from 1970. */
  function YearStart(y: int): int
    decreases if y < 1970 then 1970 - y else y - 1970
  {
    if y == 1970 then 0
    else if y > 1970 then YearStart(y - 1) + YearLength(y - 1)
    else YearStart(y + 1) - YearLength(y)
  }

  /** Days of year `y` before month `m`, one month at a time. */
  function MonthStart(y: int, m: int): int
    requires 1 <= m <= 12
  {
    if m == 1 then 0 else MonthStart(y, m - 1) + MonthLength(y, m - 1)
  }

  function CountDays(d: Date): int
    requires 1 <= d.month <= 12
  {
    YearStart(d.year) + MonthStart(d.year, d.month) + d.day - 1
  }

  // ---------------------------------------------------------------------------
  // The code
  // ---------------------------------------------------------------------------

  function DaysFromCivil(year: int, m: int, d: int): int {
    var y := if m <= 2 then year - 1 else year;
    var era := y / 400;
    var yoe := y % 400;
    var doy := (153 * (if m > 2 then m - 3 else m + 9) + 2) / 5 + d - 1;
    var doe := yoe * 365 + yoe / 4 - yoe / 100 + doy;
    era * 146097 + doe - 719468
  }

  function CivilFromDays(days: int): Date {
    var z := days + 719468;
    CivilOfEra(z / 146097, z % 146097)
  }

  /** The date of day `doe` of 400-year era `era`; eras start on 1 March. */
  function CivilOfEra(era: int, doe: int): Date {
    var yoe := (doe - doe / 1460 + doe / 36524 - doe / 146096) / 365;
    var doy := doe - (365 * yoe + yoe / 4 - yoe / 100);
    var mp := (5 * doy + 2) / 153;
    var day := doy - (153 * mp + 2) / 5 + 1;
    var month := if mp < 10 then mp + 3 else mp - 9;
    Date(yoe + era * 400 + (if month <= 2 then 1 else 0), month, day)
  }

  /** 0 = Sunday. */
  function Weekday(days: int): int {
    (days + 4) % 7
  }

  function DaysInMonth(y: int, m: int): int {
    (if m == 12 then DaysFromCivil(y + 1, 1, 1) else DaysFromCivil(y, m + 1, 1)) - DaysFromCivil(y, m, 1)
  }

  // ---------------------------------------------------------------------------
  // The code counts days
  // ---------------------------------------------------------------------------

  function LeapDaysThrough(y: int): int {
    y / 4 - y / 100 + y / 400
  }

  lemma LeapDayStep(y: int)
    ensures LeapDaysThrough(y) - LeapDaysThrough(y - 1) == YearLength(y) - 365
  {
    DivStep(y, 4);
    DivStep(y, 100);
    DivStep(y, 400);
    if y % 400 == 0 { DivUnique(y, 4 * (y / 400), 100, 0); }
    if y % 100 == 0 { DivUnique(y, 25 * (y / 100), 4, 0); }
  }

  lemma SplitYear(y: int, q: int, r: int)
    requires y == 400 * q + r && 0 <= r < 400
    ensures y / 400 == q && y / 100 == 4 * q + r / 100 && y / 4 == 100 * q + r / 4
    ensures y % 400 == r && y % 100 == r % 100 && y % 4 == r % 4
  {
    DivUnique(y, q, 400, r);
    DivUnique(y, 4 * q + r / 100, 100, r % 100);
    DivUnique(y, 100 * q + r / 4, 4, r % 4);
  }

  lemma {:induction false} YearStartClosed(y: int)
    ensures YearStart(y) == 365 * (y - 1970) + LeapDaysThrough(y - 1) - LeapDaysThrough(1969)
    decreases if y < 1970 then 1970 - y else y - 1970
  {
    if y > 1970 {
      YearStartClosed(y - 1);
      LeapDayStep(y - 1);
    } else if y < 1970 {
      YearStartClosed(y + 1);
      LeapDayStep(y);
    }
  }

  /** The constant-time conversion counts days, for every year and month and any day number. */
  lemma {:induction false} DaysFromCivilCounts(d: Date)
    requires 1 <= d.month <= 12
    ensures DaysFromCivil(d.year, d.month, d.day) == CountDays(d)
  {
    var y := if d.month <= 2 then d.year - 1 else d.year;
    SplitYear(y, y / 400, y % 400);
    YearStartClosed(d.year);
    LeapDayStep(d.year);
    MonthStartTable(d.year, d.month);
  }

  lemma {:induction false} MonthStartTable(y: int, m: int)
    requires 1 <= m <= 12
    ensures MonthStart(y, m) ==
            (if m <= 2 then 31 * (m - 1) else (153 * (m - 3) + 2) / 5 + (if IsLeap(y) then 60 else 59))
    decreases m
  {
    if m > 1 {
      MonthStartTable(y, m - 1);
    }
  }

  lemma DaysInMonthIsMonthLength(y: int, m: int)
    requires 1 <= m <= 12
    ensures DaysInMonth(y, m) == MonthLength(y, m)
  {
    DaysFromCivilCounts(Date(y, m, 1));
    if m == 12 {
      DaysFromCivilCounts(Date(y + 1, 1, 1));
      DecemberEndsYear(y);
    } else {
      DaysFromCivilCounts(Date(y, m + 1, 1));
      assert MonthStart(y, m + 1) == MonthStart(y, m) + MonthLength(y, m);
    }
  }

  lemma DecemberEndsYear(y: int)
    ensures YearStart(y + 1) == YearStart(y) + MonthStart(y, 12) + 31
  {
    MonthStartTable(y, 12);
    YearStartStep(y);
  }

  lemma YearStartStep(y: int)
    ensures YearStart(y + 1) == YearStart(y) + YearLength(y)
  {
  }

  // ---------------------------------------------------------------------------
  // The two conversions are inverse
  // ---------------------------------------------------------------------------

  /** The year-of-era quotient of day `r` of year 100c + 4q + i. */
  lemma YearOfEraAt(c: int, q: int, i: int, r: int)
    requires 0 <= c <= 3 && 0 <= q <= 24 && 0 <= i <= 3
    requires 0 <= r <= (if i == 3 && (q < 24 || c == 3) then 365 else 364)
    ensures var doe := 36524 * c + 1461 * q + 365 * i + r;
            (doe - doe / 1460 + doe / 36524 - doe / 146096) / 365 == 100 * c + 4 * q + i
  {
    var doe := 36524 * c + 1461 * q + 365 * i + r;
    var late := if 24 * c + q + 365 * i + r >= 1460 then 1 else 0;
    assert doe / 1460 == 25 * c + q + late by {
      assert doe == 1460 * (25 * c + q + late) + (24 * c + q + 365 * i + r - 1460 * late);
    }
    var last := if r == 365 && q == 24 then 1 else 0;
    assert doe / 36524 == c + last && doe / 146096 == last;
    assert 0 <= r - late < 365;
    assert doe - doe / 1460 + doe / 36524 - doe / 146096 == 365 * (100 * c + 4 * q + i) + r - late;
  }

  /** Every day of the era is a day of some year of the era. */
  lemma SplitEra(doe: int) returns (c: int, q: int, i: int, r: int)
    requires 0 <= doe < 146097
    ensures 0 <= c <= 3 && 0 <= q <= 24 && 0 <= i <= 3
    ensures 0 <= r <= (if i == 3 && (q < 24 || c == 3) then 365 else 364)
    ensures doe == 36524 * c + 1461 * q + 365 * i + r
  {
    c := if doe == 146096 then 3 else doe / 36524;
    var inCentury := doe - 36524 * c;
    q := if inCentury == 36524 then 24 else inCentury / 1461;
    var inCycle := inCentury - 1461 * q;
    i := if inCycle == 1460 then 3 else inCycle / 365;
    r := inCycle - 365 * i;
  }

  lemma MonthOfDay(doy: int)
    requires 0 <= doy <= 365
    ensures var mp := (5 * doy + 2) / 153;
            0 <= mp <= 11 && (153 * mp + 2) / 5 <= doy < (153 * (mp + 1) + 2) / 5
  {
  }

  function DateInEra(y: int, doy: int): Date {
    var mp := (5 * doy + 2) / 153;
    var month := if mp < 10 then mp + 3 else mp - 9;
    Date(y + (if month <= 2 then 1 else 0), month, doy - (153 * mp + 2) / 5 + 1)
  }

  lemma YearOfEraQuotients(c: int, q: int, i: int)
    requires 0 <= c <= 3 && 0 <= q <= 24 && 0 <= i <= 3
    ensures var yoe := 100 * c + 4 * q + i; yoe / 4 == 25 * c + q && yoe / 100 == c
  {
    DivUnique(100 * c + 4 * q + i, 25 * c + q, 4, i);
    DivUnique(100 * c + 4 * q + i, c, 100, 4 * q + i);
  }

  lemma CivilInEra(era: int, c: int, q: int, i: int, r: int)
    requires 0 <= c <= 3 && 0 <= q <= 24 && 0 <= i <= 3
    requires 0 <= r <= (if i == 3 && (q < 24 || c == 3) then 365 else 364)
    ensures CivilOfEra(era, 36524 * c + 1461 * q + 365 * i + r) == DateInEra(400 * era + 100 * c + 4 * q + i, r)
  {
    YearOfEraAt(c, q, i, r);
    YearOfEraQuotients(c, q, i);
    CivilOfYear(era, 36524 * c + 1461 * q + 365 * i + r, 100 * c + 4 * q + i, r);
  }

  lemma CivilOfYear(era: int, doe: int, yoe: int, r: int)
    requires (doe - doe / 1460 + doe / 36524 - doe / 146096) / 365 == yoe
    requires doe == 365 * yoe + yoe / 4 - yoe / 100 + r
    ensures CivilOfEra(era, doe) == DateInEra(400 * era + yoe, r)
  {
  }

  lemma DaysInEra(era: int, c: int, q: int, i: int, r: int)
    requires 0 <= c <= 3 && 0 <= q <= 24 && 0 <= i <= 3 && 0 <= r <= 365
    ensures var d := DateInEra(400 * era + 100 * c + 4 * q + i, r);
            DaysFromCivil(d.year, d.month, d.day)
            == 146097 * era + 36524 * c + 1461 * q + 365 * i + r - 719468
  {
    var yoe := 100 * c + 4 * q + i;
    YearOfEraQuotients(c, q, i);
    DaysOfYear(era, yoe, r);
  }

  lemma DaysOfYear(era: int, yoe: int, r: int)
    requires 0 <= yoe < 400 && 0 <= r <= 365
    ensures var d := DateInEra(400 * era + yoe, r);
            DaysFromCivil(d.year, d.month, d.day) == 146097 * era + 365 * yoe + yoe / 4 - yoe / 100 + r - 719468
  {
    DivUnique(400 * era + yoe, era, 400, yoe);
    MonthOfDay(r);
  }

  /** `CivilFromDays` always yields a real date, and converting it back gives the day. */
  lemma CivilRoundTrip(days: int)
    ensures Valid(CivilFromDays(days))
    ensures var d := CivilFromDays(days); DaysFromCivil(d.year, d.month, d.day) == days
  {
    var z := days + 719468;
    var era, doe := z / 146097, z % 146097;
    assert days == 146097 * era + doe - 719468;
    assert CivilFromDays(days) == CivilOfEra(era, doe);
    CivilOfEraRoundTrip(era, doe);
  }

  lemma CivilOfEraRoundTrip(era: int, doe: int)
    requires 0 <= doe < 146097
    ensures var d := CivilOfEra(era, doe);
            Valid(d) && DaysFromCivil(d.year, d.month, d.day) == 146097 * era + doe - 719468
  {
    var c, q, i, r := SplitEra(doe);
    CivilInEra(era, c, q, i, r);
    DaysInEra(era, c, q, i, r);
    ValidInEra(era, c, q, i, r);
  }

  lemma ValidInEra(era: int, c: int, q: int, i: int, r: int)
    requires 0 <= c <= 3 && 0 <= q <= 24 && 0 <= i <= 3
    requires 0 <= r <= (if i == 3 && (q < 24 || c == 3) then 365 else 364)
    ensures Valid(DateInEra(400 * era + 100 * c + 4 * q + i, r))
  {
    LeapInEra(era, c, q, i);
    DayFitsMonth(400 * era + 100 * c + 4 * q + i, r);
  }

  lemma LeapInEra(era: int, c: int, q: int, i: int)
    requires 0 <= c <= 3 && 0 <= q <= 24 && 0 <= i <= 3
    ensures IsLeap(400 * era + 100 * c + 4 * q + i + 1) <==> i == 3 && (q < 24 || c == 3)
  {
    var y, r := 400 * era + 100 * c + 4 * q + i + 1, 100 * c + 4 * q + i + 1;
    if r == 400 { SplitYear(y, era + 1, 0); } else { SplitYear(y, era, r); }
    if i == 3 && q == 24 {
      if c < 3 { DivUnique(r, c + 1, 100, 0); }
    } else {
      DivUnique(r, c, 100, 4 * q + i + 1);
    }
  }

  lemma DayFitsMonth(y: int, doy: int)
    requires 0 <= doy <= (if IsLeap(y + 1) then 365 else 364)
    ensures Valid(DateInEra(y, doy))
  {
    MonthOfDay(doy);
  }

  /** Day numbers order dates exactly as the calendar does. */
  lemma DaysAreMonotone(a: Date, b: Date)
    requires Valid(a) && Valid(b)
    ensures Before(a, b) <==> DaysFromCivil(a.year, a.month, a.day) < DaysFromCivil(b.year, b.month, b.day)
  {
    if Before(a, b) { BeforeIsSmaller(a, b); }
    else if Before(b, a) { BeforeIsSmaller(b, a); }
  }

  lemma {:induction false} MonthsAreOrdered(y: int, m: int, m': int)
    requires 1 <= m < m' <= 13
    ensures MonthStart(y, m) + MonthLength(y, m) <= (if m' == 13 then YearLength(y) else MonthStart(y, m'))
    ensures 0 <= MonthStart(y, m)
    decreases m'
  {
    MonthStartTable(y, m);
    if m' < 13 { MonthStartTable(y, m'); }
  }

  lemma BeforeIsSmaller(a: Date, b: Date)
    requires Valid(a) && Valid(b) && Before(a, b)
    ensures DaysFromCivil(a.year, a.month, a.day) < DaysFromCivil(b.year, b.month, b.day)
  {
    DaysFromCivilCounts(a);
    DaysFromCivilCounts(b);
    MonthsAreOrdered(a.year, a.month, 13);
    MonthsAreOrdered(b.year, b.month, 13);
    if a.year < b.year {
      YearStartStep(a.year);
      YearsAreMonotone(a.year + 1, b.year);
    } else if a.month < b.month {
      MonthsAreOrdered(a.year, a.month, b.month);
    }
  }

  lemma {:induction false} YearsAreMonotone(y: int, y': int)
    requires y <= y'
    ensures YearStart(y) + 365 * (y' - y) <= YearStart(y') <= YearStart(y) + 366 * (y' - y)
    decreases y' - y
  {
    if y < y' {
      YearsAreMonotone(y, y' - 1);
      YearStartStep(y' - 1);
    }
  }

  /** Converting a real date to a day number and back gives the date. */
  lemma DateRoundTrip(d: Date)
    requires Valid(d)
    ensures CivilFromDays(DaysFromCivil(d.year, d.month, d.day)) == d
  {
    var n := DaysFromCivil(d.year, d.month, d.day);
    CivilRoundTrip(n);
    DaysAreMonotone(CivilFromDays(n), d);
    DaysAreMonotone(d, CivilFromDays(n));
  }

  /** The day numbers of year `y` are exactly those from its 1 January to before the next. */
  lemma YearOfDay(days: int, y: int)
    ensures CivilFromDays(days).year == y <==> YearStart(y) <= days < YearStart(y + 1)
  {
    var d := CivilFromDays(days);
    CivilRoundTrip(days);
    DaysFromCivilCounts(d);
    MonthsAreOrdered(d.year, d.month, 13);
    YearStartStep(d.year);
    if y < d.year { YearsAreMonotone(y + 1, d.year); }
    if y > d.year { YearsAreMonotone(d.year + 1, y); }
  }
}
