/** The proleptic Gregorian calendar of ECMA-262 section 21.4.1, on day numbers (day 0 is 1970-01-01). */
module Calendar {

  const MS_PER_DAY := 86_400_000
  const MS_PER_MINUTE := 60_000

  datatype CivilDate = CivilDate(year: int, month: int, day: int)

  predicate IsLeap(y: int) {
    y % 4 == 0 && (y % 100 != 0 || y % 400 == 0)
  }

  function DaysInYear(y: int): int {
    if IsLeap(y) then 366 else 365
  }

  function DaysInMonth(y: int, m: int): int {
    if m == 2 then (if IsLeap(y) then 29 else 28)
    else if m == 4 || m == 6 || m == 9 || m == 11 then 30
    else 31
  }

  /** DayFromYear(y): the day number of January 1st. */
  function DayFromYear(y: int): int {
    365 * (y - 1970) + (y - 1969) / 4 - (y - 1901) / 100 + (y - 1601) / 400
  }

  /** Days of year `y` before month `m`. */
  function DaysBeforeMonth(y: int, m: int): int
    requires 1 <= m <= 13
  {
    if m == 1 then 0 else DaysBeforeMonth(y, m - 1) + DaysInMonth(y, m - 1)
  }

  /** A month and day that exist in the year. */
  predicate IsCivil(c: CivilDate) {
    1 <= c.month <= 12 && 1 <= c.day <= DaysInMonth(c.year, c.month)
  }

  /** MakeDay(year, month, date), where month counts from 0 and both month and date may overflow. */
  function MakeDay(y: int, month0: int, date: int): int {
    var year := y + month0 / 12;
    DayFromYear(year) + DaysBeforeMonth(year, month0 % 12 + 1) + date - 1
  }

  /** MakeFullYear: `Date.UTC` reads the years 0 to 99 as 1900 to 1999. */
  function MakeFullYear(y: int): int {
    if 0 <= y <= 99 then 1900 + y else y
  }

  /** `Date.UTC(y, month0, date, 0, minutes)` in milliseconds. */
  function DateUtc(y: int, month0: int, date: int, minutes: int): int {
    MakeDay(MakeFullYear(y), month0, date) * MS_PER_DAY + minutes * MS_PER_MINUTE
  }

  /** YearFromTime on day numbers: the largest year starting no later than day `d`. */
  function YearFromDay(d: int): (y: int)
    ensures DayFromYear(y) <= d < DayFromYear(y + 1)
  {
    var guess := 1970 + (if d >= 0 then d / 366 else d / 365);
    LaterYear(d, guess)
  }

  function LaterYear(d: int, y: int): (r: int)
    requires DayFromYear(y) <= d
    ensures DayFromYear(r) <= d < DayFromYear(r + 1)
    decreases d - DayFromYear(y)
  {
    YearLength(y);
    if d < DayFromYear(y + 1) then y else LaterYear(d, y + 1)
  }

  function MonthFromDay(y: int, dayInYear: int, m: int): (r: int)
    requires 1 <= m <= 12 && DaysBeforeMonth(y, m) <= dayInYear < DaysInYear(y)
    ensures 1 <= r <= 12
    ensures DaysBeforeMonth(y, r) <= dayInYear < DaysBeforeMonth(y, r + 1)
    decreases 12 - m
  {
    TwelveMonths(y);
    if m == 12 || dayInYear < DaysBeforeMonth(y, m + 1) then m else MonthFromDay(y, dayInYear, m + 1)
  }

  /** The civil date of a day number: `getUTCFullYear`, `getUTCMonth` + 1 and `getUTCDate`. */
  function CivilFromDay(d: int): (c: CivilDate)
    ensures IsCivil(c)
  {
    var y := YearFromDay(d);
    YearLength(y);
    var k := d - DayFromYear(y);
    var m := MonthFromDay(y, k, 1);
    CivilDate(y, m, k - DaysBeforeMonth(y, m) + 1)
  }

  function DayFromCivil(c: CivilDate): int {
    MakeDay(c.year, c.month - 1, c.day)
  }

  lemma YearLength(y: int)
    ensures DayFromYear(y + 1) == DayFromYear(y) + DaysInYear(y)
  {
    FourthYears(y);
    HundredthYears(y);
    FourHundredthYears(y);
  }

  lemma FourthYears(y: int)
    ensures (y - 1968) / 4 - (y - 1969) / 4 == if y % 4 == 0 then 1 else 0
  {
  }

  lemma HundredthYears(y: int)
    ensures (y - 1900) / 100 - (y - 1901) / 100 == if y % 100 == 0 then 1 else 0
  {
  }

  lemma FourHundredthYears(y: int)
    ensures (y - 1600) / 400 - (y - 1601) / 400 == if y % 400 == 0 then 1 else 0
    ensures y % 400 == 0 ==> y % 100 == 0
    ensures y % 100 == 0 ==> y % 4 == 0
  {
  }

  lemma TwelveMonths(y: int)
    ensures DaysBeforeMonth(y, 13) == DaysInYear(y)
  {
    assert DaysBeforeMonth(y, 2) == DaysBeforeMonth(y, 1) + 31 == 31;
    assert DaysBeforeMonth(y, 3) == 31 + DaysInMonth(y, 2);
    assert DaysBeforeMonth(y, 5) == DaysBeforeMonth(y, 3) + 61;
    assert DaysBeforeMonth(y, 7) == DaysBeforeMonth(y, 5) + 61;
    assert DaysBeforeMonth(y, 9) == DaysBeforeMonth(y, 7) + 62;
    assert DaysBeforeMonth(y, 11) == DaysBeforeMonth(y, 9) + 61;
  }

  lemma {:induction false} YearsAscend(y: int, z: int)
    requires y < z
    ensures DayFromYear(y) + 365 * (z - y) <= DayFromYear(z)
    decreases z - y
  {
    YearLength(z - 1);
    if y < z - 1 {
      YearsAscend(y, z - 1);
    }
  }

  lemma {:induction false} MonthsAscend(y: int, m: int, n: int)
    requires 1 <= m < n <= 13
    ensures DaysBeforeMonth(y, m) + DaysInMonth(y, m) <= DaysBeforeMonth(y, n)
    decreases n - m
  {
    if m < n - 1 {
      MonthsAscend(y, m, n - 1);
    }
  }

  /** Every day number names exactly one civil date: the two conversions are inverse. */
  lemma DayOfCivilOfDay(d: int)
    ensures DayFromCivil(CivilFromDay(d)) == d
  {
    var c := CivilFromDay(d);
    assert (c.month - 1) / 12 == 0 && (c.month - 1) % 12 == c.month - 1;
  }

  lemma CivilDateUnique(b: CivilDate, c: CivilDate)
    requires IsCivil(b) && IsCivil(c) && DayFromCivil(b) == DayFromCivil(c)
    ensures b == c
  {
    hide DayFromYear, IsLeap, DaysInMonth;
    CivilBounds(b);
    CivilBounds(c);
    if b.year < c.year {
      YearsAscend(b.year, c.year);
      YearLength(b.year);
      if b.year + 1 < c.year { YearsAscend(b.year + 1, c.year); }
    } else if c.year < b.year {
      YearLength(c.year);
      if c.year + 1 < b.year { YearsAscend(c.year + 1, b.year); }
    } else if b.month < c.month {
      MonthsAscend(b.year, b.month, c.month);
    } else if c.month < b.month {
      MonthsAscend(b.year, c.month, b.month);
    }
  }

  lemma CivilBounds(c: CivilDate)
    requires IsCivil(c)
    ensures DayFromCivil(c) == DayFromYear(c.year) + DaysBeforeMonth(c.year, c.month) + c.day - 1
    ensures DayFromYear(c.year) <= DayFromCivil(c) < DayFromYear(c.year + 1)
  {
    assert (c.month - 1) / 12 == 0 && (c.month - 1) % 12 == c.month - 1;
    YearLength(c.year);
    TwelveMonths(c.year);
    if c.month > 1 { MonthsAscend(c.year, 1, c.month); }
    MonthsAscend(c.year, c.month, 13);
  }

  /** A triple survives the trip through a day number exactly when it names a real Gregorian day. */
  lemma CivilOfDayOfCivil(c: CivilDate)
    ensures CivilFromDay(DayFromCivil(c)) == c <==> IsCivil(c)
  {
    var r := CivilFromDay(DayFromCivil(c));
    DayOfCivilOfDay(DayFromCivil(c));
    if IsCivil(c) {
      CivilDateUnique(r, c);
    }
  }

  /** The calendar's own successor: next day, next month, or next year. */
  function NextCivil(c: CivilDate): CivilDate {
    if c.day < DaysInMonth(c.year, c.month) then c.(day := c.day + 1)
    else if c.month < 12 then CivilDate(c.year, c.month + 1, 1)
    else CivilDate(c.year + 1, 1, 1)
  }

  /** Adding one to the day number is the calendar successor, across month and leap-year ends. */
  lemma NextDayIsNextCivil(c: CivilDate)
    requires IsCivil(c)
    ensures IsCivil(NextCivil(c))
    ensures DayFromCivil(NextCivil(c)) == DayFromCivil(c) + 1
    ensures CivilFromDay(DayFromCivil(c) + 1) == NextCivil(c)
  {
    var n := NextCivil(c);
    assert IsCivil(n);
    NextCivilDay(c, n);
    CivilOfDayOfCivil(n);
  }

  lemma NextCivilDay(c: CivilDate, n: CivilDate)
    requires IsCivil(c) && n == NextCivil(c) && IsCivil(n)
    ensures DayFromCivil(n) == DayFromCivil(c) + 1
  {
    hide DayFromYear, IsLeap, DayFromCivil;
    CivilBounds(c);
    CivilBounds(n);
    if c.day == DaysInMonth(c.year, c.month) {
      assert DaysBeforeMonth(c.year, c.month + 1) == DaysBeforeMonth(c.year, c.month) + c.day;
      YearLength(c.year);
      TwelveMonths(c.year);
      assert DaysBeforeMonth(n.year, 1) == 0;
    }
  }

  lemma MidnightDay(y: int, month0: int, date: int)
    ensures DateUtc(y, month0, date, 0) / MS_PER_DAY == MakeDay(MakeFullYear(y), month0, date)
  {
  }

  /** `Date.UTC` with the day overflowed by one is the next midnight. */
  lemma NextMidnight(c: CivilDate)
    requires IsCivil(c) && c.year >= 100
    ensures IsCivil(NextCivil(c)) && 100 <= NextCivil(c).year && NextCivil(c).month < 100 && NextCivil(c).day < 100
    ensures CivilFromDay(DateUtc(c.year, c.month - 1, c.day + 1, 0) / MS_PER_DAY) == NextCivil(c)
  {
    hide CivilFromDay;
    MidnightDay(c.year, c.month - 1, c.day + 1);
    NextDayIsNextCivil(c);
  }

  /** Weeks: `getUTCDay` counts from Sunday = 0, and day 0 was a Thursday. */
  function WeekDay(d: int): int {
    (d + 4) % 7
  }

  lemma MondayFirst(d: int)
    ensures (d + 3) % 7 == if WeekDay(d) == 0 then 6 else WeekDay(d) - 1
  {
  }

  lemma WeekStep(d: int)
    ensures (d + 1) % 7 == (d % 7 + 1) % 7
  {
  }

  lemma KnownDay()
    ensures DayFromCivil(CivilDate(2026, 6, 15)) == 20619
  {
    assert DaysBeforeMonth(2026, 2) == 31;
    assert DaysBeforeMonth(2026, 4) == 90;
    assert DaysBeforeMonth(2026, 6) == 151;
    assert MakeDay(2026, 5, 15) == 20619;
  }

  /** The first day of each month within its year, by the table of section 21.4.1.11 of ECMA-262. */
  lemma MonthStarts(y: int, m: int)
    requires 1 <= m <= 13
    ensures DaysBeforeMonth(y, m)
         == [0, 31, 59, 90, 120, 151, 181, 212, 243, 273, 304, 334, 365][m - 1]
            + if m > 2 && (y % 400 == 0 || (y % 4 == 0 && y % 100 != 0)) then 1 else 0
  {
  }

  /** Twelve months more are one year more, and days more are days more. */
  lemma OverflowCarries(y: int, month0: int, date: int, k: int)
    ensures MakeDay(y, month0 + 12, date) == MakeDay(y + 1, month0, date)
    ensures MakeDay(y, month0, date + k) == MakeDay(y, month0, date) + k
  {
    assert (month0 + 12) / 12 == month0 / 12 + 1 && (month0 + 12) % 12 == month0 % 12;
  }
}
