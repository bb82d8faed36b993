/** The proleptic Gregorian calendar, and the way the validator decides
    whether a (year, month, day) triple is a real date: it builds a
    `Date` from the triple, letting out-of-range months and days carry
    into the next unit, and checks that reading the date back gives the
    same triple. Day numbers follow ECMAScript's time model (day 0 is
    1 January 1970). */
module Calendar {

  /** Gregorian leap-year rule: every fourth year, except centuries not
      divisible by 400. */
  predicate IsLeapYear(y: int) {
    (y % 4 == 0 && y % 100 != 0) || y % 400 == 0
  }

  /** A year has 365 days, and one more exactly when its February has 29. */
  function DaysInYear(y: int): (n: nat)
    ensures 365 <= n <= 366 && (n == 366 <==> DaysInMonth(y, 2) == 29)
  {
    if IsLeapYear(y) then 366 else 365
  }

  /** Length of month m (1 = January) of year y. */
  function DaysInMonth(y: int, m: int): (n: nat)
    requires 1 <= m <= 12
    ensures 28 <= n <= 31
    ensures n == 29 <==> m == 2 && IsLeapYear(y)
  {
    if m == 2 then (if IsLeapYear(y) then 29 else 28)
    else if m == 4 || m == 6 || m == 9 || m == 11 then 30
    else 31
  }

  /** The date the validator accepts: a month of the year and a day of that month. */
  predicate IsValidDate(y: int, m: int, d: int) {
    1 <= m <= 12 && 1 <= d <= DaysInMonth(y, m)
  }

  /** Days of year y before the first day of month m; m == 13 gives the
      whole year. */
  function DaysBeforeMonth(y: int, m: int): (n: nat)
    requires 1 <= m <= 13
  {
    [0, 31, 59, 90, 120, 151, 181, 212, 243, 273, 304, 334, 365][m - 1]
      + (if IsLeapYear(y) && m > 2 then 1 else 0)
  }

  lemma DaysBeforeMonthStep(y: int, m: int)
    requires 1 <= m <= 12
    ensures DaysBeforeMonth(y, m + 1) == DaysBeforeMonth(y, m) + DaysInMonth(y, m)
    ensures DaysBeforeMonth(y, 13) == DaysInYear(y)
  {
  }

  /** ECMAScript's DayFromYear: the day number of 1 January of year y. */
  function DayFromYear(y: int): int {
    365 * (y - 1970) + (y - 1969) / 4 - (y - 1901) / 100 + (y - 1601) / 400
  }

  /** The three floor terms of DayFromYear each step by one exactly at
      the years the leap-year rule counts. */
  lemma QuadStep(y: int)
    ensures (y - 1968) / 4 - (y - 1969) / 4 == if y % 4 == 0 then 1 else 0
  {
    var q, r := y / 4, y % 4;
    assert y == 4 * q + r && 0 <= r < 4;
    assert (y - 1968) / 4 == q - 492;
    assert (y - 1969) / 4 == if r == 0 then q - 493 else q - 492;
  }

  lemma CenturyStep(y: int)
    ensures (y - 1900) / 100 - (y - 1901) / 100 == if y % 100 == 0 then 1 else 0
  {
    var q, r := y / 100, y % 100;
    assert y == 100 * q + r && 0 <= r < 100;
    assert (y - 1900) / 100 == q - 19;
    assert (y - 1901) / 100 == if r == 0 then q - 20 else q - 19;
  }

  lemma QuadCenturyStep(y: int)
    ensures (y - 1600) / 400 - (y - 1601) / 400 == if y % 400 == 0 then 1 else 0
  {
    var q, r := y / 400, y % 400;
    assert y == 400 * q + r && 0 <= r < 400;
    assert (y - 1600) / 400 == q - 4;
    assert (y - 1601) / 400 == if r == 0 then q - 5 else q - 4;
  }

  /** Consecutive years are DaysInYear apart. */
  lemma DayFromYearStep(y: int)
    ensures DayFromYear(y + 1) == DayFromYear(y) + DaysInYear(y)
  {
    QuadStep(y);
    CenturyStep(y);
    QuadCenturyStep(y);
    assert DaysInYear(y) == 365 + (if IsLeapYear(y) then 1 else 0);
  }

  lemma {:induction false} DayFromYearMonotone(a: int, b: int)
    requires a < b
    ensures DayFromYear(a) + DaysInYear(a) <= DayFromYear(b)
    decreases b - a
  {
    DayFromYearStep(a);
    if a + 1 < b {
      DayFromYearMonotone(a + 1, b);
    }
  }

  /** A day number has one year and one day-of-year. */
  lemma YearUnique(a: int, i: int, b: int, j: int)
    requires 0 <= i < DaysInYear(a) && 0 <= j < DaysInYear(b)
    requires DayFromYear(a) + i == DayFromYear(b) + j
    ensures a == b && i == j
  {
    if a < b {
      DayFromYearMonotone(a, b);
    } else if b < a {
      DayFromYearMonotone(b, a);
    }
  }

  lemma {:induction false} DaysBeforeMonthMonotone(y: int, a: int, b: int)
    requires 1 <= a < b <= 13
    ensures DaysBeforeMonth(y, a) + DaysInMonth(y, a) <= DaysBeforeMonth(y, b)
    decreases b - a
  {
    DaysBeforeMonthStep(y, a);
    if a + 1 < b {
      DaysBeforeMonthStep(y, a + 1);
      DaysBeforeMonthMonotone(y, a + 1, b);
    }
  }

  /** A day of the year has one month and one day-of-month. */
  lemma MonthUnique(y: int, a: int, i: int, b: int, j: int)
    requires IsValidDate(y, a, i) && IsValidDate(y, b, j)
    requires DaysBeforeMonth(y, a) + i == DaysBeforeMonth(y, b) + j
    ensures a == b && i == j
  {
    if a < b {
      DaysBeforeMonthMonotone(y, a, b);
    } else if b < a {
      DaysBeforeMonthMonotone(y, b, a);
    }
  }

  /** ECMAScript's MakeDay: the day number of the given date of the given
      month index (0 = January) of year y, where a month index outside
      0..11 carries into the year and a date outside the month carries
      into the neighbouring months. */
  function MakeDay(y: int, monthIndex: int, date: int): int {
    var ym := y + monthIndex / 12;
    var mn := monthIndex % 12;
    DayFromYear(ym) + DaysBeforeMonth(ym, mn + 1) + date - 1
  }

  /** The year holding the day that lies n days after 1 January of year y,
      and that day's offset within its year. */
  function LocateYear(n: int, y: int): (r: (int, int))
    ensures 0 <= r.1 < DaysInYear(r.0)
    ensures DayFromYear(r.0) + r.1 == DayFromYear(y) + n
    decreases if n < 0 then 1 else 0, if n < 0 then -n else n
  {
    if n < 0 then
      DayFromYearStep(y - 1);
      LocateYear(n + DaysInYear(y - 1), y - 1)
    else if n >= DaysInYear(y) then
      DayFromYearStep(y);
      LocateYear(n - DaysInYear(y), y + 1)
    else
      (y, n)
  }

  /** The month and day-of-month of the day that lies k days after the first
      day of month m of year y. */
  function LocateMonth(y: int, k: int, m: int): (r: (int, int))
    requires 1 <= m <= 12 && 0 <= k
    requires DaysBeforeMonth(y, m) + k < DaysInYear(y)
    ensures IsValidDate(y, r.0, r.1)
    ensures DaysBeforeMonth(y, r.0) + r.1 - 1 == DaysBeforeMonth(y, m) + k
    decreases 12 - m
  {
    DaysBeforeMonthStep(y, m);
    if k < DaysInMonth(y, m) then (m, k + 1)
    else LocateMonth(y, k - DaysInMonth(y, m), m + 1)
  }

  /** ECMAScript's YearFromTime, MonthFromTime and DateFromTime for day n:
      always a real date, and the one whose day number is n. */
  function DateOfDay(n: int): (r: (int, int, int))
    ensures IsValidDate(r.0, r.1, r.2)
    ensures DayFromYear(r.0) + DaysBeforeMonth(r.0, r.1) + r.2 - 1 == n
  {
    var (y, k) := LocateYear(n, 1970);
    DaysBeforeMonthStep(y, 1);
    var (m, d) := LocateMonth(y, k, 1);
    (y, m, d)
  }

  /** The validator's date test: `new Date(year, month - 1, day)` read back
      with getFullYear, getMonth + 1 and getDate must give the triple. The
      `Date` constructor reads a year in 0..99 as 1900 + year. */
  predicate DateRoundTrips(year: int, month: int, day: int) {
    var yr := if 0 <= year <= 99 then 1900 + year else year;
    var r := DateOfDay(MakeDay(yr, month - 1, day));
    r.0 == year && r.1 == month && r.2 == day
  }

  /** The round trip succeeds exactly on the real dates, except that years
      0..99 always fail because the constructor moves them to 19xx. */
  lemma DateRoundTripsIffValid(year: int, month: int, day: int)
    ensures DateRoundTrips(year, month, day)
            <==> IsValidDate(year, month, day) && !(0 <= year <= 99)
  {
    if IsValidDate(year, month, day) {
      if 0 <= year <= 99 {
        SmallYearFails(year, month, day);
      } else {
        ValidDateRoundTrips(year, month, day);
      }
    }
  }

  /** A real date of year 0..99 is read back in 1900..1999. */
  lemma SmallYearFails(year: int, month: int, day: int)
    requires IsValidDate(year, month, day) && 0 <= year <= 99
    ensures !DateRoundTrips(year, month, day)
  {
    var yr := 1900 + year;
    var t := MakeDay(yr, month - 1, day);
    assert (month - 1) / 12 == 0 && (month - 1) % 12 == month - 1;
    assert t == DayFromYear(yr) + DaysBeforeMonth(yr, month) + day - 1;
    DayFromYearMonotone(year, yr);
    assert DayFromYear(year) + DaysBeforeMonth(year, month) + day - 1 != t;
  }

  /** A real date outside years 0..99 survives the round trip. */
  lemma ValidDateRoundTrips(year: int, month: int, day: int)
    requires IsValidDate(year, month, day) && !(0 <= year <= 99)
    ensures DateRoundTrips(year, month, day)
  {
    var t := MakeDay(year, month - 1, day);
    assert (month - 1) / 12 == 0 && (month - 1) % 12 == month - 1;
    assert t == DayFromYear(year) + DaysBeforeMonth(year, month) + day - 1;
    var r := DateOfDay(t);
    DaysBeforeMonthStep(year, month);
    DaysBeforeMonthMonotone(year, month, 13);
    YearUnique(r.0, DaysBeforeMonth(r.0, r.1) + r.2 - 1,
               year, DaysBeforeMonth(year, month) + day - 1);
    MonthUnique(year, r.1, r.2, month, day);
  }
}
