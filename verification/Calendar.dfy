/**
 The proleptic Gregorian calendar behind `Date.UTC` and the `getUTC…` readers
 (section 21.4.1 of ECMA-262), in whole days since 1970-01-01, and an
 independent reading of it: the day after a day.
 */
module Calendar {

  datatype Date = Date(year: int, month: int, day: int)

  predicate Leap(year: int) {
    year % 4 == 0 && (year % 100 != 0 || year % 400 == 0)
  }

  function MonthLength(year: int, month: int): (n: int)
    ensures 28 <= n <= 31
  {
    if month == 2 then (if Leap(year) then 29 else 28)
    else if month == 4 || month == 6 || month == 9 || month == 11 then 30
    else 31
  }

  /** A day the Gregorian calendar has. */
  predicate Valid(date: Date) {
    && 1 <= date.month <= 12
    && 1 <= date.day <= MonthLength(date.year, date.month)
  }

  // ------------------------------------------------ days since 1970-01-01

  /** The number of the first day of a year. */
  function YearStart(year: int): int {
    365 * (year - 1970) + (year - 1969) / 4 - (year - 1901) / 100 + (year - 1601) / 400
  }

  function YearLength(year: int): int {
    if Leap(year) then 366 else 365
  }

  /** Days of the year before the month. */
  function MonthStart(year: int, month: int): (n: int)
    requires 1 <= month <= 13
    ensures n >= 0
  {
    if month == 1 then 0 else MonthStart(year, month - 1) + MonthLength(year, month - 1)
  }

  function DaysOf(date: Date): int
    requires 1 <= date.month <= 12
  {
    YearStart(date.year) + MonthStart(date.year, date.month) + date.day - 1
  }

  lemma DivStep(n: int, k: int)
    requires k == 4 || k == 100 || k == 400
    ensures (n + 1) / k == n / k + if (n + 1) % k == 0 then 1 else 0
  {
  }

  lemma YearStartStep(year: int)
    ensures YearStart(year + 1) == YearStart(year) + YearLength(year)
  {
    DivStep(year - 1969, 4);
    DivStep(year - 1901, 100);
    DivStep(year - 1601, 400);
    assert (year - 1968) % 4 == year % 4;
    assert (year - 1900) % 100 == year % 100;
    assert (year - 1600) % 400 == year % 400;
  }

  lemma {:induction false} YearStartMonotone(a: int, b: int)
    requires a <= b
    ensures YearStart(a) + 365 * (b - a) <= YearStart(b)
    decreases b - a
  {
    if a < b {
      YearStartMonotone(a, b - 1);
      YearStartStep(b - 1);
    }
  }

  lemma MonthStartTotal(year: int)
    ensures MonthStart(year, 13) == YearLength(year)
  {
    assert MonthStart(year, 2) == 31;
    assert MonthStart(year, 3) == 31 + MonthLength(year, 2);
    assert MonthStart(year, 4) == MonthStart(year, 3) + 31;
    assert MonthStart(year, 5) == MonthStart(year, 4) + 30;
    assert MonthStart(year, 6) == MonthStart(year, 5) + 31;
    assert MonthStart(year, 7) == MonthStart(year, 6) + 30;
    assert MonthStart(year, 8) == MonthStart(year, 7) + 31;
    assert MonthStart(year, 9) == MonthStart(year, 8) + 31;
    assert MonthStart(year, 10) == MonthStart(year, 9) + 30;
    assert MonthStart(year, 11) == MonthStart(year, 10) + 31;
    assert MonthStart(year, 12) == MonthStart(year, 11) + 30;
    assert MonthStart(year, 13) == MonthStart(year, 12) + 31;
  }

  lemma {:induction false} MonthStartMonotone(year: int, a: int, b: int)
    requires 1 <= a < b <= 13
    ensures MonthStart(year, a) + MonthLength(year, a) <= MonthStart(year, b)
    decreases b - a
  {
    if a + 1 < b {
      MonthStartMonotone(year, a, b - 1);
    }
  }

  // ------------------------------------------------- the date of a day number

  function YearDistance(n: int, year: int): (d: nat)
  {
    if n < YearStart(year) then YearStart(year) - n
    else if n >= YearStart(year + 1) then n - YearStart(year + 1) + 1
    else 0
  }

  /** The year a day falls in, looked for from `year`. */
  function YearFrom(n: int, year: int): (y: int)
    ensures YearStart(y) <= n < YearStart(y + 1)
    decreases YearDistance(n, year)
  {
    hide YearStart;
    YearStartStep(year - 1);
    YearStartStep(year);
    YearStartStep(year + 1);
    if n < YearStart(year) then YearFrom(n, year - 1)
    else if n >= YearStart(year + 1) then YearFrom(n, year + 1)
    else year
  }

  function YearOf(n: int): (y: int)
    ensures YearStart(y) <= n < YearStart(y + 1)
  {
    YearFrom(n, 1970)
  }

  function MonthFrom(year: int, within: int, month: int): (m: int)
    requires 1 <= month <= 12
    requires MonthStart(year, month) <= within < MonthStart(year, 13)
    ensures month <= m <= 12
    ensures MonthStart(year, m) <= within < MonthStart(year, m + 1)
    decreases 12 - month
  {
    if within < MonthStart(year, month + 1) then month else MonthFrom(year, within, month + 1)
  }

  function DateOf(n: int): (date: Date)
    ensures Valid(date)
  {
    var y := YearOf(n);
    YearStartStep(y);
    MonthStartTotal(y);
    var within := n - YearStart(y);
    var m := MonthFrom(y, within, 1);
    Date(y, m, within - MonthStart(y, m) + 1)
  }

  /** Reading a day number as a date and numbering that date is the identity. */
  lemma DaysOfDateOf(n: int)
    ensures DaysOf(DateOf(n)) == n
  {
  }

  lemma DateSpan(date: Date)
    requires Valid(date)
    ensures YearStart(date.year) <= DaysOf(date) < YearStart(date.year + 1)
    ensures MonthStart(date.year, date.month) <= DaysOf(date) - YearStart(date.year)
    ensures DaysOf(date) - YearStart(date.year) < MonthStart(date.year, date.month + 1)
  {
    YearStartStep(date.year);
    MonthStartTotal(date.year);
    if date.month < 12 {
      MonthStartMonotone(date.year, date.month, 13);
    }
  }

  /** Dates are numbered in calendar order: year first, then month, then day. */
  predicate Before(a: Date, b: Date) {
    a.year < b.year || (a.year == b.year && (a.month < b.month || (a.month == b.month && a.day < b.day)))
  }

  lemma DaysOfOrder(a: Date, b: Date)
    requires Valid(a) && Valid(b)
    ensures DaysOf(a) < DaysOf(b) <==> Before(a, b)
    ensures DaysOf(a) == DaysOf(b) <==> a == b
  {
    hide YearStart, MonthStart, MonthLength;
    if Before(a, b) {
      DaysOfBefore(a, b);
    } else if Before(b, a) {
      DaysOfBefore(b, a);
    }
  }

  lemma DaysOfBefore(a: Date, b: Date)
    requires Valid(a) && Valid(b) && Before(a, b)
    ensures DaysOf(a) < DaysOf(b)
  {
    hide YearStart, MonthStart, MonthLength;
    DateSpan(a);
    DateSpan(b);
    if a.year < b.year {
      YearStartMonotone(a.year + 1, b.year);
    } else if a.month < b.month {
      if a.month + 1 < b.month {
        MonthStartMonotone(a.year, a.month + 1, b.month);
      }
    }
  }

  /** Numbering a valid date and reading the number back is the identity. */
  lemma DateOfDaysOf(date: Date)
    requires Valid(date)
    ensures DateOf(DaysOf(date)) == date
  {
    hide DateOf, YearStart, MonthStart, MonthLength;
    var n := DaysOf(date);
    DaysOfDateOf(n);
    DaysOfOrder(DateOf(n), date);
  }

  // ------------------------------------------------------- the day after

  function NextDay(date: Date): Date {
    if date.day < MonthLength(date.year, date.month) then Date(date.year, date.month, date.day + 1)
    else if date.month < 12 then Date(date.year, date.month + 1, 1)
    else Date(date.year + 1, 1, 1)
  }

  function Later(date: Date, days: nat): Date {
    if days == 0 then date else NextDay(Later(date, days - 1))
  }

  lemma NextDayNumber(date: Date)
    requires Valid(date)
    ensures Valid(NextDay(date)) && DaysOf(NextDay(date)) == DaysOf(date) + 1
  {
    if date.day == MonthLength(date.year, date.month) && date.month == 12 {
      YearStartStep(date.year);
      MonthStartTotal(date.year);
    }
  }

  /** Counting `days` on from a date is walking the calendar day by day. */
  lemma {:induction false} LaterNumber(date: Date, days: nat)
    requires Valid(date)
    ensures Valid(Later(date, days)) && DaysOf(Later(date, days)) == DaysOf(date) + days
    ensures DateOf(DaysOf(date) + days) == Later(date, days)
  {
    hide DateOf, DaysOf, Valid, NextDay;
    if days > 0 {
      LaterNumber(date, days - 1);
      NextDayNumber(Later(date, days - 1));
    }
    DateOfDaysOf(Later(date, days));
  }

  // ------------------------------------------------------------ Date.UTC

  /** `Date.UTC(year, month0, day)` in days: a year of one or two digits is moved to 1900. */
  function UtcDay(year: int, month0: int, day: int): int {
    var full := if 0 <= year <= 99 then 1900 + year else year;
    var y := full + month0 / 12;
    var m := month0 % 12 + 1;
    YearStart(y) + MonthStart(y, m) + day - 1
  }

  // ----------------------------------------------------------- what it agrees on

  /** The months' lengths, one by one. */
  lemma MonthsAre(year: int, month: int)
    requires 1 <= month <= 12 && month != 2
    ensures MonthLength(year, month) == [31, 28, 31, 30, 31, 30, 31, 31, 30, 31, 30, 31][month - 1]
  {
  }

  /** February has a day more in the years that four divides, but for those of a century four hundred does not. */
  lemma FebruaryIs(year: int)
    ensures MonthLength(year, 2) == if Leap(year) then 29 else 28
    ensures year % 400 == 0 ==> Leap(year)
    ensures year % 100 == 0 && year % 400 != 0 ==> !Leap(year)
    ensures year % 4 == 0 && year % 100 != 0 ==> Leap(year)
    ensures year % 4 != 0 ==> !Leap(year)
  {
  }

  /** Day zero, and the day two digits of a year are read as. */
  lemma UtcDays(year: int, month: int, day: int)
    requires 1 <= month <= 12
    ensures DaysOf(Date(1970, 1, 1)) == 0
    ensures 0 <= year <= 99 ==> UtcDay(year, month - 1, day) == DaysOf(Date(1900 + year, month, day))
    ensures year < 0 || year > 99 ==> UtcDay(year, month - 1, day) == DaysOf(Date(year, month, day))
  {
    hide YearStart, MonthStart;
    assert YearStart(1970) == 0 by {
      FirstYear();
    }
    assert MonthStart(1970, 1) == 0 by {
      FirstMonth();
    }
  }

  lemma FirstYear()
    ensures YearStart(1970) == 0
  {
  }

  lemma FirstMonth()
    ensures MonthStart(1970, 1) == 0
  {
  }
}
