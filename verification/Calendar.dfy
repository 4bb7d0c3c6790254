// The proleptic Gregorian calendar (ISO 8601) in UTC. Days are numbered from
// 0001-01-01, the date of Go's zero time, and minutes from that day's midnight.
module Calendar {
  import Arithmetic

  datatype Date = Date(year: int, month: int, day: int)

  predicate IsLeap(year: int) {
    year % 4 == 0 && (year % 100 != 0 || year % 400 == 0)
  }

  function DaysInMonth(year: int, month: int): int {
    if month == 2 then (if IsLeap(year) then 29 else 28)
    else if month == 4 || month == 6 || month == 9 || month == 11 then 30
    else 31
  }

  predicate ValidDate(d: Date) {
    && 1 <= d.year
    && 1 <= d.month <= 12
    && 1 <= d.day <= DaysInMonth(d.year, d.month)
  }

  // The day after d.
  function NextDay(d: Date): Date {
    if d.day < DaysInMonth(d.year, d.month) then Date(d.year, d.month, d.day + 1)
    else if d.month < 12 then Date(d.year, d.month + 1, 1)
    else Date(d.year + 1, 1, 1)
  }

  // The date n days after 0001-01-01, by counting days.
  function DateOf(n: nat): (d: Date)
    ensures ValidDate(d)
  {
    if n == 0 then Date(1, 1, 1) else NextDay(DateOf(n - 1))
  }

  // 0 is Sunday; 0001-01-01 was a Monday.
  function WeekdayOf(n: nat): int {
    (n + 1) % 7
  }

  function DaysInYear(year: int): int {
    if IsLeap(year) then 366 else 365
  }

  function DaysBeforeYear(year: int): int
    requires 1 <= year
    decreases year
  {
    if year == 1 then 0 else DaysBeforeYear(year - 1) + DaysInYear(year - 1)
  }

  function DaysBeforeMonth(year: int, month: int): int
    requires 1 <= month <= 12
    decreases month
  {
    if month == 1 then 0 else DaysBeforeMonth(year, month - 1) + DaysInMonth(year, month - 1)
  }

  // The number of d, by adding up whole years and months.
  function DayNumber(d: Date): int
    requires ValidDate(d)
  {
    DaysBeforeYear(d.year) + DaysBeforeMonth(d.year, d.month) + d.day - 1
  }

  predicate DateBefore(a: Date, b: Date) {
    || a.year < b.year
    || (a.year == b.year && a.month < b.month)
    || (a.year == b.year && a.month == b.month && a.day < b.day)
  }

  lemma MonthTable(year: int)
    ensures DaysBeforeMonth(year, 2) == 31
    ensures DaysBeforeMonth(year, 3) == 31 + DaysInMonth(year, 2)
    ensures DaysBeforeMonth(year, 4) == DaysBeforeMonth(year, 3) + 31
    ensures DaysBeforeMonth(year, 5) == DaysBeforeMonth(year, 3) + 61
    ensures DaysBeforeMonth(year, 6) == DaysBeforeMonth(year, 3) + 92
    ensures DaysBeforeMonth(year, 7) == DaysBeforeMonth(year, 3) + 122
    ensures DaysBeforeMonth(year, 8) == DaysBeforeMonth(year, 3) + 153
    ensures DaysBeforeMonth(year, 9) == DaysBeforeMonth(year, 3) + 184
    ensures DaysBeforeMonth(year, 10) == DaysBeforeMonth(year, 3) + 214
    ensures DaysBeforeMonth(year, 11) == DaysBeforeMonth(year, 3) + 245
    ensures DaysBeforeMonth(year, 12) == DaysBeforeMonth(year, 3) + 275
  {
    assert DaysBeforeMonth(year, 1) == 0;
    assert DaysBeforeMonth(year, 2) == DaysBeforeMonth(year, 1) + 31;
    assert DaysBeforeMonth(year, 3) == DaysBeforeMonth(year, 2) + DaysInMonth(year, 2);
    assert DaysBeforeMonth(year, 4) == DaysBeforeMonth(year, 3) + 31;
    assert DaysBeforeMonth(year, 5) == DaysBeforeMonth(year, 4) + 30;
    assert DaysBeforeMonth(year, 6) == DaysBeforeMonth(year, 5) + 31;
    assert DaysBeforeMonth(year, 7) == DaysBeforeMonth(year, 6) + 30;
    assert DaysBeforeMonth(year, 8) == DaysBeforeMonth(year, 7) + 31;
    assert DaysBeforeMonth(year, 9) == DaysBeforeMonth(year, 8) + 31;
    assert DaysBeforeMonth(year, 10) == DaysBeforeMonth(year, 9) + 30;
    assert DaysBeforeMonth(year, 11) == DaysBeforeMonth(year, 10) + 31;
    assert DaysBeforeMonth(year, 12) == DaysBeforeMonth(year, 11) + 30;
  }

  lemma NextDayCounts(d: Date)
    requires ValidDate(d)
    ensures ValidDate(NextDay(d)) && DayNumber(NextDay(d)) == DayNumber(d) + 1
  {
    MonthTable(d.year);
    if d.day == DaysInMonth(d.year, d.month) && d.month == 12 {
      assert DaysBeforeYear(d.year + 1) == DaysBeforeYear(d.year) + DaysInYear(d.year);
      assert DaysBeforeMonth(d.year + 1, 1) == 0;
    }
  }

  lemma {:induction false} DayNumberOfDateOf(n: nat)
    ensures DayNumber(DateOf(n)) == n
  {
    if n > 0 {
      DayNumberOfDateOf(n - 1);
      NextDayCounts(DateOf(n - 1));
    }
  }

  lemma {:induction false} YearsAccumulate(a: int, b: int)
    requires 1 <= a <= b
    ensures DaysBeforeYear(a) + 365 * (b - a) <= DaysBeforeYear(b) <= DaysBeforeYear(a) + 366 * (b - a)
    ensures a < b ==> DaysBeforeYear(a) + DaysInYear(a) <= DaysBeforeYear(b)
    decreases b - a
  {
    if a < b {
      YearsAccumulate(a, b - 1);
    }
  }

  lemma MonthsFitInYear(d: Date)
    requires ValidDate(d)
    ensures 0 <= DaysBeforeMonth(d.year, d.month)
    ensures DaysBeforeMonth(d.year, d.month) + d.day <= DaysInYear(d.year)
  {
    MonthTable(d.year);
  }

  lemma {:induction false} MonthsAccumulate(year: int, a: int, b: int)
    requires 1 <= a < b <= 12
    ensures DaysBeforeMonth(year, a) + DaysInMonth(year, a) <= DaysBeforeMonth(year, b)
    decreases b - a
  {
    if a + 1 < b {
      MonthsAccumulate(year, a, b - 1);
    }
  }

  // Day numbers follow the calendar order, so no two dates share one.
  lemma DayNumberMonotone(a: Date, b: Date)
    requires ValidDate(a) && ValidDate(b) && DateBefore(a, b)
    ensures DayNumber(a) < DayNumber(b)
  {
    if a.year < b.year {
      YearsAccumulate(a.year, b.year);
      MonthsFitInYear(a);
      MonthsFitInYear(b);
    } else if a.month < b.month {
      MonthsAccumulate(a.year, a.month, b.month);
    }
  }

  lemma DayNumberIsNat(d: Date)
    requires ValidDate(d)
    ensures 0 <= DayNumber(d)
  {
    YearsAccumulate(1, d.year);
    MonthsFitInYear(d);
  }

  // Counting days and adding up years and months are inverse to each other.
  lemma CalendarRoundTrip(d: Date)
    requires ValidDate(d)
    ensures 0 <= DayNumber(d) && DateOf(DayNumber(d)) == d
  {
    DayNumberIsNat(d);
    var e := DateOf(DayNumber(d));
    DayNumberOfDateOf(DayNumber(d));
    if DateBefore(d, e) {
      DayNumberMonotone(d, e);
    } else if DateBefore(e, d) {
      DayNumberMonotone(e, d);
    }
  }

  lemma QuotientStep(y: int, m: int)
    requires m > 1
    ensures y / m - (y - 1) / m == if y % m == 0 then 1 else 0
  {
    var q, r := y / m, y % m;
    assert y == q * m + r;
    if r == 0 {
      assert y - 1 == (q - 1) * m + (m - 1);
      Arithmetic.QuotientUnique(y - 1, m, q - 1, m - 1);
    } else {
      Arithmetic.QuotientUnique(y - 1, m, q, r - 1);
    }
  }

  // The year count in closed form: 97 leap days every 400 years.
  lemma {:induction false} DaysBeforeYearClosedForm(year: int)
    requires 1 <= year
    ensures DaysBeforeYear(year) == 365 * (year - 1) + (year - 1) / 4 - (year - 1) / 100 + (year - 1) / 400
  {
    if year > 1 {
      var y := year - 1;
      DaysBeforeYearClosedForm(y);
      QuotientStep(y, 4);
      QuotientStep(y, 100);
      QuotientStep(y, 400);
      CenturyIsMultipleOfFour(y);
    }
  }

  lemma CenturyIsMultipleOfFour(y: int)
    ensures y % 400 == 0 ==> y % 100 == 0
    ensures y % 100 == 0 ==> y % 4 == 0
  {
    if y % 100 == 0 {
      Arithmetic.QuotientUnique(y, 4, y / 100 * 25, 0);
    }
    if y % 400 == 0 {
      Arithmetic.QuotientUnique(y, 100, y / 400 * 4, 0);
    }
  }
}
