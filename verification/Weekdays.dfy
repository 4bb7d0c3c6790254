// Dates and weekdays: which weekdays a date of the calendar falls on, and when.
module Weekdays {
  import opened Calendar
  import Arithmetic

  // The date exists in leap years at least.
  predicate OccursSomeYear(month: int, day: int) {
    1 <= month <= 12 && 1 <= day <= DaysInMonth(4, month)
  }

  // A year without a leap day, and one with, that starts r days into the week.
  function CommonYear(r: nat): int
    requires r < 7
  {
    if r == 0 then 1 else if r == 1 then 2 else if r == 2 then 3 else if r == 3 then 9
    else if r == 4 then 10 else if r == 5 then 5 else 6
  }

  function LeapYear(r: nat): int
    requires r < 7
  {
    if r == 0 then 24 else if r == 1 then 8 else if r == 2 then 20 else if r == 3 then 4
    else if r == 4 then 16 else if r == 5 then 28 else 12
  }

  lemma YearsByStart(r: nat)
    requires r < 7
    ensures !IsLeap(CommonYear(r)) && DaysBeforeYear(CommonYear(r)) % 7 == r
    ensures IsLeap(LeapYear(r)) && DaysBeforeYear(LeapYear(r)) % 7 == r
  {
    EarlyYear(CommonYear(r));
    EarlyYear(LeapYear(r));
  }

  lemma EarlyYear(y: int)
    requires 1 <= y <= 100
    ensures DaysBeforeYear(y) == 365 * (y - 1) + (y - 1) / 4
  {
    DaysBeforeYearClosedForm(y);
  }

  // The calendar repeats every 400 years, weekdays included.
  lemma NextCycle(y: int)
    requires 1 <= y
    ensures DaysBeforeYear(y + 400) == DaysBeforeYear(y) + 146097
    ensures IsLeap(y + 400) == IsLeap(y)
  {
    DaysBeforeYearClosedForm(y);
    DaysBeforeYearClosedForm(y + 400);
    Shifted(y - 1, 4, 100);
    Shifted(y - 1, 100, 4);
    Shifted(y - 1, 400, 1);
    Shifted(y, 4, 100);
    Shifted(y, 100, 4);
    Shifted(y, 400, 1);
  }

  lemma Shifted(x: int, m: int, k: int)
    requires m > 0 && k * m == 400
    ensures (x + 400) / m == x / m + k && (x + 400) % m == x % m
  {
    assert x + 400 == (x / m + k) * m + x % m;
    Arithmetic.QuotientUnique(x + 400, m, x / m + k, x % m);
  }

  lemma {:induction false} Cycles(y: int, k: nat)
    requires 1 <= y
    ensures DaysBeforeYear(y + 400 * k) == DaysBeforeYear(y) + 146097 * k
    ensures IsLeap(y + 400 * k) == IsLeap(y)
  {
    if k > 0 {
      Cycles(y, k - 1);
      NextCycle(y + 400 * (k - 1));
    }
  }

  lemma MonthOffset(y1: int, y2: int, month: int)
    requires 1 <= month <= 12 && IsLeap(y1) == IsLeap(y2)
    ensures DaysBeforeMonth(y1, month) == DaysBeforeMonth(y2, month)
  {
    MonthTable(y1);
    MonthTable(y2);
  }

  // The days of 400 years.
  const CYCLE := 146097

  // Every date that occurs at all falls on every weekday, again within two cycles
  // of any day.
  lemma DateMeetsWeekday(month: nat, day: nat, w: nat, from: nat) returns (n: nat)
    requires OccursSomeYear(month, day) && w <= 6
    ensures from < n <= from + 2 * CYCLE
    ensures DateOf(n).month == month && DateOf(n).day == day && WeekdayOf(n) == w
  {
    var leap := day > DaysInMonth(1, month);
    var base := if leap then 4 else 1;
    var offset := DaysBeforeMonth(base, month) + day - 1;
    var r: nat := (w - 1 - offset) % 7;
    var y := if leap then LeapYear(r) else CommonYear(r);
    var k := from / CYCLE + 1;
    YearsByStart(r);
    Cycles(y, k);
    MonthOffset(base, y + 400 * k, month);
    var d := Date(y + 400 * k, month, day);
    CalendarRoundTrip(d);
    n := DayNumber(d);
    OnWeekday(DaysBeforeYear(y), k, offset, r, w);
    EarlyYear(y);
    MonthsFitInYear(d);
  }

  lemma OnWeekday(start: int, k: nat, offset: int, r: nat, w: nat)
    requires start % 7 == r == (w - 1 - offset) % 7 && w <= 6
    ensures (start + CYCLE * k + offset + 1) % 7 == w
  {
    var q := start / 7;
    var p := (w - 1 - offset) / 7;
    assert start + CYCLE * k + offset + 1 == 7 * (q - p + 20871 * k) + w;
  }
}
