// Which schedules the bounded search finds a run for, and how soon.
module CronCompleteness {
  import opened Calendar
  import opened Weekdays
  import opened Cron
  import Arithmetic

  // The minute number of time h:mi on day number n.
  function At(n: nat, h: nat, mi: nat): nat {
    n * 1440 + h * 60 + mi
  }

  predicate TimeAllowed(s: Schedule, h: nat, mi: nat) {
    h <= 23 && mi <= 59 && Contains(s.hour, h) && Contains(s.minute, mi)
  }

  predicate DateAllowed(s: Schedule, month: nat, day: nat) {
    Contains(s.month, month) && Contains(s.dom, day)
  }

  lemma AtParts(n: nat, h: nat, mi: nat)
    requires h <= 23 && mi <= 59
    ensures At(n, h, mi) / 1440 == n && At(n, h, mi) / 60 % 24 == h && At(n, h, mi) % 60 == mi
  {
    Arithmetic.QuotientUnique(At(n, h, mi), 1440, n, h * 60 + mi);
    Arithmetic.QuotientUnique(At(n, h, mi), 60, n * 24 + h, mi);
    Arithmetic.QuotientUnique(n * 24 + h, 24, n, h);
  }

  lemma MatchAt(s: Schedule, d: Date, h: nat, mi: nat)
    requires ValidDate(d) && TimeAllowed(s, h, mi) && DateAllowed(s, d.month, d.day)
    requires DayNumber(d) >= 0 && Contains(s.dow, WeekdayOf(DayNumber(d)))
    ensures Match(s, At(DayNumber(d), h, mi))
  {
    CalendarRoundTrip(d);
    AtParts(DayNumber(d), h, mi);
  }

  lemma MinuteParts(t: nat)
    ensures t == At(t / 1440, t / 60 % 24, t % 60)
  {
    var q, h := t / 60 / 24, t / 60 % 24;
    assert t == (q * 24 + h) * 60 + t % 60;
    Arithmetic.QuotientUnique(t, 1440, q, h * 60 + t % 60);
  }

  // Any match inside the horizon bounds the search's answer.
  lemma FoundBy(s: Schedule, from: nat, t: nat)
    requires Match(s, t) && from / 60 < t <= from / 60 + HORIZON
    ensures 0 < NextMinute(s, from) <= t
  {
    NextIsLeast(s, from);
  }

  // The date of an instant lies in its year.
  lemma YearBounds(n: nat)
    ensures var y := DateOf(n).year;
            DaysBeforeYear(y) <= n < DaysBeforeYear(y) + DaysInYear(y)
  {
    DayNumberOfDateOf(n);
    MonthsFitInYear(DateOf(n));
  }

  /******* Dates that occur every year *******/

  predicate OccursEveryYear(month: int, day: int) {
    1 <= month <= 12 && 1 <= day <= DaysInMonth(1, month)
  }

  lemma SameDateNextYear(y: int, month: nat, day: nat)
    requires 1 <= y && OccursEveryYear(month, day)
    ensures ValidDate(Date(y, month, day)) && ValidDate(Date(y + 1, month, day))
    ensures DayNumber(Date(y + 1, month, day)) <= DayNumber(Date(y, month, day)) + 366
  {
    assert DaysBeforeYear(y + 1) == DaysBeforeYear(y) + DaysInYear(y);
    MonthTable(y);
    MonthTable(y + 1);
  }

  // The same date in this year and the next, relative to day n of this year.
  lemma ThisYearAndNext(n: nat, month: nat, day: nat)
    requires OccursEveryYear(month, day)
    ensures var y := DateOf(n).year;
            && ValidDate(Date(y, month, day)) && ValidDate(Date(y + 1, month, day))
            && 0 <= DayNumber(Date(y, month, day)) <= n + 365
            && n < DayNumber(Date(y + 1, month, day)) <= DayNumber(Date(y, month, day)) + 366
  {
    var y := DateOf(n).year;
    YearBounds(n);
    SameDateNextYear(y, month, day);
    DayNumberIsNat(Date(y, month, day));
    MonthsFitInYear(Date(y, month, day));
    MonthsFitInYear(Date(y + 1, month, day));
    assert DaysBeforeYear(y + 1) == DaysBeforeYear(y) + DaysInYear(y);
  }

  // With weekday "*", an allowed date that every year has is found within 366
  // days, at any allowed time of day.
  lemma YearlyDateFound(s: Schedule, from: nat, month: nat, day: nat, h: nat, mi: nat)
    requires s.dow.Any? && TimeAllowed(s, h, mi)
    requires DateAllowed(s, month, day) && OccursEveryYear(month, day)
    ensures 0 < NextMinute(s, from) <= from / 60 + 366 * 1440
  {
    var now := from / 60;
    var n := now / 1440;
    ThisYearAndNext(n, month, day);
    var d0, d1 := Date(DateOf(n).year, month, day), Date(DateOf(n).year + 1, month, day);
    MatchAt(s, d0, h, mi);
    MatchAt(s, d1, h, mi);
    if At(DayNumber(d0), h, mi) > now {
      FoundBy(s, from, At(DayNumber(d0), h, mi));
    } else {
      FoundBy(s, from, At(DayNumber(d1), h, mi));
    }
  }

  // With day and month "*", any allowed weekday is found within 7 days.
  lemma WeekdayFound(s: Schedule, from: nat, w: nat, h: nat, mi: nat)
    requires s.dom.Any? && s.month.Any? && TimeAllowed(s, h, mi)
    requires w <= 6 && Contains(s.dow, w)
    ensures 0 < NextMinute(s, from) <= from / 60 + 7 * 1440
  {
    var now := from / 60;
    var n := now / 1440;
    var k: nat := (w - WeekdayOf(n)) % 7;
    var first := if At(n + k, h, mi) > now then n + k else n + k + 7;
    assert WeekdayOf(first) == w;
    DayNumberOfDateOf(first);
    MatchAt(s, DateOf(first), h, mi);
    FoundBy(s, from, At(first, h, mi));
  }

  /******* Schedules that never run *******/

  ghost predicate CanFire(s: Schedule) {
    && (exists h: nat, mi: nat :: TimeAllowed(s, h, mi))
    && (exists month: nat, day: nat :: DateAllowed(s, month, day) && OccursSomeYear(month, day))
    && (exists w: nat :: w <= 6 && Contains(s.dow, w))
  }

  lemma MatchMeansCanFire(s: Schedule, t: nat)
    requires Match(s, t)
    ensures CanFire(s)
  {
    var d := DateOf(t / 1440);
    assert TimeAllowed(s, t / 60 % 24, t % 60);
    assert DateAllowed(s, d.month, d.day) && OccursSomeYear(d.month, d.day);
    assert Contains(s.dow, WeekdayOf(t / 1440));
  }

  // The search just before an allowed minute finds it.
  lemma FoundAt(s: Schedule, n: nat, h: nat, mi: nat)
    requires n > 0 && TimeAllowed(s, h, mi)
    requires DateAllowed(s, DateOf(n).month, DateOf(n).day) && Contains(s.dow, WeekdayOf(n))
    ensures NextMinute(s, (At(n, h, mi) - 1) * 60) != 0
  {
    AtParts(n, h, mi);
    Arithmetic.QuotientUnique((At(n, h, mi) - 1) * 60, 60, At(n, h, mi) - 1, 0);
    FoundBy(s, (At(n, h, mi) - 1) * 60, At(n, h, mi));
  }

  // A schedule never runs, wherever the search starts, exactly when no allowed
  // time of day, no allowed date (31 February, say) or no allowed weekday exists.
  lemma NeverFiresExactly(s: Schedule)
    ensures (forall from: nat :: NextMinute(s, from) == 0) <==> !CanFire(s)
  {
    if CanFire(s) {
      var h: nat, mi: nat :| TimeAllowed(s, h, mi);
      var month: nat, day: nat :| DateAllowed(s, month, day) && OccursSomeYear(month, day);
      var w: nat :| w <= 6 && Contains(s.dow, w);
      var n := DateMeetsWeekday(month, day, w, 0);
      FoundAt(s, n, h, mi);
    } else {
      forall from: nat
        ensures NextMinute(s, from) == 0
      {
        NextIsLeast(s, from);
        if NextMinute(s, from) != 0 {
          MatchMeansCanFire(s, NextMinute(s, from));
        }
      }
    }
  }

  /******* One date *******/

  // The schedule allows one date of the calendar; weekdays may be restricted.
  predicate OnlyDate(s: Schedule, month: nat, day: nat) {
    && OccursSomeYear(month, day)
    && Contains(s.month, month) && (forall m :: 1 <= m <= 12 && Contains(s.month, m) ==> m == month)
    && Contains(s.dom, day) && (forall d :: 1 <= d <= 31 && Contains(s.dom, d) ==> d == day)
  }

  // In year y the date exists and falls on an allowed weekday.
  predicate YearFits(s: Schedule, month: nat, day: nat, y: int) {
    && y >= 1 && ValidDate(Date(y, month, day))
    && DayNumber(Date(y, month, day)) >= 0 && Contains(s.dow, WeekdayOf(DayNumber(Date(y, month, day))))
  }

  ghost predicate SomeYearFits(s: Schedule, month: nat, day: nat) {
    OccursSomeYear(month, day) && exists w: nat :: w <= 6 && Contains(s.dow, w)
  }

  lemma LaterYearFits(s: Schedule, month: nat, day: nat, y: int)
    requires SomeYearFits(s, month, day) && y >= 1
    ensures exists z :: z >= y && YearFits(s, month, day, z)
  {
    var w: nat :| w <= 6 && Contains(s.dow, w);
    YearsAccumulate(1, y);
    var n := DateMeetsWeekday(month, day, w, DaysBeforeYear(y));
    var z := DateOf(n).year;
    YearBounds(n);
    DayNumberOfDateOf(n);
    if z < y {
      YearsAccumulate(z, y);
    }
    assert YearFits(s, month, day, z);
  }

  // The first fitting year from y on, given one.
  function FirstFit(s: Schedule, month: nat, day: nat, y: int, limit: int): (r: int)
    requires y <= limit && YearFits(s, month, day, limit)
    ensures y <= r <= limit && YearFits(s, month, day, r)
    ensures forall z :: y <= z < r ==> !YearFits(s, month, day, z)
    decreases limit - y
  {
    if YearFits(s, month, day, y) then y else FirstFit(s, month, day, y + 1, limit)
  }

  ghost function NextFit(s: Schedule, month: nat, day: nat, y: int): (r: int)
    requires SomeYearFits(s, month, day) && y >= 1
    ensures y <= r && YearFits(s, month, day, r)
    ensures forall z :: y <= z < r ==> !YearFits(s, month, day, z)
  {
    LaterYearFits(s, month, day, y);
    var limit :| limit >= y && YearFits(s, month, day, limit);
    FirstFit(s, month, day, y, limit)
  }

  function DateAt(month: nat, day: nat, y: int, h: nat, mi: nat): nat
    requires ValidDate(Date(y, month, day))
  {
    DayNumberIsNat(Date(y, month, day));
    At(DayNumber(Date(y, month, day)), h, mi)
  }

  // The year of the first fitting day whose h:mi lies after minute now.
  ghost function FitAfter(s: Schedule, month: nat, day: nat, now: nat, h: nat, mi: nat): (r: int)
    requires SomeYearFits(s, month, day)
    ensures YearFits(s, month, day, r)
  {
    var y := DateOf(now / 1440).year;
    if YearFits(s, month, day, y) && DateAt(month, day, y, h, mi) > now then y else NextFit(s, month, day, y + 1)
  }

  lemma DateAfterYear(month: nat, day: nat, now: nat, y: int, h: nat, mi: nat)
    requires h <= 23 && mi <= 59 && ValidDate(Date(y, month, day))
    ensures DateOf(now / 1440).year < y ==> DateAt(month, day, y, h, mi) > now
    ensures DateOf(now / 1440).year > y ==> DateAt(month, day, y, h, mi) < now
  {
    var n := now / 1440;
    YearBounds(n);
    MonthsFitInYear(Date(y, month, day));
    if DateOf(n).year < y {
      YearsAccumulate(DateOf(n).year, y);
    } else if y < DateOf(n).year {
      YearsAccumulate(y, DateOf(n).year);
    }
  }

  // It is later than now, and no later than any other such day.
  lemma FitAfterIsFirst(s: Schedule, month: nat, day: nat, now: nat, h: nat, mi: nat, y: int)
    requires h <= 23 && mi <= 59 && SomeYearFits(s, month, day) && YearFits(s, month, day, y)
    ensures var first := DateAt(month, day, FitAfter(s, month, day, now, h, mi), h, mi);
            now < first && (DateAt(month, day, y, h, mi) > now ==> first <= DateAt(month, day, y, h, mi))
  {
    var r := FitAfter(s, month, day, now, h, mi);
    DateAfterYear(month, day, now, y, h, mi);
    DateAfterYear(month, day, now, r, h, mi);
    if r < y {
      DayNumberMonotone(Date(r, month, day), Date(y, month, day));
    }
  }

  // The first such day at the allowed time h:mi after minute now is in reach.
  ghost predicate InReach(s: Schedule, month: nat, day: nat, now: nat, h: nat, mi: nat)
    requires SomeYearFits(s, month, day)
  {
    TimeAllowed(s, h, mi) && DateAt(month, day, FitAfter(s, month, day, now, h, mi), h, mi) <= now + HORIZON
  }

  lemma InReachSuffices(s: Schedule, month: nat, day: nat, from: nat, h: nat, mi: nat)
    requires OnlyDate(s, month, day) && SomeYearFits(s, month, day) && InReach(s, month, day, from / 60, h, mi)
    ensures NextMinute(s, from) != 0
  {
    var y := FitAfter(s, month, day, from / 60, h, mi);
    FitAfterIsFirst(s, month, day, from / 60, h, mi, y);
    MatchAt(s, Date(y, month, day), h, mi);
    FoundBy(s, from, At(DayNumber(Date(y, month, day)), h, mi));
  }

  lemma MatchIsOnDate(s: Schedule, month: nat, day: nat, r: nat)
    requires OnlyDate(s, month, day) && Match(s, r)
    ensures var y, h, mi := DateOf(r / 1440).year, r / 60 % 24, r % 60;
            && SomeYearFits(s, month, day) && YearFits(s, month, day, y) && TimeAllowed(s, h, mi)
            && r == DateAt(month, day, y, h, mi)
  {
    var d := DateOf(r / 1440);
    assert Contains(s.month, d.month) && Contains(s.dom, d.day);
    assert d == Date(d.year, month, day);
    DayNumberOfDateOf(r / 1440);
    MinuteParts(r);
    assert Contains(s.dow, WeekdayOf(r / 1440));
  }

  // A schedule for one date finds a run exactly when some year fits it and, for
  // some allowed time of day, the first coming fitting day lies within the horizon.
  lemma DateFoundExactly(s: Schedule, month: nat, day: nat, from: nat)
    requires OnlyDate(s, month, day)
    ensures NextMinute(s, from) != 0 <==>
              SomeYearFits(s, month, day) && exists h: nat, mi: nat :: InReach(s, month, day, from / 60, h, mi)
  {
    NextIsLeast(s, from);
    var r := NextMinute(s, from);
    if r != 0 {
      MatchIsOnDate(s, month, day, r);
      FitAfterIsFirst(s, month, day, from / 60, r / 60 % 24, r % 60, DateOf(r / 1440).year);
      assert InReach(s, month, day, from / 60, r / 60 % 24, r % 60);
    }
    if SomeYearFits(s, month, day) {
      forall h: nat, mi: nat | InReach(s, month, day, from / 60, h, mi)
        ensures r != 0
      {
        InReachSuffices(s, month, day, from, h, mi);
      }
    }
  }

  /******* New Year's Day on one weekday *******/

  // The schedule allows no weekday but w.
  predicate OnlyWeekday(s: Schedule, w: nat) {
    forall v: nat :: v <= 6 && Contains(s.dow, v) ==> v == w
  }

  lemma SixNewYears(y: int)
    requires 1 <= y && IsLeap(y + 1)
    ensures DaysBeforeYear(y + 1) == DaysBeforeYear(y) + 365 && DaysBeforeYear(y + 2) == DaysBeforeYear(y) + 731
    ensures DaysBeforeYear(y + 3) == DaysBeforeYear(y) + 1096 && DaysBeforeYear(y + 4) == DaysBeforeYear(y) + 1461
    ensures DaysBeforeYear(y + 5) == DaysBeforeYear(y) + 1826
  {
    assert !IsLeap(y) && !IsLeap(y + 2) && !IsLeap(y + 3) && !IsLeap(y + 4);
    assert DaysBeforeYear(y + 2) == DaysBeforeYear(y + 1) + 366;
    assert DaysBeforeYear(y + 3) == DaysBeforeYear(y + 2) + 365;
    assert DaysBeforeYear(y + 4) == DaysBeforeYear(y + 3) + 365;
    assert DaysBeforeYear(y + 5) == DaysBeforeYear(y + 4) + 365;
  }

  lemma JanuaryDay(y: int, d: int)
    requires 1 <= y && 1 <= d <= 31
    ensures DayNumber(Date(y, 1, d)) == DaysBeforeYear(y) + d - 1 >= 0
  {
    YearsAccumulate(1, y);
    assert DaysBeforeMonth(y, 1) == 0;
  }

  // When the year after starts a leap year, New Year's Day does not return to its
  // weekday within five years, and the search gives up.
  lemma NewYearMissed(s: Schedule, y: int, w: nat)
    requires OnlyDate(s, 1, 1) && OnlyWeekday(s, w) && 1 <= y && IsLeap(y + 1)
    requires DayNumber(Date(y, 1, 1)) >= 0 && WeekdayOf(DayNumber(Date(y, 1, 1))) == w
    ensures DayNumber(Date(y, 1, 2)) >= 0 && NextMinute(s, DayNumber(Date(y, 1, 2)) * 86400) == 0
  {
    JanuaryDay(y, 1);
    JanuaryDay(y, 2);
    var n := DayNumber(Date(y, 1, 2));
    Arithmetic.QuotientUnique(n * 86400, 60, n * 1440, 0);
    NextIsLeast(s, n * 86400);
    var r := NextMinute(s, n * 86400);
    if r != 0 {
      MatchIsOnDate(s, 1, 1, r);
      var z := DateOf(r / 1440).year;
      JanuaryDay(z, 1);
      AtParts(DayNumber(Date(z, 1, 1)), r / 60 % 24, r % 60);
      LaterNewYear(y, n - 1, z, r / 1440);
    }
  }

  // A later New Year's Day within five years is on another weekday.
  lemma LaterNewYear(y: int, start: nat, z: int, later: nat)
    requires 1 <= y && IsLeap(y + 1) && start == DaysBeforeYear(y) && z >= 1
    requires DaysBeforeYear(z) == later && start < later <= start + 1826
    ensures WeekdayOf(later) != WeekdayOf(start)
  {
    WhichNewYear(y, start, z, later);
    OtherWeekday(start, later - start);
  }

  lemma WhichNewYear(y: int, start: nat, z: int, later: nat)
    requires 1 <= y && IsLeap(y + 1) && start == DaysBeforeYear(y) && z >= 1
    requires DaysBeforeYear(z) == later && start < later <= start + 1826
    ensures later - start in {365, 731, 1096, 1461, 1826}
  {
    SixNewYears(y);
    if z <= y {
      YearsAccumulate(z, y);
    } else if z >= y + 5 {
      YearsAccumulate(y + 5, z);
    }
  }

  lemma OtherWeekday(start: nat, k: int)
    requires k in {365, 731, 1096, 1461, 1826}
    ensures WeekdayOf(start + k) != WeekdayOf(start)
  {
  }

  // Midnight on 1 January when it is a Monday.
  const NEW_YEAR_MONDAY := Schedule(Values([0]), Values([0]), Values([1]), Values([1]), Values([1]))

  // "0 0 1 1 1": from 2 January 2035 the next such Monday is eleven years off.
  lemma NewYearMondayMissed(y: int)
    requires y == 2035
    ensures DayNumber(Date(y, 1, 2)) >= 0 && NextMinute(NEW_YEAR_MONDAY, DayNumber(Date(y, 1, 2)) * 86400) == 0
  {
    MondayIn2035(y);
    NewYearMissed(NEW_YEAR_MONDAY, y, 1);
  }

  lemma MondayIn2035(y: int)
    requires y == 2035
    ensures IsLeap(y + 1) && DayNumber(Date(y, 1, 1)) >= 0 && WeekdayOf(DayNumber(Date(y, 1, 1))) == 1
  {
    DaysBeforeYearClosedForm(y);
    JanuaryDay(y, 1);
  }

  /******* 29 February *******/

  // The schedule allows exactly 29 February, on any weekday.
  predicate LeapDayOnly(s: Schedule) {
    s.dow.Any? && OnlyDate(s, 2, 29)
  }

  lemma LeapYearsFit(s: Schedule, y: int)
    requires LeapDayOnly(s) && y >= 1
    ensures SomeYearFits(s, 2, 29) && (YearFits(s, 2, 29, y) <==> IsLeap(y))
  {
    assert Contains(s.dow, 0);
    if IsLeap(y) {
      DayNumberIsNat(Date(y, 2, 29));
    }
  }

  // The minute of h:mi on the first leap day for which it lies after now.
  ghost function LeapDayAfter(s: Schedule, now: nat, h: nat, mi: nat): nat
    requires LeapDayOnly(s)
  {
    LeapYearsFit(s, 1);
    DateAt(2, 29, FitAfter(s, 2, 29, now, h, mi), h, mi)
  }

  // A 29 February schedule finds a run exactly when, for some allowed time of
  // day, the first coming leap day lies within the horizon.
  lemma LeapDayFoundExactly(s: Schedule, from: nat)
    requires LeapDayOnly(s)
    ensures NextMinute(s, from) != 0 <==>
              exists h: nat, mi: nat :: TimeAllowed(s, h, mi) && LeapDayAfter(s, from / 60, h, mi) <= from / 60 + HORIZON
  {
    LeapYearsFit(s, 1);
    DateFoundExactly(s, 2, 29, from);
    if h: nat, mi: nat :| InReach(s, 2, 29, from / 60, h, mi) {
      assert LeapDayAfter(s, from / 60, h, mi) <= from / 60 + HORIZON;
    }
    if h: nat, mi: nat :| TimeAllowed(s, h, mi) && LeapDayAfter(s, from / 60, h, mi) <= from / 60 + HORIZON {
      assert InReach(s, 2, 29, from / 60, h, mi);
    }
  }

  // With no leap year in between, the next leap day is that of year r.
  lemma NextLeapDay(s: Schedule, now: nat, r: int, h: nat, mi: nat)
    requires LeapDayOnly(s) && h <= 23 && mi <= 59
    requires DateOf(now / 1440).year <= r && IsLeap(r) && DateAt(2, 29, r, h, mi) > now
    requires forall z :: DateOf(now / 1440).year < z < r ==> !IsLeap(z)
    requires DateOf(now / 1440).year < r && IsLeap(DateOf(now / 1440).year) ==>
               DateAt(2, 29, DateOf(now / 1440).year, h, mi) <= now
    ensures LeapDayAfter(s, now, h, mi) == DateAt(2, 29, r, h, mi)
  {
    var y := DateOf(now / 1440).year;
    LeapYearsFit(s, y);
    LeapYearsFit(s, r);
    var f := FitAfter(s, 2, 29, now, h, mi);
    LeapYearsFit(s, f);
    DateAfterYear(2, 29, now, f, h, mi);
    FitAfterIsFirst(s, 2, 29, now, h, mi, r);
    if r < f {
      DayNumberMonotone(Date(r, 2, 29), Date(f, 2, 29));
    }
  }

  // The search fails only across a century year that is not a leap year: with
  // none in the four years after from, a leap day is near enough.
  lemma LeapDayFoundAwayFromCenturies(s: Schedule, from: nat, h: nat, mi: nat)
    requires LeapDayOnly(s) && TimeAllowed(s, h, mi)
    requires var y := DateOf(from / 60 / 1440).year;
             forall c :: y < c <= y + 4 && c % 100 == 0 ==> c % 400 == 0
    ensures NextMinute(s, from) != 0
  {
    var now := from / 60;
    var n := now / 1440;
    var y := DateOf(n).year;
    var k := LeapYearWithinFour(y);
    LeapYearsFit(s, k);
    DateAfterYear(2, 29, now, k, h, mi);
    FitAfterIsFirst(s, 2, 29, now, h, mi, k);
    LeapDayIsNear(n, k);
    LeapDayFoundExactly(s, from);
  }

  lemma LeapYearWithinFour(y: int) returns (k: int)
    requires forall c :: y < c <= y + 4 && c % 100 == 0 ==> c % 400 == 0
    ensures y < k <= y + 4 && IsLeap(k)
  {
    k := y + 4 - y % 4;
    assert k % 4 == 0 && y < k <= y + 4;
  }

  lemma LeapDayIsNear(n: nat, r: int)
    requires DateOf(n).year <= r <= DateOf(n).year + 4 && IsLeap(r)
    ensures DayNumber(Date(r, 2, 29)) <= n + 4 * 366 + 59
  {
    YearBounds(n);
    YearsAccumulate(DateOf(n).year, r);
    MonthTable(r);
  }

  // From 1 March of a leap year just before a century without a leap day, the
  // next 29 February is nearly eight years off and the search gives up.
  lemma LeapDayMissed(s: Schedule, y: int)
    requires LeapDayOnly(s) && 1 <= y && IsLeap(y) && (y + 4) % 100 == 0 && !IsLeap(y + 4)
    ensures var d := Date(y, 3, 1);
            ValidDate(d) && DayNumber(d) >= 0 && NextMinute(s, DayNumber(d) * 86400) == 0
  {
    CalendarRoundTrip(Date(y, 3, 1));
    AfterLastLeapDay(s, y, DayNumber(Date(y, 3, 1)));
  }

  lemma AfterLastLeapDay(s: Schedule, y: int, n: nat)
    requires LeapDayOnly(s) && 1 <= y && IsLeap(y) && (y + 4) % 100 == 0 && !IsLeap(y + 4)
    requires n == DayNumber(Date(y, 3, 1)) && DateOf(n).year == y
    ensures NextMinute(s, n * 86400) == 0
  {
    Arithmetic.QuotientUnique(n * 86400, 60, n * 1440, 0);
    forall h: nat, mi: nat | TimeAllowed(s, h, mi)
      ensures LeapDayAfter(s, n * 1440, h, mi) > n * 1440 + HORIZON
    {
      LeapDayEightYearsOff(s, y, n, h, mi);
    }
    LeapDayFoundExactly(s, n * 86400);
  }

  lemma LeapDayEightYearsOff(s: Schedule, y: int, n: nat, h: nat, mi: nat)
    requires LeapDayOnly(s) && 1 <= y && IsLeap(y) && (y + 4) % 100 == 0 && !IsLeap(y + 4)
    requires n == DayNumber(Date(y, 3, 1)) && DateOf(n).year == y && h <= 23 && mi <= 59
    ensures LeapDayAfter(s, n * 1440, h, mi) > n * 1440 + HORIZON
  {
    EightYearGap(y, n, h, mi);
    Arithmetic.QuotientUnique(n * 1440, 1440, n, 0);
    NextLeapDay(s, n * 1440, y + 8, h, mi);
  }

  lemma EightYearGap(y: int, n: nat, h: nat, mi: nat)
    requires 1 <= y && IsLeap(y) && (y + 4) % 100 == 0 && !IsLeap(y + 4)
    requires n == DayNumber(Date(y, 3, 1)) && h <= 23 && mi <= 59
    ensures IsLeap(y + 8) && forall z :: y < z < y + 8 ==> !IsLeap(z)
    ensures DateAt(2, 29, y, h, mi) <= n * 1440 < n * 1440 + HORIZON < DateAt(2, 29, y + 8, h, mi)
  {
    EightYears(y);
    CommonYears(y);
    forall z | y < z < y + 8
      ensures !IsLeap(z)
    {
      assert z == y + 4 || z - y < 4 || z - y > 4;
    }
  }

  lemma EightYears(y: int)
    requires 1 <= y && IsLeap(y) && (y + 4) % 100 == 0 && !IsLeap(y + 4)
    ensures IsLeap(y + 8)
    ensures DayNumber(Date(y, 2, 29)) == DayNumber(Date(y, 3, 1)) - 1
    ensures DayNumber(Date(y + 8, 2, 29)) == DayNumber(Date(y, 3, 1)) + 8 * 365
  {
    MonthTable(y);
    MonthTable(y + 8);
    DaysOfEightYears(y);
  }

  lemma CommonYears(y: int)
    requires IsLeap(y) && !IsLeap(y + 4)
    ensures !IsLeap(y + 1) && !IsLeap(y + 2) && !IsLeap(y + 3)
    ensures !IsLeap(y + 5) && !IsLeap(y + 6) && !IsLeap(y + 7)
  {
  }

  lemma DaysOfEightYears(y: int)
    requires 1 <= y && IsLeap(y) && !IsLeap(y + 4)
    ensures DaysBeforeYear(y + 8) == DaysBeforeYear(y) + 366 + 7 * 365
  {
    CommonYears(y);
    assert DaysBeforeYear(y + 1) == DaysBeforeYear(y) + 366;
    assert DaysBeforeYear(y + 4) == DaysBeforeYear(y + 3) + 365 == DaysBeforeYear(y + 2) + 730 == DaysBeforeYear(y + 1) + 1095;
    assert DaysBeforeYear(y + 8) == DaysBeforeYear(y + 7) + 365 == DaysBeforeYear(y + 6) + 730 == DaysBeforeYear(y + 5) + 1095;
  }

  /******* The edge of the horizon *******/

  // In the year before a century y without a leap day, nothing is found from the
  // minute before 1 March, and 29 February of year y + 4 from that midnight on.
  lemma HorizonEdge(s: Schedule, y: int) returns (n: nat)
    requires LeapDayOnly(s) && TimeAllowed(s, 0, 0) && 2 <= y && y % 100 == 0 && !IsLeap(y)
    ensures n >= 1 && n == DayNumber(Date(y - 1, 3, 1)) && DateOf(n).year == y - 1
    ensures NextMinute(s, (n * 1440 - 1) * 60) == 0 && NextMinute(s, n * 1440 * 60) == n * 1440 + HORIZON
  {
    n := EndOfFebruary(y);
    OutOfReachBefore(s, y, n);
    InReachAfter(s, y, n);
  }

  lemma EndOfFebruary(y: int) returns (n: nat)
    requires 2 <= y && y % 100 == 0 && !IsLeap(y)
    ensures n >= 1 && n == DayNumber(Date(y - 1, 3, 1))
    ensures DateOf(n).year == y - 1 && DateOf(n - 1).year == y - 1
  {
    MonthTable(y - 1);
    FiveCommonYears(y);
    DayNumberIsNat(Date(y - 1, 2, 28));
    n := DayNumber(Date(y - 1, 2, 28)) + 1;
    assert DayNumber(Date(y - 1, 3, 1)) == n;
    CalendarRoundTrip(Date(y - 1, 3, 1));
    CalendarRoundTrip(Date(y - 1, 2, 28));
  }

  lemma FiveCommonYears(y: int)
    requires y % 100 == 0 && !IsLeap(y)
    ensures IsLeap(y + 4) && forall z :: y - 1 <= z < y + 4 ==> !IsLeap(z)
  {
    CenturyIsMultipleOfFour(y);
    assert (y + 4) % 4 == 0 && (y + 4) % 100 == 4;
    forall z | y - 1 <= z < y + 4
      ensures !IsLeap(z)
    {
      assert z == y || z % 4 == if z < y then 3 else z - y;
    }
  }

  lemma FiveYears(y: int)
    requires 2 <= y && y % 100 == 0 && !IsLeap(y)
    ensures IsLeap(y + 4) && forall z :: y - 1 <= z < y + 4 ==> !IsLeap(z)
    ensures DayNumber(Date(y + 4, 2, 29)) == DayNumber(Date(y - 1, 3, 1)) + 5 * 365
  {
    FiveCommonYears(y);
    MonthTable(y - 1);
    MonthTable(y + 4);
    FiveYearsOfDays(y - 1);
  }

  lemma FiveYearsOfDays(a: int)
    requires 1 <= a && forall z :: a <= z < a + 5 ==> !IsLeap(z)
    ensures DaysBeforeYear(a + 5) == DaysBeforeYear(a) + 5 * 365
  {
    assert DaysBeforeYear(a + 1) == DaysBeforeYear(a) + 365;
    assert DaysBeforeYear(a + 2) == DaysBeforeYear(a + 1) + 365;
    assert DaysBeforeYear(a + 3) == DaysBeforeYear(a + 2) + 365;
    assert DaysBeforeYear(a + 4) == DaysBeforeYear(a + 3) + 365;
  }

  lemma OutOfReachBefore(s: Schedule, y: int, n: nat)
    requires LeapDayOnly(s) && 2 <= y && y % 100 == 0 && !IsLeap(y)
    requires n >= 1 && n == DayNumber(Date(y - 1, 3, 1)) && DateOf(n - 1).year == y - 1
    ensures NextMinute(s, (n * 1440 - 1) * 60) == 0
  {
    var m := n * 1440 - 1;
    FiveYears(y);
    Arithmetic.QuotientUnique(m * 60, 60, m, 0);
    Arithmetic.QuotientUnique(m, 1440, n - 1, 1439);
    forall h: nat, mi: nat | TimeAllowed(s, h, mi)
      ensures LeapDayAfter(s, m, h, mi) > m + HORIZON
    {
      NextLeapDay(s, m, y + 4, h, mi);
    }
    LeapDayFoundExactly(s, m * 60);
  }

  lemma InReachAfter(s: Schedule, y: int, n: nat)
    requires LeapDayOnly(s) && TimeAllowed(s, 0, 0) && 2 <= y && y % 100 == 0 && !IsLeap(y)
    requires n == DayNumber(Date(y - 1, 3, 1)) && DateOf(n).year == y - 1
    ensures NextMinute(s, n * 1440 * 60) == n * 1440 + HORIZON
  {
    var m := n * 1440;
    Arithmetic.QuotientUnique(m * 60, 60, m, 0);
    Arithmetic.QuotientUnique(m, 1440, n, 0);
    FiveCommonYears(y);
    FirstAtEdge(s, y, n);
    LeapDayFoundExactly(s, m * 60);
    NextIsLeast(s, m * 60);
    NothingEarlier(s, m, NextMinute(s, m * 60));
  }

  lemma FirstAtEdge(s: Schedule, y: int, n: nat)
    requires LeapDayOnly(s) && 2 <= y && y % 100 == 0 && !IsLeap(y)
    requires n == DayNumber(Date(y - 1, 3, 1)) && DateOf(n).year == y - 1
    ensures LeapDayAfter(s, n * 1440, 0, 0) == n * 1440 + HORIZON
  {
    FiveYears(y);
    Arithmetic.QuotientUnique(n * 1440, 1440, n, 0);
    NextLeapDay(s, n * 1440, y + 4, 0, 0);
  }

  // From a year without one, a match is no earlier than midnight on the first
  // leap day.
  lemma NothingEarlier(s: Schedule, m: nat, r: nat)
    requires LeapDayOnly(s) && Match(s, r) && r > m && !IsLeap(DateOf(m / 1440).year)
    ensures r >= LeapDayAfter(s, m, 0, 0)
  {
    MatchIsOnDate(s, 2, 29, r);
    var y := DateOf(r / 1440).year;
    LeapYearsFit(s, y);
    DateAfterYear(2, 29, m, y, r / 60 % 24, r % 60);
    DateAfterYear(2, 29, m, y, 0, 0);
    FitAfterIsFirst(s, 2, 29, m, 0, 0, y);
  }
}
