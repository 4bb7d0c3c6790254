// How the day rule of the matcher relates to the crontab utility's. POSIX.1-2017
// (crontab, INPUT FILES): when month or day of month is given as a list and day
// of week is too, a day matches if it fits the former two or the latter. The
// matcher always wants all three.
module CronPosix {
  import opened Calendar
  import opened Weekdays
  import opened Cron
  import opened CronCompleteness

  // Month and day of month together say something; so does the day of week.
  predicate BothRestricted(s: Schedule) {
    (!s.month.Any? || !s.dom.Any?) && !s.dow.Any?
  }

  predicate DateFits(s: Schedule, n: nat) {
    Contains(s.month, DateOf(n).month) && Contains(s.dom, DateOf(n).day)
  }

  predicate WeekdayFits(s: Schedule, n: nat) {
    Contains(s.dow, WeekdayOf(n))
  }

  predicate TimeFits(s: Schedule, t: nat) {
    Contains(s.minute, t % 60) && Contains(s.hour, t / 60 % 24)
  }

  predicate PosixMatch(s: Schedule, t: nat) {
    var n := t / 1440;
    TimeFits(s, t) &&
    if BothRestricted(s) then DateFits(s, n) || WeekdayFits(s, n) else DateFits(s, n) && WeekdayFits(s, n)
  }

  // Minute by minute: the rules differ exactly when both sides are restricted,
  // the time of day fits, and the day fits one of them alone.
  lemma DifferExactly(s: Schedule, t: nat)
    ensures (Match(s, t) <==> PosixMatch(s, t)) <==>
              !(BothRestricted(s) && TimeFits(s, t) && DateFits(s, t / 1440) != WeekdayFits(s, t / 1440))
  {
  }

  // The matcher never runs a job that the utility would not.
  lemma MatchImpliesPosix(s: Schedule, t: nat)
    requires Match(s, t)
    ensures PosixMatch(s, t)
  {
  }

  /******* Schedules *******/

  ghost predicate HasTimeOfDay(s: Schedule) {
    exists h: nat, mi: nat :: TimeAllowed(s, h, mi)
  }

  // Every date of the calendar is allowed, or none is; the same for weekdays.
  ghost predicate DatesAre(s: Schedule, allowed: bool) {
    forall month: nat, day: nat :: OccursSomeYear(month, day) ==> DateAllowed(s, month, day) == allowed
  }

  ghost predicate WeekdaysAre(s: Schedule, allowed: bool) {
    forall w: nat :: w <= 6 ==> Contains(s.dow, w) == allowed
  }

  // The rules agree on a schedule exactly when one side is "*", no time of day
  // is allowed, or dates and weekdays are all allowed or all excluded.
  ghost predicate RulesAgree(s: Schedule) {
    !BothRestricted(s) || !HasTimeOfDay(s) || exists allowed :: DatesAre(s, allowed) && WeekdaysAre(s, allowed)
  }

  lemma AgreeingRules(s: Schedule, t: nat)
    requires RulesAgree(s)
    ensures Match(s, t) <==> PosixMatch(s, t)
  {
    DifferExactly(s, t);
    var n := t / 1440;
    var d := DateOf(n);
    assert OccursSomeYear(d.month, d.day);
    assert TimeFits(s, t) ==> TimeAllowed(s, t / 60 % 24, t % 60);
    if exists allowed :: DatesAre(s, allowed) && WeekdaysAre(s, allowed) {
      var allowed :| DatesAre(s, allowed) && WeekdaysAre(s, allowed);
      assert DateFits(s, n) == DateAllowed(s, d.month, d.day) == allowed;
    }
  }

  // A date and a weekday of which the schedule allows just one.
  lemma OddPair(s: Schedule) returns (month: nat, day: nat, w: nat)
    requires !exists allowed :: DatesAre(s, allowed) && WeekdaysAre(s, allowed)
    ensures OccursSomeYear(month, day) && w <= 6 && DateAllowed(s, month, day) != Contains(s.dow, w)
  {
    month, day, w := 1, 1, 0;
    var allowed := Contains(s.dow, w);
    if !DatesAre(s, allowed) {
      month, day :| OccursSomeYear(month, day) && DateAllowed(s, month, day) != allowed;
    } else {
      w :| w <= 6 && Contains(s.dow, w) != allowed;
      assert OccursSomeYear(1, 1);
    }
  }

  // Where they do not agree, they differ again after every minute, within two
  // cycles of the calendar.
  lemma DisagreeingRules(s: Schedule, from: nat) returns (t: nat)
    requires !RulesAgree(s)
    ensures from < t <= from + (2 * CYCLE + 1) * 1440 && !(Match(s, t) <==> PosixMatch(s, t))
  {
    var h: nat, mi: nat :| TimeAllowed(s, h, mi);
    var month, day, w := OddPair(s);
    var n := DateMeetsWeekday(month, day, w, from / 1440);
    t := At(n, h, mi);
    AtParts(n, h, mi);
    DifferExactly(s, t);
  }

  lemma RulesAgreeExactly(s: Schedule)
    ensures (forall t: nat :: Match(s, t) <==> PosixMatch(s, t)) <==> RulesAgree(s)
  {
    if RulesAgree(s) {
      forall t: nat
        ensures Match(s, t) <==> PosixMatch(s, t)
      {
        AgreeingRules(s, t);
      }
    } else {
      var t := DisagreeingRules(s, 0);
    }
  }

  const FRIDAY_THE_13TH := Schedule(Values([0]), Values([0]), Values([13]), Any, Values([5]))

  // "0 0 13 * 5": the matcher wants Friday the 13th, the utility takes every
  // Friday and every 13th; they differ on Friday, 5 January, for one, again
  // within two cycles of any day.
  lemma FridayOrThirteenth(from: nat) returns (n: nat)
    ensures from < n <= from + 2 * CYCLE && DateOf(n).month == 1 && DateOf(n).day == 5 && WeekdayOf(n) == 5
    ensures PosixMatch(FRIDAY_THE_13TH, At(n, 0, 0)) && !Match(FRIDAY_THE_13TH, At(n, 0, 0))
  {
    n := DateMeetsWeekday(1, 5, 5, from);
    AtParts(n, 0, 0);
  }
}
