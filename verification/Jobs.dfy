// Scheduled and on-demand jobs: what one run does to the job record, and what
// holds when runs of a job interleave. The clock counts nanoseconds from Go's
// zero time; stored times are Unix seconds.
module Jobs {
  import opened Text
  import opened Calendar
  import opened Cron

  const SECOND := 1_000_000_000
  const UNIX_EPOCH := 62_135_596_800

  function UnixOf(t: nat): int {
    t / SECOND - UNIX_EPOCH
  }

  datatype Status = Registered | Queued | Running | Done | Failed | Stopped

  // plan is what parsing the schedule string gives; the string never changes.
  datatype Job = Job(name: string, schedule: string, plan: Option<Plan>, retries: int, status: Status,
                     runCount: nat, failCount: nat, lastRun: int, lastStatus: string, nextRun: int)

  predicate GoodPlan(plan: Option<Plan>) {
    plan.Some? && plan.value.Every? ==> plan.value.duration > 0
  }

  /******* Updates of the record *******/

  function MarkRunning(j: Job, now: nat): Job {
    j.(status := Running, lastRun := UnixOf(now))
  }

  function RecordSuccess(j: Job): Job {
    j.(status := Done, runCount := j.runCount + 1, lastStatus := "success")
  }

  function RecordFailure(j: Job): Job {
    j.(failCount := j.failCount + 1, lastStatus := "failed")
  }

  function GiveUp(j: Job): Job {
    j.(status := Failed)
  }

  // computeNext, as a Unix time; None is the zero time.
  function NextRunOf(plan: Option<Plan>, now: nat): Option<int>
    requires GoodPlan(plan)
  {
    match plan
    case None => None
    case Some(Every(d)) => Some(UnixOf(now + d))
    case Some(Fields5(s)) =>
      var m := NextMinute(s, now / SECOND);
      if m == 0 then None else Some(m * 60 - UNIX_EPOCH)
  }

  function Rescheduled(j: Job, now: nat): Job
    requires GoodPlan(j.plan)
  {
    match NextRunOf(j.plan, now)
    case None => j.(status := Stopped, nextRun := 0)
    case Some(next) => j.(status := Registered, nextRun := next)
  }

  predicate IsDue(j: Job, now: nat) {
    && j.schedule != ""
    && j.status != Running && j.status != Queued
    && j.nextRun > 0 && UnixOf(now) >= j.nextRun
  }

  // The retry loop from a given attempt on; the flag is "returned nil".
  function RunFrom(j: Job, succeeds: nat -> bool, attempt: nat): (Job, bool)
    decreases j.retries + 1 - attempt
  {
    if attempt > j.retries then (GiveUp(j), j.retries < 0)
    else if succeeds(attempt) then (RecordSuccess(j), true)
    else RunFrom(RecordFailure(j), succeeds, attempt + 1)
  }

  // A run ends at its first successful attempt, every earlier one counted as a
  // failure, or counts Retries+1 failures and leaves the job failed. With
  // Retries >= 0 it reports success exactly when some attempt succeeded.
  lemma {:induction false} RunOutcome(j: Job, succeeds: nat -> bool, attempt: nat)
    requires attempt <= j.retries + 1
    ensures var (j', ok) := RunFrom(j, succeeds, attempt);
            && j'.runCount + j'.failCount <= j.runCount + j.failCount + (j.retries + 1 - attempt)
            && (j'.runCount == j.runCount + 1 <==> exists k: nat :: attempt <= k <= j.retries && succeeds(k))
            && (j'.runCount == j.runCount || j'.runCount == j.runCount + 1)
            && (j'.runCount == j.runCount + 1 ==>
                  var k := attempt + (j'.failCount - j.failCount);
                  j.failCount <= j'.failCount && k <= j.retries && succeeds(k) &&
                  (forall i: nat :: attempt <= i < k ==> !succeeds(i)) && j'.status == Done && ok)
            && (j'.runCount == j.runCount ==>
                  j'.failCount == j.failCount + (j.retries + 1 - attempt) && j'.status == Failed && ok == (j.retries < 0))
            && (j'.failCount > j.failCount || j'.runCount > j.runCount ==>
                  j'.lastStatus == if j'.runCount > j.runCount then "success" else "failed")
            && j'.nextRun == j.nextRun && j'.plan == j.plan && j'.schedule == j.schedule
            && j'.name == j.name && j'.retries == j.retries && j'.lastRun == j.lastRun
    decreases j.retries + 1 - attempt
  {
    if attempt <= j.retries && !succeeds(attempt) {
      RunOutcome(RecordFailure(j), succeeds, attempt + 1);
      assert forall k: nat :: attempt <= k <= j.retries && succeeds(k) ==> attempt + 1 <= k;
    }
  }

  // Rescheduling moves NextRun strictly past the clock, or stops the job; the
  // first needs "@every" of at least a second, since stored times drop fractions.
  lemma RescheduleMovesForward(j: Job, now: nat)
    requires GoodPlan(j.plan)
    requires j.plan.Some? && j.plan.value.Every? ==> j.plan.value.duration >= SECOND
    ensures var j' := Rescheduled(j, now);
            (j'.nextRun > UnixOf(now) && j'.status == Registered) || (j'.nextRun == 0 && j'.status == Stopped)
  {
    match j.plan {
      case None =>
      case Some(Every(d)) =>
        assert (now + SECOND) / SECOND == now / SECOND + 1;
        assert now + d >= now + SECOND;
      case Some(Fields5(s)) => NextIsLeast(s, now / SECOND);
    }
  }

  /******* The manager *******/

  class Manager {
    var jobs: map<string, Job>

    constructor ()
      ensures jobs == map[]
    {
      jobs := map[];
    }

    // A name already taken leaves the stored job alone, yet no error is returned.
    method Submit(name: string, taskLoads: bool, taskName: string, schedule: string, retries: int,
                  duration: string -> Option<int>, now: nat)
      returns (r: Option<Job>)
      modifies this
      ensures r.Some? <==> taskLoads && (schedule == "" || PlanOf(schedule, duration).Some?)
      ensures r.None? ==> jobs == old(jobs)
      ensures r.Some? ==>
                && r.value.name == (if name == "" then taskName else name)
                && r.value.schedule == schedule && r.value.retries == retries
                && r.value.runCount == 0 && r.value.failCount == 0
                && r.value.status == (if schedule == "" then Queued else Registered)
                && (schedule == "" ==> r.value.plan == None && r.value.nextRun == 0)
                && (schedule != "" ==> r.value.plan == PlanOf(schedule, duration))
                && (schedule != "" ==> r.value.nextRun == FirstRun(r.value.plan.value, now))
      ensures r.Some? ==> jobs == if r.value.name in old(jobs) then old(jobs) else old(jobs)[r.value.name := r.value]
    {
      if !taskLoads {
        return None;
      }
      var job := Job(if name == "" then taskName else name, schedule, None, retries, Registered, 0, 0, 0, "", 0);
      if schedule == "" {
        job := job.(status := Queued);
      } else {
        var plan := ParseSchedule(schedule, duration);
        if plan.None? {
          return None;
        }
        job := job.(plan := plan, nextRun := FirstRun(plan.value, now));
      }
      if job.name !in jobs {
        jobs := jobs[job.name := job];
      }
      return Some(job);
    }

    // One run with nothing in between; the flag is "returned nil".
    method RunNow(name: string, taskLoads: bool, succeeds: nat -> bool, now: nat) returns (ok: bool)
      modifies this
      ensures name !in old(jobs) || !taskLoads ==> !ok && jobs == old(jobs)
      ensures name in old(jobs) && taskLoads ==>
                var started := old(jobs)[name].(status := Running, lastRun := now / 1_000_000_000 - 62_135_596_800);
                var (j, done) := RunFrom(started, succeeds, 0);
                ok == done && jobs == old(jobs)[name := j]
    {
      if name !in jobs || !taskLoads {
        return false;
      }
      jobs := jobs[name := MarkRunning(jobs[name], now)];
      ghost var start := jobs[name];
      var attempt := 0;
      while attempt <= jobs[name].retries
        invariant name in jobs && jobs == old(jobs)[name := jobs[name]]
        invariant jobs[name].retries == start.retries
        invariant attempt == 0 || attempt <= start.retries + 1
        invariant RunFrom(start, succeeds, 0) == RunFrom(jobs[name], succeeds, attempt)
        decreases start.retries + 1 - attempt
      {
        if succeeds(attempt) {
          jobs := jobs[name := RecordSuccess(jobs[name])];
          return true;
        }
        jobs := jobs[name := RecordFailure(jobs[name])];
        attempt := attempt + 1;
      }
      ok := jobs[name].retries < 0;
      jobs := jobs[name := GiveUp(jobs[name])];
    }

    method Due(now: nat) returns (due: set<string>)
      ensures due == set n | n in jobs && jobs[n].schedule != "" && jobs[n].status !in {Running, Queued}
                             && 0 < jobs[n].nextRun <= now / 1_000_000_000 - 62_135_596_800
    {
      due := {};
      var rest := jobs.Keys;
      while rest != {}
        invariant rest <= jobs.Keys
        invariant due == set n | n in jobs && n !in rest && IsDue(jobs[n], now)
        decreases rest
      {
        var n :| n in rest;
        rest := rest - {n};
        if IsDue(jobs[n], now) {
          due := due + {n};
        }
      }
    }

    method Reschedule(name: string, now: nat) returns (found: bool)
      requires name in jobs ==> GoodPlan(jobs[name].plan)
      modifies this
      ensures found <==> name in old(jobs)
      ensures jobs == if found then old(jobs)[name := Rescheduled(old(jobs)[name], now)] else old(jobs)
    {
      if name !in jobs {
        return false;
      }
      var next := NextRunOf(jobs[name].plan, now);
      if next.None? {
        jobs := jobs[name := jobs[name].(status := Stopped, nextRun := 0)];
      } else {
        jobs := jobs[name := jobs[name].(status := Registered, nextRun := next.value)];
      }
      return true;
    }
  }

  // The first run of a submitted job: at once for cron, after the period for "@every".
  function FirstRun(plan: Plan, now: nat): int {
    if plan.Every? && plan.duration > 0 then UnixOf(now + plan.duration) else UnixOf(now)
  }

  /******* Next runs, in dates and seconds *******/

  // Stored times count from 1 January 1970.
  lemma EpochIs1970(y: int)
    requires y == 1970
    ensures DayNumber(Date(y, 1, 1)) * 86400 == UNIX_EPOCH
  {
    DaysBeforeYearClosedForm(y);
    assert DaysBeforeMonth(y, 1) == 0;
  }

  // The stored second t is minute m.
  predicate AtMinute(t: int, m: nat) {
    t + 62_135_596_800 == 60 * m
  }

  // m is the first minute after second c at which the schedule matches.
  ghost predicate FirstMatch(s: Schedule, c: int, m: nat) {
    Match(s, m) && 60 * m > c && forall t: nat :: 60 * t > c && t < m ==> !Match(s, t)
  }

  // A rescheduled cron job runs next at the first matching minute after the
  // clock, and is stopped when there is none within 1825 days.
  lemma RescheduledCron(j: Job, s: Schedule, now: nat)
    requires j.plan == Some(Fields5(s))
    ensures var j', c := Rescheduled(j, now), now / 1_000_000_000;
            || (j'.status == Registered && exists m: nat :: FirstMatch(s, c, m) && AtMinute(j'.nextRun, m))
            || (j'.status == Stopped && j'.nextRun == 0
                && forall t: nat :: 60 * t > c && t <= c / 60 + 1825 * 1440 ==> !Match(s, t))
  {
    var c := now / SECOND;
    NextIsLeast(s, c);
    var m := NextMinute(s, c);
    forall t: nat
      ensures 60 * t > c <==> t > c / 60
    {
    }
    if m != 0 {
      assert FirstMatch(s, c, m) && AtMinute(Rescheduled(j, now).nextRun, m);
    }
  }

  // A rescheduled "@every d" job runs next d after the clock, in whole seconds;
  // one whose schedule cannot be read is stopped.
  lemma RescheduledEvery(j: Job, d: nat, now: nat)
    requires d > 0 && (j.plan == Some(Every(d)) || j.plan == None)
    ensures var j' := Rescheduled(j, now);
            if j.plan.Some? then j'.status == Registered && j'.nextRun == (now + d) / 1_000_000_000 - 62_135_596_800
            else j'.status == Stopped && j'.nextRun == 0
  {
  }

  // Rescheduling touches nothing else.
  lemma RescheduledKeeps(j: Job, now: nat)
    requires GoodPlan(j.plan)
    ensures Rescheduled(j, now) == j.(status := Rescheduled(j, now).status, nextRun := Rescheduled(j, now).nextRun)
  {
  }

  // A submitted job is due at once, or after the period of "@every".
  lemma FirstRunExactly(plan: Plan, now: nat)
    ensures FirstRun(plan, now) ==
              (if plan.Every? && plan.duration > 0 then now + plan.duration else now) / 1_000_000_000 - 62_135_596_800
  {
  }
}
