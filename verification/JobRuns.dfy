// Runs of one job that interleave: the scheduler's ticker, requests and the
// command line start them, and each proceeds by atomic updates of the record.
module JobRuns {
  import opened Text
  import opened Calendar
  import opened Cron
  import opened CronCompleteness
  import opened Jobs
  import Arithmetic

  datatype Pc =
    | Starting
    | Trying(attempt: nat)
    | Exhausted
    | Returned(ok: bool)
    | Finished(ok: bool)

  datatype Run = Run(scheduled: bool, pc: Pc)

  datatype System = System(job: Job, clock: nat, runs: seq<Run>)

  datatype Event =
    | Advance(ns: nat)
    | StartScheduled          // the ticker finds the job due
    | StartRequested          // refused while the record says "running"
    | StartDirect             // on submission, or from the command line
    | LoadFails(id: nat)
    | Begin(id: nat)
    | Succeed(id: nat)
    | Fail(id: nat)
    | Exhaust(id: nat)
    | Reschedule(id: nat)     // only scheduled runs do this

  predicate Enabled(s: System, e: Event) {
    match e
    case Advance(_) => true
    case StartScheduled => IsDue(s.job, s.clock)
    case StartRequested => s.job.status != Running
    case StartDirect => true
    case LoadFails(i) => i < |s.runs| && s.runs[i].pc.Starting?
    case Begin(i) => i < |s.runs| && s.runs[i].pc.Starting?
    case Succeed(i) => i < |s.runs| && s.runs[i].pc.Trying?
    case Fail(i) => i < |s.runs| && s.runs[i].pc.Trying?
    case Exhaust(i) => i < |s.runs| && s.runs[i].pc.Exhausted?
    case Reschedule(i) => i < |s.runs| && s.runs[i].scheduled && s.runs[i].pc.Returned?
  }

  function Goto(s: System, i: nat, pc: Pc): System
    requires i < |s.runs|
  {
    s.(runs := s.runs[i := s.runs[i].(pc := pc)])
  }

  function Attempt(retries: int, n: nat): Pc {
    if n <= retries then Trying(n) else Exhausted
  }

  function Apply(s: System, e: Event): System
    requires GoodPlan(s.job.plan) && Enabled(s, e)
  {
    match e
    case Advance(ns) => s.(clock := s.clock + ns)
    case StartScheduled => s.(runs := s.runs + [Run(true, Starting)])
    case StartRequested => s.(runs := s.runs + [Run(false, Starting)])
    case StartDirect => s.(runs := s.runs + [Run(false, Starting)])
    case LoadFails(i) => Goto(s, i, Returned(false))
    case Begin(i) => Goto(s, i, Attempt(s.job.retries, 0)).(job := MarkRunning(s.job, s.clock))
    case Succeed(i) => Goto(s, i, Returned(true)).(job := RecordSuccess(s.job))
    case Fail(i) => Goto(s, i, Attempt(s.job.retries, s.runs[i].pc.attempt + 1)).(job := RecordFailure(s.job))
    case Exhaust(i) => Goto(s, i, Returned(s.job.retries < 0)).(job := GiveUp(s.job))
    case Reschedule(i) => Goto(s, i, Finished(s.runs[i].pc.ok)).(job := Rescheduled(s.job, s.clock))
  }

  // The last event of a history is its latest.
  ghost predicate Playable(s: System, es: seq<Event>)
    requires GoodPlan(s.job.plan)
    decreases |es|, 0
  {
    es == [] ||
    (Playable(s, es[..|es| - 1]) && Enabled(Play(s, es[..|es| - 1]), es[|es| - 1]))
  }

  ghost function Play(s: System, es: seq<Event>): (s': System)
    requires GoodPlan(s.job.plan) && Playable(s, es)
    ensures s'.job.plan == s.job.plan && s'.job.retries == s.job.retries && s'.job.schedule == s.job.schedule
    ensures s.clock <= s'.clock && |s.runs| <= |s'.runs|
    decreases |es|, 1
  {
    if es == [] then s else Apply(Play(s, es[..|es| - 1]), es[|es| - 1])
  }

  /******* Attempts are accounted for *******/

  function Successes(es: seq<Event>): nat {
    if es == [] then 0 else Successes(es[..|es| - 1]) + (if es[|es| - 1].Succeed? then 1 else 0)
  }

  function Failures(es: seq<Event>): nat {
    if es == [] then 0 else Failures(es[..|es| - 1]) + (if es[|es| - 1].Fail? then 1 else 0)
  }

  predicate AttemptBy(e: Event, i: nat) {
    (e.Succeed? || e.Fail?) && e.id == i
  }

  // Finished attempts of run i.
  function AttemptsOf(es: seq<Event>, i: nat): nat {
    if es == [] then 0 else AttemptsOf(es[..|es| - 1], i) + (if AttemptBy(es[|es| - 1], i) then 1 else 0)
  }

  function Limit(retries: int): nat {
    if retries < 0 then 0 else retries + 1
  }

  // What run i has done so far, as its program counter tells it.
  ghost predicate RunAgrees(s: System, es: seq<Event>, i: nat)
    requires i < |s.runs|
  {
    match s.runs[i].pc
    case Starting => AttemptsOf(es, i) == 0 && Succeed(i) !in es && Begin(i) !in es
    case Trying(n) => AttemptsOf(es, i) == n <= s.job.retries && Succeed(i) !in es && Begin(i) in es
    case Exhausted => AttemptsOf(es, i) == Limit(s.job.retries) && Succeed(i) !in es && Begin(i) in es
    case Returned(ok) => AttemptsOf(es, i) <= Limit(s.job.retries) && (ok <==> Succeed(i) in es || Vacuous(s, es, i))
    case Finished(ok) => AttemptsOf(es, i) <= Limit(s.job.retries) && (ok <==> Succeed(i) in es || Vacuous(s, es, i))
  }

  // With a negative retry count a run makes no attempt and still reports success.
  ghost predicate Vacuous(s: System, es: seq<Event>, i: nat) {
    s.job.retries < 0 && Begin(i) in es
  }

  lemma EarlierEvents(es: seq<Event>, e: Event)
    requires es != []
    ensures e in es <==> e in es[..|es| - 1] || e == es[|es| - 1]
  {
    assert es == es[..|es| - 1] + [es[|es| - 1]];
  }

  lemma {:induction false} NoRunNoAttempts(s: System, es: seq<Event>, i: nat)
    requires GoodPlan(s.job.plan) && s.runs == [] && Playable(s, es) && i >= |Play(s, es).runs|
    ensures AttemptsOf(es, i) == 0 && Succeed(i) !in es && Begin(i) !in es
  {
    if es != [] {
      NoRunNoAttempts(s, es[..|es| - 1], i);
      EarlierEvents(es, Succeed(i));
      EarlierEvents(es, Begin(i));
    }
  }

  lemma {:induction false} RunsAgree(s: System, es: seq<Event>, i: nat)
    requires GoodPlan(s.job.plan) && s.runs == [] && Playable(s, es) && i < |Play(s, es).runs|
    ensures RunAgrees(Play(s, es), es, i)
  {
    if es != [] {
      var before, e := es[..|es| - 1], es[|es| - 1];
      EarlierEvents(es, Succeed(i));
      EarlierEvents(es, Begin(i));
      if i < |Play(s, before).runs| {
        RunsAgree(s, before, i);
      } else {
        NoRunNoAttempts(s, before, i);
      }
    }
  }

  // The counters grow by exactly the finished attempts, whatever the interleaving.
  lemma {:induction false} CountersCountAttempts(s: System, es: seq<Event>)
    requires GoodPlan(s.job.plan) && Playable(s, es)
    ensures Play(s, es).job.runCount == s.job.runCount + Successes(es)
    ensures Play(s, es).job.failCount == s.job.failCount + Failures(es)
  {
    if es != [] {
      CountersCountAttempts(s, es[..|es| - 1]);
    }
  }

  function AttemptsBelow(es: seq<Event>, n: nat): nat {
    if n == 0 then 0 else AttemptsBelow(es, n - 1) + AttemptsOf(es, n - 1)
  }

  lemma {:induction false} OneMoreAttempt(es: seq<Event>, n: nat)
    requires es != []
    ensures var e := es[|es| - 1];
            AttemptsBelow(es, n) == AttemptsBelow(es[..|es| - 1], n) + (if (e.Succeed? || e.Fail?) && e.id < n then 1 else 0)
  {
    if n > 0 {
      OneMoreAttempt(es, n - 1);
    }
  }

  lemma {:induction false} NoAttemptsBelow(n: nat)
    ensures AttemptsBelow([], n) == 0
  {
    if n > 0 {
      NoAttemptsBelow(n - 1);
    }
  }

  lemma {:induction false} AttemptsBelowGrows(s: System, es: seq<Event>, n: nat)
    requires GoodPlan(s.job.plan) && s.runs == [] && Playable(s, es) && |Play(s, es).runs| <= n
    ensures AttemptsBelow(es, n) == Successes(es) + Failures(es)
  {
    if es == [] {
      NoAttemptsBelow(n);
    } else {
      AttemptsBelowGrows(s, es[..|es| - 1], n);
      OneMoreAttempt(es, n);
    }
  }

  // Summed over the runs, the attempts are what the two counters gained, and no
  // run makes more than Retries+1 of them.
  lemma AttemptsAccountedFor(s: System, es: seq<Event>)
    requires GoodPlan(s.job.plan) && s.runs == [] && Playable(s, es)
    ensures var s' := Play(s, es);
            && (s'.job.runCount + s'.job.failCount) - (s.job.runCount + s.job.failCount) == AttemptsBelow(es, |s'.runs|)
            && forall i: nat :: i < |s'.runs| ==> AttemptsOf(es, i) <= Limit(s.job.retries)
  {
    CountersCountAttempts(s, es);
    AttemptsBelowGrows(s, es, |Play(s, es).runs|);
    forall i: nat | i < |Play(s, es).runs|
      ensures AttemptsOf(es, i) <= Limit(s.job.retries)
    {
      RunsAgree(s, es, i);
    }
  }

  // With Retries >= 0 a run returns nil exactly when one of its attempts succeeded.
  lemma NilMeansSuccess(s: System, es: seq<Event>, i: nat)
    requires GoodPlan(s.job.plan) && s.runs == [] && Playable(s, es) && i < |Play(s, es).runs|
    requires s.job.retries >= 0
    ensures var pc := Play(s, es).runs[i].pc;
            pc.Returned? || pc.Finished? ==> (pc.ok <==> Succeed(i) in es)
  {
    RunsAgree(s, es, i);
  }

  /******* NextRun *******/

  ghost predicate ComputedAt(j: Job, c: nat)
    requires GoodPlan(j.plan)
  {
    j.nextRun <= UnixOf(c) || NextRunOf(j.plan, c) == Some(j.nextRun)
  }

  // NextRun is unset or was computed at some instant not after the clock.
  ghost predicate Grounded(s: System)
    requires GoodPlan(s.job.plan)
  {
    s.job.nextRun == 0 || exists c: nat :: c <= s.clock && ComputedAt(s.job, c)
  }

  lemma SubmittedIsGrounded(s: System)
    requires s.job.plan.Some? && GoodPlan(s.job.plan) && s.job.nextRun == FirstRun(s.job.plan.value, s.clock)
    ensures Grounded(s)
  {
    assert ComputedAt(s.job, s.clock);
  }

  lemma {:induction false} StaysGrounded(s: System, es: seq<Event>)
    requires GoodPlan(s.job.plan) && Grounded(s) && Playable(s, es)
    ensures Grounded(Play(s, es))
  {
    if es != [] {
      var before, e := Play(s, es[..|es| - 1]), es[|es| - 1];
      StaysGrounded(s, es[..|es| - 1]);
      var after := Apply(before, e);
      if e.Reschedule? {
        assert after.job.nextRun == 0 || ComputedAt(after.job, after.clock);
      } else if before.job.nextRun != 0 {
        var c: nat :| c <= before.clock && ComputedAt(before.job, c);
        assert ComputedAt(after.job, c);
      }
    }
  }

  lemma NextRunOfMonotone(plan: Option<Plan>, c: nat, now: nat)
    requires GoodPlan(plan) && c <= now
    ensures NextRunOf(plan, c).Some? && NextRunOf(plan, now).Some? ==>
              NextRunOf(plan, c).value <= NextRunOf(plan, now).value
  {
    if plan.Some? && plan.value.Fields5? && NextMinute(plan.value.sched, c / SECOND) != 0 {
      NextMonotone(plan.value.sched, c / SECOND, now / SECOND);
    }
  }

  // However runs interleave, rescheduling never moves a pending NextRun back.
  lemma NextRunNeverMovesBack(s: System, es: seq<Event>)
    requires GoodPlan(s.job.plan) && Grounded(s) && Playable(s, es)
    requires es != [] && es[|es| - 1].Reschedule?
    ensures var before, after := Play(s, es[..|es| - 1]).job.nextRun, Play(s, es).job.nextRun;
            before != 0 && after != 0 ==> before <= after
  {
    var before := Play(s, es[..|es| - 1]);
    StaysGrounded(s, es[..|es| - 1]);
    var next := NextRunOf(before.job.plan, before.clock);
    if before.job.nextRun != 0 && next.Some? {
      var c: nat :| c <= before.clock && ComputedAt(before.job, c);
      if before.job.nextRun <= UnixOf(c) {
        NotBeforeClock(before.job.plan, before.clock);
      } else {
        NextRunOfMonotone(before.job.plan, c, before.clock);
      }
    }
  }

  lemma NotBeforeClock(plan: Option<Plan>, now: nat)
    requires GoodPlan(plan) && NextRunOf(plan, now).Some?
    ensures NextRunOf(plan, now).value >= UnixOf(now)
  {
    if plan.value.Fields5? {
      NextIsLeast(plan.value.sched, now / SECOND);
    }
  }

  /******* Stopped jobs *******/

  ghost predicate NoScheduledRun(s: System) {
    forall i: nat :: i < |s.runs| && s.runs[i].scheduled ==> s.runs[i].pc.Finished?
  }

  // A job left without a next run, no scheduled run being in flight, is never
  // due again, even if requests keep running it.
  lemma {:induction false} StoppedStaysStopped(s: System, es: seq<Event>)
    requires GoodPlan(s.job.plan) && Playable(s, es)
    requires s.job.nextRun == 0 && NoScheduledRun(s)
    ensures Play(s, es).job.nextRun == 0 && NoScheduledRun(Play(s, es)) && StartScheduled !in es
    ensures !IsDue(Play(s, es).job, Play(s, es).clock)
  {
    if es != [] {
      StoppedStaysStopped(s, es[..|es| - 1]);
      EarlierEvents(es, StartScheduled);
    }
  }

  // The search finds a run to wait for at some instant from the clock on.
  ghost predicate FindsLater(s: System)
    requires GoodPlan(s.job.plan)
  {
    exists c: nat :: c >= s.clock && Finds(s.job.plan, c)
  }

  predicate Finds(plan: Option<Plan>, c: nat)
    requires GoodPlan(plan)
  {
    NextRunOf(plan, c).Some? && NextRunOf(plan, c).value > 0
  }

  lemma PlayMore(s: System, es: seq<Event>, e: Event)
    requires GoodPlan(s.job.plan) && Playable(s, es) && Enabled(Play(s, es), e)
    ensures Playable(s, es + [e]) && Play(s, es + [e]) == Apply(Play(s, es), e)
  {
    assert (es + [e])[..|es|] == es;
  }

  lemma {:induction false} NextRunStaysUnset(s: System, es: seq<Event>)
    requires GoodPlan(s.job.plan) && Playable(s, es) && s.job.nextRun <= 0 && !FindsLater(s)
    ensures Play(s, es).job.nextRun <= 0
  {
    if es != [] {
      var before := Play(s, es[..|es| - 1]);
      NextRunStaysUnset(s, es[..|es| - 1]);
      assert !Finds(s.job.plan, before.clock);
    }
  }

  // An unfinished run can be brought to its end, the clock standing still.
  function Ending(i: nat, pc: Pc): seq<Event> {
    match pc
    case Starting => [LoadFails(i)]
    case Trying(_) => [Succeed(i)]
    case Exhausted => [Exhaust(i)]
    case _ => []
  }

  lemma RunEnds(s: System, i: nat)
    requires GoodPlan(s.job.plan) && i < |s.runs| && !s.runs[i].pc.Finished?
    ensures var es := Ending(i, s.runs[i].pc);
            && Playable(s, es) && Play(s, es).runs[i].pc.Returned? && |Play(s, es).runs| == |s.runs|
            && Play(s, es).runs[i].scheduled == s.runs[i].scheduled && Play(s, es).clock == s.clock
  {
    var es := Ending(i, s.runs[i].pc);
    if es != [] {
      var e := es[0];
      EndedBy(s, e, i);
      assert [] + [e] == es;
      PlayMore(s, [], e);
    }
  }

  lemma EndedBy(s: System, e: Event, i: nat)
    requires GoodPlan(s.job.plan) && i < |s.runs| && Ending(i, s.runs[i].pc) == [e]
    ensures Enabled(s, e)
    ensures var s' := Apply(s, e);
            && s'.runs[i].pc.Returned? && |s'.runs| == |s.runs| && s'.runs[i].scheduled == s.runs[i].scheduled
            && s'.clock == s.clock
  {
    assert [e][0] == e;
  }

  ghost predicate BringsDue(s: System, es: seq<Event>)
    requires GoodPlan(s.job.plan)
  {
    Playable(s, es) && IsDue(Play(s, es).job, Play(s, es).clock)
  }

  // From the end of its run on, the job can be made due at any instant c later
  // than the clock at which the search finds something.
  lemma RescheduledAndDue(s: System, es: seq<Event>, i: nat, c: nat) returns (more: seq<Event>)
    requires GoodPlan(s.job.plan) && Playable(s, es) && i < |Play(s, es).runs|
    requires Play(s, es).runs[i].scheduled && Play(s, es).runs[i].pc.Returned?
    requires c >= Play(s, es).clock && Finds(s.job.plan, c) && s.job.schedule != ""
    ensures es <= more && BringsDue(s, more)
  {
    PlayMore(s, es, Advance(c - Play(s, es).clock));
    more := es + [Advance(c - Play(s, es).clock)];
    PlayMore(s, more, Reschedule(i));
    more := more + [Reschedule(i)];
    var v := NextRunOf(s.job.plan, c).value;
    assert Play(s, more).job.nextRun == v && Play(s, more).clock == c;
    var wait := (v + UNIX_EPOCH) * SECOND;
    Arithmetic.QuotientUnique(wait, SECOND, v + UNIX_EPOCH, 0);
    LaterClock(wait, c + wait);
    PlayMore(s, more, Advance(wait));
    more := more + [Advance(wait)];
  }

  lemma LaterClock(a: nat, b: nat)
    requires a <= b
    ensures UnixOf(a) <= UnixOf(b)
  {
  }

  lemma CanBeDueAgain(s: System) returns (es: seq<Event>)
    requires GoodPlan(s.job.plan) && s.job.schedule != ""
    ensures !NoScheduledRun(s) && FindsLater(s) ==> BringsDue(s, es)
  {
    es := [];
    if !NoScheduledRun(s) && FindsLater(s) {
      var i: nat :| i < |s.runs| && s.runs[i].scheduled && !s.runs[i].pc.Finished?;
      var c: nat :| c >= s.clock && Finds(s.job.plan, c);
      RunEnds(s, i);
      es := RescheduledAndDue(s, Ending(i, s.runs[i].pc), i, c);
    }
  }

  lemma DueAgainNeeds(s: System, es: seq<Event>)
    requires GoodPlan(s.job.plan) && s.job.nextRun == 0 && BringsDue(s, es)
    ensures !NoScheduledRun(s) && FindsLater(s)
  {
    if NoScheduledRun(s) {
      StoppedStaysStopped(s, es);
    }
    if !FindsLater(s) {
      NextRunStaysUnset(s, es);
    }
  }

  // A job without a next run can become due again exactly when a scheduled run is
  // in flight and the search finds something at some later instant.
  lemma DueAgainExactly(s: System)
    requires GoodPlan(s.job.plan) && s.job.schedule != "" && s.job.nextRun == 0
    ensures (exists es :: BringsDue(s, es)) <==> !NoScheduledRun(s) && FindsLater(s)
  {
    var es := CanBeDueAgain(s);
    forall es | BringsDue(s, es)
      ensures !NoScheduledRun(s) && FindsLater(s)
    {
      DueAgainNeeds(s, es);
    }
  }

  lemma FindsAt(plan: Option<Plan>, c: nat)
    requires plan.Some? && plan.value.Fields5?
    ensures NextMinute(plan.value.sched, c) * 60 > UNIX_EPOCH ==> Finds(plan, c * SECOND)
    ensures NextMinute(plan.value.sched, c) == 0 ==> NextRunOf(plan, c * SECOND).None?
  {
    Arithmetic.QuotientUnique(c * SECOND, SECOND, c, 0);
  }

  // The job as it is stored when submitted now, and nothing running.
  predicate JustSubmitted(s: System) {
    && s.runs == [] && s.job.plan.Some? && s.job.plan.value.Fields5? && s.job.schedule != ""
    && s.job.status == Registered && s.job.nextRun == FirstRun(s.job.plan.value, s.clock) > 0
  }

  const TICK := 10 * SECOND

  // The slot is started at two ticks, and second c is reached with both running.
  lemma BothStarted(s: System, c: nat) returns (es: seq<Event>)
    requires JustSubmitted(s) && s.clock + TICK <= c * SECOND
    ensures Playable(s, es) && |es| == 4
    ensures Play(s, es) == System(s.job, c * SECOND, [Run(true, Starting), Run(true, Starting)])
  {
    PlayMore(s, [], StartScheduled);
    es := [] + [StartScheduled];
    assert Play(s, es) == System(s.job, s.clock, [Run(true, Starting)]);
    PlayMore(s, es, Advance(TICK));
    es := es + [Advance(TICK)];
    LaterClock(s.clock, s.clock + TICK);
    PlayMore(s, es, StartScheduled);
    es := es + [StartScheduled];
    assert Play(s, es) == System(s.job, s.clock + TICK, [Run(true, Starting), Run(true, Starting)]);
    PlayMore(s, es, Advance(c * SECOND - s.clock - TICK));
    es := es + [Advance(c * SECOND - s.clock - TICK)];
  }

  // Run i fails to load its task and reschedules the job at once.
  lemma FailsAndReschedules(s: System, es: seq<Event>, i: nat) returns (more: seq<Event>)
    requires GoodPlan(s.job.plan) && Playable(s, es) && i < |Play(s, es).runs|
    requires Play(s, es).runs[i] == Run(true, Starting)
    ensures es <= more && |more| == |es| + 2 && Playable(s, more)
    ensures var before := Play(s, es);
            Play(s, more) == System(Rescheduled(before.job, before.clock), before.clock,
                                    before.runs[i := Run(true, Finished(false))])
  {
    PlayMore(s, es, LoadFails(i));
    var failed := es + [LoadFails(i)];
    PlayMore(s, failed, Reschedule(i));
    more := failed + [Reschedule(i)];
  }

  // Two runs of one slot end a minute apart.
  lemma TwoReschedules(s: System, c: nat) returns (first: seq<Event>, second: seq<Event>)
    requires JustSubmitted(s) && s.clock + TICK <= c * SECOND
    ensures first <= second && Playable(s, first) && Playable(s, second)
    ensures Play(s, first).clock == c * SECOND && Play(s, second).clock == (c + 60) * SECOND
    ensures Play(s, first).job == Rescheduled(s.job, c * SECOND)
    ensures Play(s, second).job == Rescheduled(Play(s, first).job, (c + 60) * SECOND)
  {
    var started := BothStarted(s, c);
    first := FailsAndReschedules(s, started, 0);
    PlayMore(s, first, Advance(60 * SECOND));
    var later := first + [Advance(60 * SECOND)];
    assert Play(s, first).runs == [Run(true, Finished(false)), Run(true, Starting)];
    assert Play(s, later).runs == Play(s, first).runs;
    second := FailsAndReschedules(s, later, 1);
    assert first <= later;
  }

  // The search finds nothing at second c, and a run to wait for a minute later.
  predicate BeginsToFind(sched: Schedule, c: nat) {
    NextMinute(sched, c) == 0 && NextMinute(sched, c + 60) * 60 > UNIX_EPOCH
  }

  // One history stops the job at second c, and it goes on to set the job going
  // again a minute later.
  ghost predicate RevivesAt(s: System, c: nat, stopped: seq<Event>, revived: seq<Event>)
    requires GoodPlan(s.job.plan)
  {
    && stopped <= revived && Playable(s, stopped) && Playable(s, revived)
    && Play(s, stopped).clock == c * SECOND && Play(s, revived).clock == (c + 60) * SECOND
    && Play(s, stopped).job.status == Stopped && Play(s, stopped).job.nextRun == 0
    && Play(s, revived).job.status == Registered && Play(s, revived).job.nextRun > 0
  }

  // With any schedule and any minute at which the search begins to find
  // something: the first run to end stops the job, and the second, a minute
  // later, sets it going again.
  lemma StoppedCanRevive(s: System, c: nat) returns (stopped: seq<Event>, revived: seq<Event>)
    requires JustSubmitted(s) && s.clock + TICK <= c * SECOND
    ensures BeginsToFind(s.job.plan.value.sched, c) ==> RevivesAt(s, c, stopped, revived)
  {
    stopped, revived := TwoReschedules(s, c);
    StopsAndRestarts(s.job, c);
  }

  lemma StopsAndRestarts(j: Job, c: nat)
    requires j.plan.Some? && j.plan.value.Fields5?
    ensures var first := Rescheduled(j, c * SECOND);
            var second := Rescheduled(first, (c + 60) * SECOND);
            BeginsToFind(j.plan.value.sched, c) ==>
              && first.status == Stopped && first.nextRun == 0
              && second.status == Registered && second.nextRun > 0
  {
    FindsAt(j.plan, c);
    FindsAt(j.plan, c + 60);
  }

  // A century year without a leap day comes within 200 years of any year's next.
  lemma CommonCenturyAfter(year: int) returns (y: int)
    requires year >= 1
    ensures year + 1 < y <= year + 202 && y % 100 == 0 && !IsLeap(y)
  {
    var k := (year + 1) / 100 + 1;
    y := 100 * k;
    Arithmetic.QuotientUnique(y, 100, k, 0);
    if IsLeap(y) {
      y := y + 100;
      Arithmetic.QuotientUnique(y, 100, k + 1, 0);
      NotTwoLeapCenturies(k);
    }
  }

  lemma NotTwoLeapCenturies(k: int)
    requires 100 * k % 400 == 0
    ensures (100 * k + 100) % 400 != 0
  {
    var q := 100 * k / 400;
    Arithmetic.QuotientUnique(100 * k + 100, 400, q, 100);
  }

  // A 29 February job meets such a minute: the last one of February in the year
  // before a century year without a leap day, for a present clock that of 2099.
  lemma LeapDayJobRevives(s: System, y: int) returns (c: nat, stopped: seq<Event>, revived: seq<Event>)
    requires JustSubmitted(s) && LeapDayOnly(s.job.plan.value.sched) && TimeAllowed(s.job.plan.value.sched, 0, 0)
    requires y >= 2000 && y % 100 == 0 && !IsLeap(y) && DateOf(s.clock / SECOND / 86400).year < y - 1
    ensures c + 60 == DayNumber(Date(y - 1, 3, 1)) * 86400 && RevivesAt(s, c, stopped, revived)
  {
    c := EdgeAfter(s.clock, s.job.plan.value.sched, y);
    stopped, revived := StoppedCanRevive(s, c);
  }

  lemma EdgeAfter(clock: nat, sched: Schedule, y: int) returns (c: nat)
    requires LeapDayOnly(sched) && TimeAllowed(sched, 0, 0) && y >= 2000 && y % 100 == 0 && !IsLeap(y)
    requires DateOf(clock / SECOND / 86400).year < y - 1
    ensures c + 60 == DayNumber(Date(y - 1, 3, 1)) * 86400 && BeginsToFind(sched, c) && clock + TICK <= c * SECOND
  {
    c := EdgeSecond(sched, y);
    BeforeYear(clock, y - 1, c);
  }

  lemma EdgeSecond(sched: Schedule, y: int) returns (c: nat)
    requires LeapDayOnly(sched) && TimeAllowed(sched, 0, 0) && y >= 2000 && y % 100 == 0 && !IsLeap(y)
    ensures c + 60 == DayNumber(Date(y - 1, 3, 1)) * 86400 && BeginsToFind(sched, c)
  {
    var n := HorizonEdge(sched, y);
    c := (n * 1440 - 1) * 60;
    AfterEpoch(y);
    InSeconds(sched, n, c);
  }

  lemma InSeconds(sched: Schedule, n: nat, c: nat)
    requires c + 60 == n * 86400 > UNIX_EPOCH
    ensures NextMinute(sched, (n * 1440 - 1) * 60) == NextMinute(sched, c)
    ensures NextMinute(sched, n * 1440 * 60) == NextMinute(sched, c + 60)
    ensures (n * 1440 + HORIZON) * 60 > UNIX_EPOCH
  {
    assert (n * 1440 - 1) * 60 == c && n * 1440 * 60 == c + 60;
  }

  lemma AfterEpoch(y: int)
    requires y >= 2000
    ensures DayNumber(Date(y - 1, 3, 1)) * 86400 > UNIX_EPOCH
  {
    DaysBeforeYearClosedForm(y - 1);
    MonthsFitInYear(Date(y - 1, 3, 1));
  }

  lemma BeforeYear(clock: nat, y: int, c: nat)
    requires DateOf(clock / SECOND / 86400).year < y && c + 60 == DayNumber(Date(y, 3, 1)) * 86400
    ensures clock + TICK <= c * SECOND
  {
    var day := clock / SECOND / 86400;
    YearBounds(day);
    YearsAccumulate(DateOf(day).year, y);
    MonthTable(y);
    assert day + 1 <= DaysBeforeYear(y) <= DayNumber(Date(y, 3, 1)) - 59;
    assert clock / SECOND < (day + 1) * 86400;
    assert clock < (day + 1) * 86400 * SECOND;
  }

  /******* Slots *******/

  // The latest event that set the job's status.
  function LastMark(es: seq<Event>): Option<Event> {
    if es == [] then None
    else
      var e := es[|es| - 1];
      if e.Begin? || e.Succeed? || e.Exhaust? then Some(e) else LastMark(es[..|es| - 1])
  }

  function StatusOf(mark: Event): Status {
    if mark.Begin? then Running else if mark.Succeed? then Done else Failed
  }

  predicate NoReschedule(es: seq<Event>) {
    forall i :: 0 <= i < |es| ==> !es[i].Reschedule?
  }

  lemma {:induction false} StatusFollowsMarks(s: System, es: seq<Event>)
    requires GoodPlan(s.job.plan) && Playable(s, es) && NoReschedule(es)
    ensures var j := Play(s, es).job;
            && j.nextRun == s.job.nextRun
            && (LastMark(es).None? ==> j.status == s.job.status)
            && (LastMark(es).Some? ==> j.status == StatusOf(LastMark(es).value))
  {
    if es != [] {
      StatusFollowsMarks(s, es[..|es| - 1]);
    }
  }

  // Until a run reschedules, a due slot can be started once more exactly when the
  // latest status update is not the beginning of a run.
  lemma SlotOpenExactly(s: System, es: seq<Event>)
    requires GoodPlan(s.job.plan) && IsDue(s.job, s.clock) && Playable(s, es) && NoReschedule(es)
    ensures Enabled(Play(s, es), StartScheduled) <==> LastMark(es).None? || !LastMark(es).value.Begin?
  {
    StatusFollowsMarks(s, es);
    LaterClock(s.clock, Play(s, es).clock);
  }

  // Has begun and not ended.
  predicate UnderWay(pc: Pc) {
    pc.Trying? || pc.Exhausted?
  }

  lemma {:induction false} RunningWhileUnderWay(s: System, es: seq<Event>)
    requires GoodPlan(s.job.plan) && Playable(s, es) && NoReschedule(es)
    requires s.runs == [] && s.job.status != Running && |Play(s, es).runs| <= 1
    ensures Play(s, es).job.status == Running <==> |Play(s, es).runs| == 1 && UnderWay(Play(s, es).runs[0].pc)
    ensures s.job.status != Queued ==> Play(s, es).job.status != Queued
  {
    if es != [] {
      RunningWhileUnderWay(s, es[..|es| - 1]);
    }
  }

  // The only run so far keeps the slot closed exactly from its beginning to its
  // end: neither before it is marked running nor between its end and its
  // rescheduling.
  lemma OnlyRunGuardsSlot(s: System, es: seq<Event>)
    requires GoodPlan(s.job.plan) && IsDue(s.job, s.clock) && Playable(s, es) && NoReschedule(es)
    requires s.runs == [] && |Play(s, es).runs| == 1
    ensures Enabled(Play(s, es), StartScheduled) <==> !UnderWay(Play(s, es).runs[0].pc)
  {
    RunningWhileUnderWay(s, es);
    StatusFollowsMarks(s, es);
    LaterClock(s.clock, Play(s, es).clock);
  }

  // A request is refused exactly while the only run so far is under way.
  lemma OnlyRunGuardsRequests(s: System, es: seq<Event>)
    requires GoodPlan(s.job.plan) && Playable(s, es) && NoReschedule(es)
    requires s.runs == [] && s.job.status != Running && |Play(s, es).runs| == 1
    ensures Enabled(Play(s, es), StartRequested) <==> !UnderWay(Play(s, es).runs[0].pc)
  {
    RunningWhileUnderWay(s, es);
  }

  // In particular a slot can be run twice: if the first run is not marked running
  // by the next tick, ten seconds later, that tick starts another.
  lemma SlotCanStartTwice(s: System)
    requires GoodPlan(s.job.plan) && IsDue(s.job, s.clock)
    ensures Playable(s, [StartScheduled, Advance(TICK), StartScheduled])
  {
    PlayMore(s, [], StartScheduled);
    var once := [] + [StartScheduled];
    PlayMore(s, once, Advance(TICK));
    var later := once + [Advance(TICK)];
    assert Play(s, later).job == s.job && Play(s, later).clock == s.clock + TICK;
    LaterClock(s.clock, s.clock + TICK);
    PlayMore(s, later, StartScheduled);
    assert later + [StartScheduled] == [StartScheduled, Advance(TICK), StartScheduled];
  }
}
