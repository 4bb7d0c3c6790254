// The state store: eight collections in memory, all written to the backend, one
// after the other, on every change.
module Store {
  import opened Text
  import opened Tokens

  // A cluster, service or job; data stands for the fields the store never reads.
  datatype Record = Record(name: string, status: string, createdAt: int, updatedAt: int, data: string)

  datatype ClusterYAML = ClusterYAML(clusterName: string, yaml: string, createdAt: int, updatedAt: int)

  // facts stands for the node count, cloud, region, zone, instance type, backend and task.
  datatype ClusterHistory = ClusterHistory(clusterName: string, facts: string, launchedAt: int, createdAt: int, updatedAt: int)

  datatype ClusterEvent = ClusterEvent(clusterName: string, detail: string, transitionedAt: int)

  datatype ConfigEntry = ConfigEntry(key: string, value: string, createdAt: int, updatedAt: int)

  datatype Snapshot = Snapshot(clusters: map<string, Record>, services: map<string, Record>, jobs: map<string, Record>,
                               yamls: map<string, ClusterYAML>, history: map<string, ClusterHistory>,
                               events: seq<ClusterEvent>, config: map<string, ConfigEntry>, tokens: seq<Token>)

  const EMPTY := Snapshot(map[], map[], map[], map[], map[], [], map[], [])

  /******* Mutators *******/

  datatype Op =
    | AddCluster(rec: Record)
    | UpdateCluster(name: string, fn: Record -> Option<Record>)
    | DeleteCluster(name: string)
    | AddService(rec: Record)
    | UpdateService(name: string, fn: Record -> Option<Record>)
    | DeleteService(name: string)
    | AddJob(rec: Record)
    | UpdateJob(name: string, fn: Record -> Option<Record>)
    | RecordClusterYAML(name: string, yaml: string)
    | RecordClusterHistory(h: ClusterHistory)
    | AddClusterEvent(e: ClusterEvent)
    | SetConfig(key: string, value: string)
    | CreateToken(token: Token)
    | RotateToken(name: string, hash: string, expiresAt: int)
    | DeleteToken(name: string)
    | MarkTokenUsed(name: string)

  // The new collection, or None when the call fails or has nothing to save.
  function Added(m: map<string, Record>, rec: Record, now: int): Option<map<string, Record>> {
    if rec.name in m then None else Some(m[rec.name := rec.(createdAt := now, updatedAt := now)])
  }

  function Updated(m: map<string, Record>, name: string, fn: Record -> Option<Record>, now: int): Option<map<string, Record>> {
    if name !in m || fn(m[name]).None? then None else Some(m[name := fn(m[name]).value.(updatedAt := now)])
  }

  function Removed(m: map<string, Record>, name: string): Option<map<string, Record>> {
    if name in m then Some(m - {name}) else None
  }

  function WithStatus(rec: Record): Record {
    if rec.status == "" then rec.(status := "provisioning") else rec
  }

  function RecordedYAML(m: map<string, ClusterYAML>, name: string, yaml: string, now: int): map<string, ClusterYAML> {
    m[name := if name in m then m[name].(yaml := yaml, updatedAt := now) else ClusterYAML(name, yaml, now, now)]
  }

  function RecordedHistory(m: map<string, ClusterHistory>, h: ClusterHistory, now: int): map<string, ClusterHistory> {
    m[h.clusterName :=
      if h.clusterName in m then m[h.clusterName].(facts := h.facts, launchedAt := h.launchedAt, updatedAt := now)
      else h.(createdAt := if h.createdAt == 0 then now else h.createdAt,
              launchedAt := if h.launchedAt == 0 then now else h.launchedAt, updatedAt := now)]
  }

  function Stamped(e: ClusterEvent, now: int): ClusterEvent {
    if e.transitionedAt == 0 then e.(transitionedAt := now) else e
  }

  function ConfigSet(m: map<string, ConfigEntry>, key: string, value: string, now: int): map<string, ConfigEntry> {
    m[key := if key in m then m[key].(value := value, updatedAt := now) else ConfigEntry(key, value, now, now)]
  }

  // The memory after a mutator; None when it returns without saving.
  function Effect(s: Snapshot, op: Op, now: int): Option<Snapshot> {
    match op
    case AddCluster(rec) =>
      var m := Added(s.clusters, WithStatus(rec), now);
      if m.None? then None else Some(s.(clusters := m.value))
    case UpdateCluster(name, fn) =>
      var m := Updated(s.clusters, name, fn, now);
      if m.None? then None else Some(s.(clusters := m.value))
    case DeleteCluster(name) =>
      var m := Removed(s.clusters, name);
      if m.None? then None else Some(s.(clusters := m.value))
    case AddService(rec) =>
      var m := Added(s.services, rec, now);
      if m.None? then None else Some(s.(services := m.value))
    case UpdateService(name, fn) =>
      var m := Updated(s.services, name, fn, now);
      if m.None? then None else Some(s.(services := m.value))
    case DeleteService(name) =>
      var m := Removed(s.services, name);
      if m.None? then None else Some(s.(services := m.value))
    case AddJob(rec) =>
      var m := Added(s.jobs, rec, now);
      if m.None? then None else Some(s.(jobs := m.value))
    case UpdateJob(name, fn) =>
      var m := Updated(s.jobs, name, fn, now);
      if m.None? then None else Some(s.(jobs := m.value))
    case RecordClusterYAML(name, yaml) => Some(s.(yamls := RecordedYAML(s.yamls, name, yaml, now)))
    case RecordClusterHistory(h) => Some(s.(history := RecordedHistory(s.history, h, now)))
    case AddClusterEvent(e) => Some(s.(events := s.events + [Stamped(e, now)]))
    case SetConfig(key, value) => Some(s.(config := ConfigSet(s.config, key, value, now)))
    case CreateToken(t) => Some(s.(tokens := Created(s.tokens, t)))
    case RotateToken(id, hash, expiresAt) =>
      if Position(s.tokens, id) == |s.tokens| then None
      else Some(s.(tokens := Rotated(s.tokens, id, hash, expiresAt, now)))
    case DeleteToken(id) =>
      if Position(s.tokens, id) == |s.tokens| then None else Some(s.(tokens := Deleted(s.tokens, id)))
    case MarkTokenUsed(id) =>
      if Position(s.tokens, id) == |s.tokens| then None else Some(s.(tokens := Used(s.tokens, id, now)))
  }

  /******* Saving *******/

  const STEPS := 8

  // The first n collections as in mem, the rest as on disk.
  function Written(mem: Snapshot, disk: Snapshot, n: nat): Snapshot {
    Snapshot(if n > 0 then mem.clusters else disk.clusters,
             if n > 1 then mem.services else disk.services,
             if n > 2 then mem.jobs else disk.jobs,
             if n > 3 then mem.yamls else disk.yamls,
             if n > 4 then mem.history else disk.history,
             if n > 5 then mem.events else disk.events,
             if n > 6 then mem.config else disk.config,
             if n > 7 then mem.tokens else disk.tokens)
  }

  // How many writes go through before the first failing one.
  function Progress(fails: nat -> bool, n: nat): (r: nat)
    requires n <= STEPS
    ensures n <= r <= STEPS
    ensures r < STEPS ==> fails(r)
    ensures forall k :: n <= k < r ==> !fails(k)
    decreases STEPS - n
  {
    if n == STEPS || fails(n) then n else Progress(fails, n + 1)
  }

  class StateStore {
    var clusters: map<string, Record>
    var services: map<string, Record>
    var jobs: map<string, Record>
    var yamls: map<string, ClusterYAML>
    var history: map<string, ClusterHistory>
    var events: seq<ClusterEvent>
    var config: map<string, ConfigEntry>
    var tokens: seq<Token>
    var disk: Snapshot

    function Mem(): Snapshot
      reads this
    {
      Snapshot(clusters, services, jobs, yamls, history, events, config, tokens)
    }

    // Opening reads the eight collections back.
    constructor Open(disk: Snapshot)
      ensures Mem() == disk && this.disk == disk
    {
      clusters, services, jobs, yamls := disk.clusters, disk.services, disk.jobs, disk.yamls;
      history, events, config, tokens := disk.history, disk.events, disk.config, disk.tokens;
      this.disk := disk;
    }

    // Eight atomic writes in a fixed order; the first failure ends it.
    method Save(fails: nat -> bool) returns (ok: bool)
      modifies this`disk
      ensures disk == Written(Mem(), old(disk), Progress(fails, 0))
      ensures ok <==> Progress(fails, 0) == STEPS
    {
      if fails(0) { return false; }
      disk := disk.(clusters := clusters);
      if fails(1) { return false; }
      disk := disk.(services := services);
      if fails(2) { return false; }
      disk := disk.(jobs := jobs);
      if fails(3) { return false; }
      disk := disk.(yamls := yamls);
      if fails(4) { return false; }
      disk := disk.(history := history);
      if fails(5) { return false; }
      disk := disk.(events := events);
      if fails(6) { return false; }
      disk := disk.(config := config);
      if fails(7) { return false; }
      disk := disk.(tokens := tokens);
      return true;
    }

    method AddClusterRecord(rec: Record, now: int, fails: nat -> bool) returns (ok: bool)
      modifies this
      ensures var after := Effect(old(Mem()), AddCluster(rec), now);
              && Mem() == (if after.Some? then after.value else old(Mem()))
              && disk == (if after.Some? then Written(Mem(), old(disk), Progress(fails, 0)) else old(disk))
              && (ok <==> after.Some? && Progress(fails, 0) == STEPS)
    {
      if rec.name in clusters {
        return false;
      }
      var c := rec.(createdAt := now, updatedAt := now);
      if c.status == "" {
        c := c.(status := "provisioning");
      }
      clusters := clusters[c.name := c];
      ok := Save(fails);
    }

    method UpdateClusterRecord(name: string, fn: Record -> Option<Record>, now: int, fails: nat -> bool) returns (ok: bool)
      modifies this
      ensures var after := Effect(old(Mem()), UpdateCluster(name, fn), now);
              && Mem() == (if after.Some? then after.value else old(Mem()))
              && disk == (if after.Some? then Written(Mem(), old(disk), Progress(fails, 0)) else old(disk))
              && (ok <==> after.Some? && Progress(fails, 0) == STEPS)
    {
      if name !in clusters {
        return false;
      }
      var changed := fn(clusters[name]);
      if changed.None? {
        return false;
      }
      clusters := clusters[name := changed.value.(updatedAt := now)];
      ok := Save(fails);
    }

    method DeleteClusterRecord(name: string, fails: nat -> bool) returns (ok: bool)
      modifies this
      ensures var after := Effect(old(Mem()), DeleteCluster(name), 0);
              && Mem() == (if after.Some? then after.value else old(Mem()))
              && disk == (if after.Some? then Written(Mem(), old(disk), Progress(fails, 0)) else old(disk))
              && (ok <==> after.Some? && Progress(fails, 0) == STEPS)
    {
      if name !in clusters {
        return false;
      }
      clusters := clusters - {name};
      ok := Save(fails);
    }

    method RecordYAML(name: string, yaml: string, now: int, fails: nat -> bool) returns (ok: bool)
      modifies this
      ensures Some(Mem()) == Effect(old(Mem()), RecordClusterYAML(name, yaml), now)
      ensures disk == Written(Mem(), old(disk), Progress(fails, 0)) && (ok <==> Progress(fails, 0) == STEPS)
    {
      if name in yamls {
        yamls := yamls[name := yamls[name].(yaml := yaml, updatedAt := now)];
      } else {
        yamls := yamls[name := ClusterYAML(name, yaml, now, now)];
      }
      ok := Save(fails);
    }

    method RecordHistory(h: ClusterHistory, now: int, fails: nat -> bool) returns (ok: bool)
      modifies this
      ensures Some(Mem()) == Effect(old(Mem()), RecordClusterHistory(h), now)
      ensures disk == Written(Mem(), old(disk), Progress(fails, 0)) && (ok <==> Progress(fails, 0) == STEPS)
    {
      if h.clusterName in history {
        var existing := history[h.clusterName];
        history := history[h.clusterName := existing.(facts := h.facts, launchedAt := h.launchedAt, updatedAt := now)];
      } else {
        var record := h;
        if record.createdAt == 0 {
          record := record.(createdAt := now);
        }
        if record.launchedAt == 0 {
          record := record.(launchedAt := now);
        }
        history := history[h.clusterName := record.(updatedAt := now)];
      }
      ok := Save(fails);
    }

    method AddEvent(e: ClusterEvent, now: int, fails: nat -> bool) returns (ok: bool)
      modifies this
      ensures Some(Mem()) == Effect(old(Mem()), AddClusterEvent(e), now)
      ensures disk == Written(Mem(), old(disk), Progress(fails, 0)) && (ok <==> Progress(fails, 0) == STEPS)
    {
      events := events + [if e.transitionedAt == 0 then e.(transitionedAt := now) else e];
      ok := Save(fails);
    }

    method AddJobRecord(rec: Record, now: int, fails: nat -> bool) returns (ok: bool)
      modifies this
      ensures var after := Effect(old(Mem()), AddJob(rec), now);
              && Mem() == (if after.Some? then after.value else old(Mem()))
              && disk == (if after.Some? then Written(Mem(), old(disk), Progress(fails, 0)) else old(disk))
              && (ok <==> after.Some? && Progress(fails, 0) == STEPS)
    {
      if rec.name in jobs {
        return false;
      }
      jobs := jobs[rec.name := rec.(createdAt := now, updatedAt := now)];
      ok := Save(fails);
    }

    method UpdateJobRecord(name: string, fn: Record -> Option<Record>, now: int, fails: nat -> bool) returns (ok: bool)
      modifies this
      ensures var after := Effect(old(Mem()), UpdateJob(name, fn), now);
              && Mem() == (if after.Some? then after.value else old(Mem()))
              && disk == (if after.Some? then Written(Mem(), old(disk), Progress(fails, 0)) else old(disk))
              && (ok <==> after.Some? && Progress(fails, 0) == STEPS)
    {
      if name !in jobs {
        return false;
      }
      var changed := fn(jobs[name]);
      if changed.None? {
        return false;
      }
      jobs := jobs[name := changed.value.(updatedAt := now)];
      ok := Save(fails);
    }
  }

  /******* Crash atomicity *******/

  // The place in the writing order of the one collection a mutator touches.
  function TargetOf(op: Op): nat {
    match op
    case AddCluster(_) => 0
    case UpdateCluster(_, _) => 0
    case DeleteCluster(_) => 0
    case AddService(_) => 1
    case UpdateService(_, _) => 1
    case DeleteService(_) => 1
    case AddJob(_) => 2
    case UpdateJob(_, _) => 2
    case RecordClusterYAML(_, _) => 3
    case RecordClusterHistory(_) => 4
    case AddClusterEvent(_) => 5
    case SetConfig(_, _) => 6
    case CreateToken(_) => 7
    case RotateToken(_, _, _) => 7
    case DeleteToken(_) => 7
    case MarkTokenUsed(_) => 7
  }

  lemma OneCollectionChanges(s: Snapshot, op: Op, now: int, n: nat)
    requires Effect(s, op, now).Some?
    ensures Written(Effect(s, op, now).value, s, n) == if n > TargetOf(op) then Effect(s, op, now).value else s
  {
  }

  // With disk and memory in agreement, wherever a save stops the disk holds
  // exactly the state before or exactly the state after the mutator, and the
  // latter as soon as the touched collection has been written.
  lemma CrashLeavesBeforeOrAfter(mem: Snapshot, disk: Snapshot, op: Op, now: int, n: nat)
    requires disk == mem && Effect(mem, op, now).Some?
    ensures var after := Effect(mem, op, now).value;
            var left := Written(after, disk, n);
            && (left == mem || left == after)
            && (n > TargetOf(op) ==> left == after)
            && (n <= TargetOf(op) ==> left == mem)
  {
    OneCollectionChanges(mem, op, now, n);
  }

  // A call is atomic, wherever its save may stop, exactly when the disk holds the
  // state before it or the state after it already.
  lemma CrashAtomicExactly(mem: Snapshot, disk: Snapshot, op: Op, now: int)
    requires Effect(mem, op, now).Some?
    ensures var after := Effect(mem, op, now).value;
            (forall n: nat :: n <= STEPS ==> Written(after, disk, n) == mem || Written(after, disk, n) == after)
            <==> disk == mem || disk == after
  {
    var after := Effect(mem, op, now).value;
    assert Written(after, disk, 0) == disk;
    forall n: nat | n <= STEPS && (disk == mem || disk == after)
      ensures Written(after, disk, n) == mem || Written(after, disk, n) == after
    {
      OneCollectionChanges(mem, op, now, n);
    }
  }

  /******* Runs *******/

  // A call with its clock reading and the number of writes that go through, or a
  // restart, which reads everything back.
  datatype Step = Call(op: Op, now: int, writes: nat) | Restart

  datatype World = World(mem: Snapshot, disk: Snapshot)

  function Advance(w: World, step: Step): World {
    match step
    case Restart => World(w.disk, w.disk)
    case Call(op, now, writes) =>
      match Effect(w.mem, op, now)
      case None => w
      case Some(mem) => World(mem, Written(mem, w.disk, writes))
  }

  function Run(w: World, steps: seq<Step>): World {
    if steps == [] then w else Advance(Run(w, steps[..|steps| - 1]), steps[|steps| - 1])
  }

  // Since the last save that failed, the store has saved everything or been reopened.
  predicate InStep(w: World, steps: seq<Step>) {
    if steps == [] then w.disk == w.mem
    else
      var n := |steps| - 1;
      match steps[n]
      case Restart => true
      case Call(op, now, writes) =>
        if Effect(Run(w, steps[..n]).mem, op, now).None? then InStep(w, steps[..n]) else writes >= STEPS
  }

  // After any run, failures and restarts included, disk and memory agree as soon
  // as the last save went through, whatever was on disk before.
  lemma {:induction false} DiskFollowsMemory(w: World, steps: seq<Step>)
    requires InStep(w, steps)
    ensures Run(w, steps).disk == Run(w, steps).mem
  {
    if steps != [] {
      var n := |steps| - 1;
      if steps[n].Call? && Effect(Run(w, steps[..n]).mem, steps[n].op, steps[n].now).None? {
        DiskFollowsMemory(w, steps[..n]);
      }
    }
  }

  // Whatever failed before, the next call that saves everything brings the disk
  // back in step with memory.
  lemma SaveCatchesUp(w: World, steps: seq<Step>, op: Op, now: int)
    requires Effect(Run(w, steps).mem, op, now).Some?
    ensures var after := Run(w, steps + [Call(op, now, STEPS)]); after.disk == after.mem
  {
    var all := steps + [Call(op, now, STEPS)];
    assert all[..|steps|] == steps;
    DiskFollowsMemory(w, all);
  }

  // Reopening then gives the same store.
  lemma RestartChangesNothing(w: World, steps: seq<Step>)
    requires InStep(w, steps)
    ensures Run(w, steps + [Restart]) == Run(w, steps)
  {
    assert (steps + [Restart])[..|steps|] == steps;
    DiskFollowsMemory(w, steps);
  }

  // Collection i of two snapshots is the same.
  predicate SameAt(a: Snapshot, b: Snapshot, i: nat) {
    && (i == 0 ==> a.clusters == b.clusters) && (i == 1 ==> a.services == b.services)
    && (i == 2 ==> a.jobs == b.jobs) && (i == 3 ==> a.yamls == b.yamls)
    && (i == 4 ==> a.history == b.history) && (i == 5 ==> a.events == b.events)
    && (i == 6 ==> a.config == b.config) && (i == 7 ==> a.tokens == b.tokens)
  }

  // A mutator touches one collection.
  lemma OthersUntouched(s: Snapshot, op: Op, now: int, i: nat)
    requires Effect(s, op, now).Some? && i != TargetOf(op)
    ensures SameAt(s, Effect(s, op, now).value, i)
  {
  }

  lemma SameAtTransitive(a: Snapshot, b: Snapshot, c: Snapshot, i: nat)
    requires SameAt(a, b, i) && SameAt(b, c, i)
    ensures SameAt(a, c, i)
  {
  }

  lemma OldOrNew(w: World, step: Step, i: nat)
    ensures SameAt(Advance(w, step).disk, w.disk, i) || SameAt(Advance(w, step).disk, Advance(w, step).mem, i)
  {
    match step {
      case Restart =>
      case Call(op, now, writes) =>
        match Effect(w.mem, op, now) {
          case None =>
          case Some(mem) => assert SameAt(Written(mem, w.disk, writes), if writes > i then mem else w.disk, i);
        }
    }
  }

  // After any run, failures and restarts included, each collection on disk is that
  // collection as memory had it at some point of the run.
  lemma {:induction false} DiskHoldsPastState(w: World, steps: seq<Step>, i: nat)
    requires w.disk == w.mem && i < STEPS
    ensures exists k :: 0 <= k <= |steps| && SameAt(Run(w, steps).disk, Run(w, steps[..k]).mem, i)
  {
    if steps == [] {
      assert SameAt(Run(w, steps).disk, Run(w, steps[..0]).mem, i);
    } else {
      var n := |steps| - 1;
      DiskHoldsPastState(w, steps[..n], i);
      var k :| 0 <= k <= n && SameAt(Run(w, steps[..n]).disk, Run(w, steps[..n][..k]).mem, i);
      assert steps[..n][..k] == steps[..k];
      assert steps[..|steps|] == steps;
      OldOrNew(Run(w, steps[..n]), steps[n], i);
      if SameAt(Run(w, steps).disk, Run(w, steps).mem, i) {
        assert SameAt(Run(w, steps).disk, Run(w, steps[..|steps|]).mem, i);
      } else {
        SameAtTransitive(Run(w, steps).disk, Run(w, steps[..n]).disk, Run(w, steps[..k]).mem, i);
      }
    }
  }

  // A save that fails and one that stops can leave a mixture memory never held,
  // and a restart then makes it the store's state.
  lemma MixtureAfterFailure(c: Record, svc: Record)
    requires c.status != ""
    ensures var w := World(EMPTY, EMPTY);
            var first, second := Call(AddService(svc), 1, 0), Call(AddCluster(c), 2, 1);
            var after := Run(w, [first, second, Restart]);
            && after.mem == after.disk == Run(w, [first, second]).disk
            && after.mem != Run(w, []).mem && after.mem != Run(w, [first]).mem && after.mem != Run(w, [first, second]).mem
  {
    var w := World(EMPTY, EMPTY);
    var first, second := Call(AddService(svc), 1, 0), Call(AddCluster(c), 2, 1);
    RunMore(w, [], first);
    RunMore(w, [first], second);
    RunMore(w, [first, second], Restart);
    assert [] + [first] == [first] && [first] + [second] == [first, second];
    assert [first, second] + [Restart] == [first, second, Restart];
    var w1 := Advance(w, first);
    assert svc.name in w1.mem.services && w1.disk == EMPTY;
    var w2 := Advance(w1, second);
    assert svc.name in w2.mem.services && c.name in w2.disk.clusters && svc.name !in w2.disk.services;
  }

  lemma RunMore(w: World, steps: seq<Step>, step: Step)
    ensures Run(w, steps + [step]) == Advance(Run(w, steps), step)
  {
    assert (steps + [step])[..|steps|] == steps;
  }
}
