// What the store holds, read off the history of calls alone.
module StoreHistory {
  import opened Text
  import opened Tokens
  import opened Store

  // A call and the clock it read.
  datatype Entry = Entry(op: Op, now: int)

  // Memory after a history, starting empty; the last call is the latest.
  function After(h: seq<Entry>): Snapshot {
    if h == [] then EMPTY else Called(After(h[..|h| - 1]), h[|h| - 1].op, h[|h| - 1].now)
  }

  // Memory after one call, which may change nothing.
  function Called(s: Snapshot, op: Op, now: int): Snapshot {
    var after := Effect(s, op, now);
    if after.None? then s else after.value
  }

  /******* The record of a name *******/

  // A cluster is what it was added as, with the clock's time and, lacking a
  // status, "provisioning"; then what each update that succeeded made of it; and
  // nothing once deleted. Calls for other names do not matter.
  function ClusterThen(before: Option<Record>, op: Op, now: int, name: string): Option<Record> {
    match op
    case AddCluster(rec) =>
      if rec.name == name && before.None? then
        Some(Record(name, if rec.status == "" then "provisioning" else rec.status, now, now, rec.data))
      else before
    case UpdateCluster(n, fn) =>
      if n == name && before.Some? && fn(before.value).Some? then
        Some(fn(before.value).value.(updatedAt := now))
      else before
    case DeleteCluster(n) => if n == name then None else before
    case _ => before
  }

  function ClusterOf(h: seq<Entry>, name: string): Option<Record> {
    if h == [] then None else ClusterThen(ClusterOf(h[..|h| - 1], name), h[|h| - 1].op, h[|h| - 1].now, name)
  }

  function ServiceThen(before: Option<Record>, op: Op, now: int, name: string): Option<Record> {
    match op
    case AddService(rec) =>
      if rec.name == name && before.None? then Some(Record(name, rec.status, now, now, rec.data)) else before
    case UpdateService(n, fn) =>
      if n == name && before.Some? && fn(before.value).Some? then
        Some(fn(before.value).value.(updatedAt := now))
      else before
    case DeleteService(n) => if n == name then None else before
    case _ => before
  }

  function ServiceOf(h: seq<Entry>, name: string): Option<Record> {
    if h == [] then None else ServiceThen(ServiceOf(h[..|h| - 1], name), h[|h| - 1].op, h[|h| - 1].now, name)
  }

  // Jobs are never deleted.
  function JobThen(before: Option<Record>, op: Op, now: int, name: string): Option<Record> {
    match op
    case AddJob(rec) =>
      if rec.name == name && before.None? then Some(Record(name, rec.status, now, now, rec.data)) else before
    case UpdateJob(n, fn) =>
      if n == name && before.Some? && fn(before.value).Some? then
        Some(fn(before.value).value.(updatedAt := now))
      else before
    case _ => before
  }

  function JobOf(h: seq<Entry>, name: string): Option<Record> {
    if h == [] then None else JobThen(JobOf(h[..|h| - 1], name), h[|h| - 1].op, h[|h| - 1].now, name)
  }

  // The time of the first recording stays, the text and the time of the last hold.
  function YamlThen(before: Option<ClusterYAML>, op: Op, now: int, name: string): Option<ClusterYAML> {
    match op
    case RecordClusterYAML(n, yaml) =>
      if n == name then Some(ClusterYAML(if before.Some? then before.value.clusterName else name, yaml,
                                       if before.Some? then before.value.createdAt else now, now)) else before
    case _ => before
  }

  function YamlOf(h: seq<Entry>, name: string): Option<ClusterYAML> {
    if h == [] then None else YamlThen(YamlOf(h[..|h| - 1], name), h[|h| - 1].op, h[|h| - 1].now, name)
  }

  function HistoryThen(before: Option<ClusterHistory>, op: Op, now: int, name: string): Option<ClusterHistory> {
    match op
    case RecordClusterHistory(r) =>
      if r.clusterName != name then before
      else if before.Some? then
        Some(ClusterHistory(before.value.clusterName, r.facts, r.launchedAt, before.value.createdAt, now))
      else
        Some(ClusterHistory(name, r.facts, if r.launchedAt == 0 then now else r.launchedAt,
                            if r.createdAt == 0 then now else r.createdAt, now))
    case _ => before
  }

  function HistoryOf(h: seq<Entry>, name: string): Option<ClusterHistory> {
    if h == [] then None else HistoryThen(HistoryOf(h[..|h| - 1], name), h[|h| - 1].op, h[|h| - 1].now, name)
  }

  function ConfigThen(before: Option<ConfigEntry>, op: Op, now: int, key: string): Option<ConfigEntry> {
    match op
    case SetConfig(k, value) =>
      if k == key then Some(ConfigEntry(if before.Some? then before.value.key else key, value,
                                        if before.Some? then before.value.createdAt else now, now))
      else before
    case _ => before
  }

  function ConfigOf(h: seq<Entry>, key: string): Option<ConfigEntry> {
    if h == [] then None else ConfigThen(ConfigOf(h[..|h| - 1], key), h[|h| - 1].op, h[|h| - 1].now, key)
  }

  // All events in order, each with its own time or, lacking one, the clock's.
  function EventsThen(before: seq<ClusterEvent>, op: Op, now: int): seq<ClusterEvent> {
    match op
    case AddClusterEvent(e) =>
      before + [ClusterEvent(e.clusterName, e.detail, if e.transitionedAt == 0 then now else e.transitionedAt)]
    case _ => before
  }

  function EventsOf(h: seq<Entry>): seq<ClusterEvent> {
    if h == [] then [] else EventsThen(EventsOf(h[..|h| - 1]), h[|h| - 1].op, h[|h| - 1].now)
  }

  /******* Memory holds just that *******/

  function Lookup<V>(m: map<string, V>, name: string): Option<V> {
    if name in m then Some(m[name]) else None
  }

  lemma ClusterChanges(s: Snapshot, op: Op, now: int, name: string)
    ensures Lookup(Called(s, op, now).clusters, name) == ClusterThen(Lookup(s.clusters, name), op, now, name)
  {
    if TargetOf(op) != 0 && Effect(s, op, now).Some? {
      OthersUntouched(s, op, now, 0);
    }
  }

  lemma {:induction false} ClusterHeld(h: seq<Entry>, name: string)
    ensures Lookup(After(h).clusters, name) == ClusterOf(h, name)
  {
    if h != [] {
      ClusterHeld(h[..|h| - 1], name);
      ClusterChanges(After(h[..|h| - 1]), h[|h| - 1].op, h[|h| - 1].now, name);
    }
  }

  lemma ServiceChanges(s: Snapshot, op: Op, now: int, name: string)
    ensures Lookup(Called(s, op, now).services, name) == ServiceThen(Lookup(s.services, name), op, now, name)
  {
    if TargetOf(op) != 1 && Effect(s, op, now).Some? {
      OthersUntouched(s, op, now, 1);
    }
  }

  lemma {:induction false} ServiceHeld(h: seq<Entry>, name: string)
    ensures Lookup(After(h).services, name) == ServiceOf(h, name)
  {
    if h != [] {
      ServiceHeld(h[..|h| - 1], name);
      ServiceChanges(After(h[..|h| - 1]), h[|h| - 1].op, h[|h| - 1].now, name);
    }
  }

  lemma JobChanges(s: Snapshot, op: Op, now: int, name: string)
    ensures Lookup(Called(s, op, now).jobs, name) == JobThen(Lookup(s.jobs, name), op, now, name)
  {
    if TargetOf(op) != 2 && Effect(s, op, now).Some? {
      OthersUntouched(s, op, now, 2);
    }
  }

  lemma {:induction false} JobHeld(h: seq<Entry>, name: string)
    ensures Lookup(After(h).jobs, name) == JobOf(h, name)
  {
    if h != [] {
      JobHeld(h[..|h| - 1], name);
      JobChanges(After(h[..|h| - 1]), h[|h| - 1].op, h[|h| - 1].now, name);
    }
  }

  lemma YamlChanges(s: Snapshot, op: Op, now: int, name: string)
    ensures Lookup(Called(s, op, now).yamls, name) == YamlThen(Lookup(s.yamls, name), op, now, name)
  {
    if TargetOf(op) != 3 && Effect(s, op, now).Some? {
      OthersUntouched(s, op, now, 3);
    }
  }

  lemma {:induction false} YamlHeld(h: seq<Entry>, name: string)
    ensures Lookup(After(h).yamls, name) == YamlOf(h, name)
  {
    if h != [] {
      YamlHeld(h[..|h| - 1], name);
      YamlChanges(After(h[..|h| - 1]), h[|h| - 1].op, h[|h| - 1].now, name);
    }
  }

  lemma HistoryChanges(s: Snapshot, op: Op, now: int, name: string)
    ensures Lookup(Called(s, op, now).history, name) == HistoryThen(Lookup(s.history, name), op, now, name)
  {
    if TargetOf(op) != 4 && Effect(s, op, now).Some? {
      OthersUntouched(s, op, now, 4);
    }
  }

  lemma {:induction false} HistoryHeld(h: seq<Entry>, name: string)
    ensures Lookup(After(h).history, name) == HistoryOf(h, name)
  {
    if h != [] {
      HistoryHeld(h[..|h| - 1], name);
      HistoryChanges(After(h[..|h| - 1]), h[|h| - 1].op, h[|h| - 1].now, name);
    }
  }

  lemma ConfigChanges(s: Snapshot, op: Op, now: int, key: string)
    ensures Lookup(Called(s, op, now).config, key) == ConfigThen(Lookup(s.config, key), op, now, key)
  {
    if TargetOf(op) != 6 && Effect(s, op, now).Some? {
      OthersUntouched(s, op, now, 6);
    }
  }

  lemma {:induction false} ConfigHeld(h: seq<Entry>, key: string)
    ensures Lookup(After(h).config, key) == ConfigOf(h, key)
  {
    if h != [] {
      ConfigHeld(h[..|h| - 1], key);
      ConfigChanges(After(h[..|h| - 1]), h[|h| - 1].op, h[|h| - 1].now, key);
    }
  }

  lemma EventsChange(s: Snapshot, op: Op, now: int)
    ensures Called(s, op, now).events == EventsThen(s.events, op, now)
  {
    if TargetOf(op) != 5 && Effect(s, op, now).Some? {
      OthersUntouched(s, op, now, 5);
    }
  }

  lemma {:induction false} EventsHeld(h: seq<Entry>)
    ensures After(h).events == EventsOf(h)
  {
    if h != [] {
      EventsHeld(h[..|h| - 1]);
      EventsChange(After(h[..|h| - 1]), h[|h| - 1].op, h[|h| - 1].now);
    }
  }

  // The calls for tokens do to the list what the token table's do.
  lemma TokensChange(s: Snapshot, op: Op, now: int)
    ensures op.CreateToken? ==> Called(s, op, now).tokens == s.tokens + [op.token]
    ensures op.RotateToken? ==> Called(s, op, now).tokens == Rotated(s.tokens, op.name, op.hash, op.expiresAt, now)
    ensures op.DeleteToken? ==> Called(s, op, now).tokens == Deleted(s.tokens, op.name)
    ensures op.MarkTokenUsed? ==> Called(s, op, now).tokens == Used(s.tokens, op.name, now)
    ensures TargetOf(op) != 7 ==> Called(s, op, now).tokens == s.tokens
  {
    if TargetOf(op) != 7 && Effect(s, op, now).Some? {
      OthersUntouched(s, op, now, 7);
    }
  }

  /******* Every call succeeds when it should *******/

  // The call adds a name that is there, or updates, deletes, rotates or marks one
  // that is not, or its callback fails.
  predicate Refused(h: seq<Entry>, op: Op) {
    match op
    case AddCluster(rec) => ClusterOf(h, rec.name).Some?
    case UpdateCluster(n, fn) => ClusterOf(h, n).None? || fn(ClusterOf(h, n).value).None?
    case DeleteCluster(n) => ClusterOf(h, n).None?
    case AddService(rec) => ServiceOf(h, rec.name).Some?
    case UpdateService(n, fn) => ServiceOf(h, n).None? || fn(ServiceOf(h, n).value).None?
    case DeleteService(n) => ServiceOf(h, n).None?
    case AddJob(rec) => JobOf(h, rec.name).Some?
    case UpdateJob(n, fn) => JobOf(h, n).None? || fn(JobOf(h, n).value).None?
    case RotateToken(id, _, _) => forall t <- After(h).tokens :: t.id != id
    case DeleteToken(id) => forall t <- After(h).tokens :: t.id != id
    case MarkTokenUsed(id) => forall t <- After(h).tokens :: t.id != id
    case _ => false
  }

  // A call returns without saving exactly then.
  lemma RefusedExactly(h: seq<Entry>, op: Op, now: int)
    ensures Effect(After(h), op, now).None? <==> Refused(h, op)
  {
    match op {
      case AddCluster(rec) => ClusterHeld(h, rec.name);
      case UpdateCluster(n, fn) => ClusterHeld(h, n);
      case DeleteCluster(n) => ClusterHeld(h, n);
      case AddService(rec) => ServiceHeld(h, rec.name);
      case UpdateService(n, fn) => ServiceHeld(h, n);
      case DeleteService(n) => ServiceHeld(h, n);
      case AddJob(rec) => JobHeld(h, rec.name);
      case UpdateJob(n, fn) => JobHeld(h, n);
      case _ =>
    }
  }
}
