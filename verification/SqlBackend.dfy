// The SQL backend: a table per collection, replaced as a whole in one
// transaction, and read back in whatever order the database answers.
module SqlBackend {
  import opened Text
  import opened Bags
  import opened StableSort
  import opened Tokens
  import opened Store

  // A row of clusters, services or jobs: data holds the whole entity, status
  // stands for the indexed copies.
  datatype KeyedRow = KeyedRow(name: string, status: string, data: Record, createdAt: int, updatedAt: int)

  // A token row has no column for Active.
  datatype TokenRow = TokenRow(id: string, name: string, hash: string, createdAt: int, lastUsedAt: int, expiresAt: int,
                               creator: string)

  datatype Tables = Tables(clusters: seq<KeyedRow>, services: seq<KeyedRow>, jobs: seq<KeyedRow>,
                           yamls: seq<ClusterYAML>, history: seq<ClusterHistory>, events: seq<ClusterEvent>,
                           config: seq<ConfigEntry>, tokens: seq<TokenRow>)

  const NO_ROWS := Tables([], [], [], [], [], [], [], [])

  /******* Rows *******/

  function KeyedRowOf(name: string, rec: Record, now: int): KeyedRow {
    KeyedRow(name, rec.status, rec, if rec.createdAt > 0 then rec.createdAt else now,
             if rec.updatedAt > 0 then rec.updatedAt else now)
  }

  // The time columns carry the entity's times, or the save's when it has none.
  lemma TimeColumns(name: string, rec: Record, now: int)
    ensures var row := KeyedRowOf(name, rec, now);
            && row.name == name && row.data == rec && row.status == rec.status
            && (rec.createdAt > 0 ==> row.createdAt == rec.createdAt) && (rec.createdAt <= 0 ==> row.createdAt == now)
            && (rec.updatedAt > 0 ==> row.updatedAt == rec.updatedAt) && (rec.updatedAt <= 0 ==> row.updatedAt == now)
  {
  }

  function Stored(t: Token): TokenRow {
    TokenRow(t.id, t.name, t.hash, t.createdAt, t.lastUsedAt, t.expiresAt, t.creator)
  }

  function Restored(r: TokenRow, now: int): Token {
    var t := Token(r.id, r.name, r.hash, r.createdAt, r.lastUsedAt, r.expiresAt, r.creator, false);
    t.(active := !Expired(t, now))
  }

  function Rows(tokens: seq<Token>): (rows: seq<TokenRow>)
    ensures |rows| == |tokens| && forall i :: 0 <= i < |tokens| ==> rows[i] == Stored(tokens[i])
  {
    seq(|tokens|, i requires 0 <= i < |tokens| => Stored(tokens[i]))
  }

  // The key column of each kind of row, and the entity it carries.
  const ROW_NAME := (r: KeyedRow) => r.name
  const ROW_DATA := (r: KeyedRow) => r.data
  const YAML_NAME := (y: ClusterYAML) => y.clusterName
  const HISTORY_NAME := (h: ClusterHistory) => h.clusterName
  const CONFIG_NAME := (c: ConfigEntry) => c.key

  function Itself<T>(): T -> T {
    x => x
  }

  // The unique constraints.
  function ByKey<R>(key: R -> string): (R, R) -> bool {
    (a, b) => key(a) == key(b)
  }

  predicate TokenClash(a: TokenRow, b: TokenRow) {
    a.id == b.id || a.hash == b.hash
  }

  predicate NoClash<R>(rows: seq<R>, clash: (R, R) -> bool) {
    forall i, j :: 0 <= i < j < |rows| ==> !clash(rows[i], rows[j])
  }

  /******* Transactions *******/

  // Deletes every row, inserts the new ones and commits, statement by statement.
  // A failing statement or a broken constraint rolls everything back.
  method ReplaceAll<Row>(rows: seq<Row>, next: seq<Row>, clash: (Row, Row) -> bool, fails: nat -> bool)
    returns (ok: bool, after: seq<Row>)
    ensures ok <==> NoClash(next, clash) && forall i :: 0 <= i <= |next| + 1 ==> !fails(i)
    ensures after == if ok then next else rows
  {
    if fails(0) {
      return false, rows;
    }
    var pending: seq<Row> := [];
    for i := 0 to |next|
      invariant pending == next[..i] && NoClash(pending, clash)
      invariant forall j :: 0 <= j <= i ==> !fails(j)
    {
      if fails(i + 1) {
        return false, rows;
      }
      if j: nat :| j < |pending| && clash(pending[j], next[i]) {
        assert clash(next[j], next[i]);
        return false, rows;
      }
      pending := pending + [next[i]];
    }
    if fails(|next| + 1) {
      return false, rows;
    }
    return true, pending;
  }

  // One of the statements of a save of n rows fails: the deletion, an insertion or
  // the commit.
  predicate SomeFails(fails: nat -> bool, n: nat) {
    exists i :: 0 <= i <= n + 1 && fails(i)
  }

  // The rows a map is written as, its entries visited in some order.
  ghost predicate RowsOf<R, V>(rows: seq<R>, m: map<string, V>, row: (string, V) -> R) {
    exists order :: RowsInOrder(rows, m, row, order)
  }

  ghost predicate RowsInOrder<R, V>(rows: seq<R>, m: map<string, V>, row: (string, V) -> R, order: seq<string>) {
    && Enumerates(order, m.Keys) && |rows| == |order|
    && forall i :: 0 <= i < |order| ==> order[i] in m && rows[i] == row(order[i], m[order[i]])
  }

  // Two entries would be written under one key.
  ghost predicate MapClash<R, V>(m: map<string, V>, row: (string, V) -> R, key: R -> string) {
    exists k, l :: SharedKey(m, row, key, k, l)
  }

  ghost predicate SharedKey<R, V>(m: map<string, V>, row: (string, V) -> R, key: R -> string, k: string, l: string) {
    k in m && l in m && k != l && key(row(k, m[k])) == key(row(l, m[l]))
  }

  lemma ClashFound<R, V>(rows: seq<R>, m: map<string, V>, row: (string, V) -> R, key: R -> string)
    requires RowsOf(rows, m, row)
    ensures MapClash(m, row, key) ==> !NoClash(rows, ByKey(key))
  {
    if MapClash(m, row, key) {
      var order :| RowsInOrder(rows, m, row, order);
      var k, l :| SharedKey(m, row, key, k, l);
      assert k in order && l in order;
      var i :| 0 <= i < |order| && order[i] == k;
      var j :| 0 <= j < |order| && order[j] == l;
      assert key(rows[i]) == key(rows[j]);
      TwoInOrder(rows, key, i, j);
    }
  }

  lemma TwoInOrder<R>(rows: seq<R>, key: R -> string, i: nat, j: nat)
    requires i < |rows| && j < |rows| && i != j && key(rows[i]) == key(rows[j])
    ensures !NoClash(rows, ByKey(key))
  {
    if i < j {
      assert ByKey(key)(rows[i], rows[j]);
    } else {
      assert ByKey(key)(rows[j], rows[i]);
    }
  }

  lemma ClashFree<R, V>(rows: seq<R>, m: map<string, V>, row: (string, V) -> R, key: R -> string)
    requires RowsOf(rows, m, row)
    ensures NoClash(rows, ByKey(key)) <==> !MapClash(m, row, key)
  {
    ClashFound(rows, m, row, key);
    if !MapClash(m, row, key) {
      var order :| RowsInOrder(rows, m, row, order);
      forall i, j | 0 <= i < j < |rows|
        ensures !ByKey(key)(rows[i], rows[j])
      {
        assert !SharedKey(m, row, key, order[i], order[j]);
      }
    }
  }

  // Writes a map: clusters, services and jobs under the map's keys, the others
  // under their records' own names.
  method SaveMap<R, V>(rows: seq<R>, items: map<string, V>, row: (string, V) -> R, key: R -> string, fails: nat -> bool)
    returns (ok: bool, after: seq<R>)
    ensures ok ==> RowsOf(after, items, row) && !MapClash(items, row, key)
    ensures !ok ==> after == rows && (MapClash(items, row, key) || SomeFails(fails, |items|))
  {
    var order := KeysOf(items);
    EnumerationSize(order, items.Keys);
    assert |items| == |items.Keys|;
    var next := seq(|order|, i requires 0 <= i < |order| => row(order[i], items[order[i]]));
    assert RowsInOrder(next, items, row, order);
    ClashFree(next, items, row, key);
    ok, after := ReplaceAll(rows, next, ByKey(key), fails);
  }

  /******* Reading back *******/

  // The map filled row by row; a later row overwrites an earlier one.
  function Filled<R, V>(rows: seq<R>, key: R -> string, val: R -> V): map<string, V> {
    if rows == [] then map[] else Filled(rows[..|rows| - 1], key, val)[key(rows[|rows| - 1]) := val(rows[|rows| - 1])]
  }

  method Load<R, V>(answer: seq<R>, key: R -> string, val: R -> V) returns (m: map<string, V>)
    ensures m == Filled(answer, key, val)
  {
    m := map[];
    for i := 0 to |answer|
      invariant m == Filled(answer[..i], key, val)
    {
      assert answer[..i + 1][..i] == answer[..i];
      m := m[key(answer[i]) := val(answer[i])];
    }
    assert answer[..|answer|] == answer;
  }

  method LoadTokens(answer: seq<TokenRow>, now: int) returns (tokens: seq<Token>)
    ensures tokens == RestoredAll(answer, now)
  {
    tokens := [];
    for i := 0 to |answer|
      invariant tokens == RestoredAll(answer, now)[..i]
    {
      var r := answer[i];
      var t := Token(r.id, r.name, r.hash, r.createdAt, r.lastUsedAt, r.expiresAt, r.creator, false);
      tokens := tokens + [t.(active := !Expired(t, now))];
    }
  }

  function RestoredAll(rows: seq<TokenRow>, now: int): (tokens: seq<Token>)
    ensures |tokens| == |rows|
  {
    seq(|rows|, i requires 0 <= i < |rows| => Restored(rows[i], now))
  }

  // The rows carry exactly the entries of the map.
  ghost predicate Holds<R, V>(rows: seq<R>, m: map<string, V>, key: R -> string, val: R -> V) {
    && (forall r :: r in rows ==> key(r) in m && m[key(r)] == val(r))
    && (forall k :: k in m ==> exists r :: r in rows && key(r) == k)
  }

  predicate Named<V>(m: map<string, V>, key: V -> string) {
    forall k <- m :: key(m[k]) == k
  }

  // Some row has key k and carries v.
  ghost predicate Supplies<R, V>(rows: seq<R>, key: R -> string, val: R -> V, k: string, v: V) {
    exists r :: r in rows && key(r) == k && val(r) == v
  }

  lemma {:induction false} FilledEntries<R, V>(rows: seq<R>, key: R -> string, val: R -> V)
    ensures forall k :: k in Filled(rows, key, val) ==> Supplies(rows, key, val, k, Filled(rows, key, val)[k])
    ensures forall r :: r in rows ==> key(r) in Filled(rows, key, val)
  {
    if rows != [] {
      var before, last := rows[..|rows| - 1], rows[|rows| - 1];
      FilledEntries(before, key, val);
      assert rows == before + [last];
      forall k | k in Filled(rows, key, val)
        ensures Supplies(rows, key, val, k, Filled(rows, key, val)[k])
      {
        if k == key(last) {
          assert last in rows;
        } else {
          assert Supplies(before, key, val, k, Filled(before, key, val)[k]);
        }
      }
    }
  }

  // Whatever order the rows come in, a table that holds a map reads back as it.
  lemma HeldMapReadsBack<R, V>(rows: seq<R>, answer: seq<R>, m: map<string, V>, key: R -> string, val: R -> V)
    requires Holds(rows, m, key, val) && multiset(answer) == multiset(rows)
    ensures Filled(answer, key, val) == m
  {
    SameElements(answer, rows);
    FilledEntries(answer, key, val);
    var got := Filled(answer, key, val);
    forall k | k in m
      ensures k in got
    {
      var r :| r in rows && key(r) == k;
      assert r in answer;
    }
    forall k | k in got
      ensures k in m && got[k] == m[k]
    {
      assert Supplies(answer, key, val, k, got[k]);
    }
  }

  // What is read back is held by the table, given its constraint.
  lemma ReadBackIsHeld<R, V>(rows: seq<R>, answer: seq<R>, key: R -> string, val: R -> V)
    requires NoClash(rows, ByKey(key)) && multiset(answer) == multiset(rows)
    ensures Holds(rows, Filled(answer, key, val), key, val)
  {
    SameElements(answer, rows);
    FilledEntries(answer, key, val);
    forall r | r in rows
      ensures Filled(answer, key, val)[key(r)] == val(r)
    {
      assert r in answer;
      assert Supplies(answer, key, val, key(r), Filled(answer, key, val)[key(r)]);
      var other :| other in answer && key(other) == key(r) && val(other) == Filled(answer, key, val)[key(r)];
      var i :| 0 <= i < |rows| && rows[i] == r;
      var j :| 0 <= j < |rows| && rows[j] == other;
      assert !ByKey(key)(rows[if i < j then i else j], rows[if i < j then j else i]) || i == j;
    }
  }

  // A map saved under its records' own names reads back unchanged exactly when
  // every key is its record's name.
  lemma NamedRoundTripExactly<V>(items: map<string, V>, rows: seq<V>, answer: seq<V>, key: V -> string)
    requires RowsOf(rows, items, Second()) && multiset(answer) == multiset(rows)
    ensures Filled(answer, key, Itself()) == items <==> Named(items, key)
  {
    FilledEntries(answer, key, Itself());
    if Named(items, key) {
      NamedRowsHold(rows, items, key);
      HeldMapReadsBack(rows, answer, items, key, Itself());
    }
  }

  function Second<V>(): (string, V) -> V {
    (k, v) => v
  }

  // Rows written from a map hold it, when each is written under its entry's key.
  lemma RowsHold<R, V>(rows: seq<R>, m: map<string, V>, row: (string, V) -> R, key: R -> string, val: R -> V)
    requires RowsOf(rows, m, row)
    requires forall k :: k in m ==> key(row(k, m[k])) == k && val(row(k, m[k])) == m[k]
    ensures Holds(rows, m, key, val) && !MapClash(m, row, key)
  {
    var order :| RowsInOrder(rows, m, row, order);
    forall k | k in m
      ensures exists r :: r in rows && key(r) == k
    {
      var i :| 0 <= i < |order| && order[i] == k;
      assert rows[i] in rows && key(rows[i]) == k;
    }
  }

  lemma NamedRowsHold<V>(rows: seq<V>, m: map<string, V>, key: V -> string)
    requires RowsOf(rows, m, Second()) && Named(m, key)
    ensures Holds(rows, m, key, Itself()) && !MapClash(m, Second(), key)
  {
    RowsHold(rows, m, Second(), key, Itself());
  }

  lemma KeyedRowsHold(rows: seq<KeyedRow>, m: map<string, Record>, now: int)
    requires RowsOf(rows, m, KeyedRowAt(now))
    ensures Holds(rows, m, ROW_NAME, ROW_DATA) && !MapClash(m, KeyedRowAt(now), ROW_NAME)
  {
    RowsHold(rows, m, KeyedRowAt(now), ROW_NAME, ROW_DATA);
  }

  function KeyedRowAt(now: int): (string, Record) -> KeyedRow {
    (name, rec) => KeyedRowOf(name, rec, now)
  }

  /******* The whole database *******/

  ghost predicate HoldsAt(db: Tables, mem: Snapshot, i: nat) {
    && (i == 0 ==> Holds(db.clusters, mem.clusters, ROW_NAME, ROW_DATA))
    && (i == 1 ==> Holds(db.services, mem.services, ROW_NAME, ROW_DATA))
    && (i == 2 ==> Holds(db.jobs, mem.jobs, ROW_NAME, ROW_DATA))
    && (i == 3 ==> Holds(db.yamls, mem.yamls, YAML_NAME, Itself()))
    && (i == 4 ==> Holds(db.history, mem.history, HISTORY_NAME, Itself()))
    && (i == 5 ==> multiset(db.events) == multiset(mem.events))
    && (i == 6 ==> Holds(db.config, mem.config, CONFIG_NAME, Itself()))
    && (i == 7 ==> multiset(db.tokens) == multiset(Rows(mem.tokens)))
  }

  ghost predicate Saved(db: Tables, mem: Snapshot) {
    forall i: nat :: i < STEPS ==> HoldsAt(db, mem, i)
  }

  predicate SameTable(a: Tables, b: Tables, i: nat) {
    && (i == 0 ==> a.clusters == b.clusters) && (i == 1 ==> a.services == b.services)
    && (i == 2 ==> a.jobs == b.jobs) && (i == 3 ==> a.yamls == b.yamls)
    && (i == 4 ==> a.history == b.history) && (i == 5 ==> a.events == b.events)
    && (i == 6 ==> a.config == b.config) && (i == 7 ==> a.tokens == b.tokens)
  }

  // What one save transaction writes: the rows of one collection.
  ghost predicate WrittenAt(db: Tables, mem: Snapshot, now: int, i: nat) {
    && (i == 0 ==> RowsOf(db.clusters, mem.clusters, KeyedRowAt(now)))
    && (i == 1 ==> RowsOf(db.services, mem.services, KeyedRowAt(now)))
    && (i == 2 ==> RowsOf(db.jobs, mem.jobs, KeyedRowAt(now)))
    && (i == 3 ==> RowsOf(db.yamls, mem.yamls, Second()))
    && (i == 4 ==> RowsOf(db.history, mem.history, Second()))
    && (i == 5 ==> db.events == mem.events)
    && (i == 6 ==> RowsOf(db.config, mem.config, Second()))
    && (i == 7 ==> db.tokens == Rows(mem.tokens))
  }

  // The rows of one collection break a constraint of their table.
  ghost predicate ClashAt(mem: Snapshot, now: int, i: nat) {
    || (i == 0 && MapClash(mem.clusters, KeyedRowAt(now), ROW_NAME))
    || (i == 1 && MapClash(mem.services, KeyedRowAt(now), ROW_NAME))
    || (i == 2 && MapClash(mem.jobs, KeyedRowAt(now), ROW_NAME))
    || (i == 3 && MapClash(mem.yamls, Second(), YAML_NAME))
    || (i == 4 && MapClash(mem.history, Second(), HISTORY_NAME))
    || (i == 6 && MapClash(mem.config, Second(), CONFIG_NAME))
    || (i == 7 && !NoClash(Rows(mem.tokens), TokenClash))
  }

  // How many rows a collection is written as.
  function SizeAt(mem: Snapshot, i: nat): nat {
    match i
    case 0 => |mem.clusters|
    case 1 => |mem.services|
    case 2 => |mem.jobs|
    case 3 => |mem.yamls|
    case 4 => |mem.history|
    case 5 => |mem.events|
    case 6 => |mem.config|
    case _ => |mem.tokens|
  }

  // A save that got through the first n tables: each was free of clashes and now
  // has the rows of its collection; the rest are untouched.
  ghost predicate SavedUpTo(db: Tables, mem: Snapshot, now: int, n: nat, db': Tables) {
    && n <= STEPS
    && (forall i: nat :: i < n ==> WrittenAt(db', mem, now, i) && !ClashAt(mem, now, i))
    && (forall i: nat :: n <= i < STEPS ==> SameTable(db', db, i))
  }

  lemma StillWritten(a: Tables, b: Tables, mem: Snapshot, now: int, i: nat)
    requires SameTable(a, b, i) && WrittenAt(b, mem, now, i)
    ensures WrittenAt(a, mem, now, i)
  {
  }

  lemma OneMoreSaved(db: Tables, mid: Tables, mem: Snapshot, now: int, n: nat, db': Tables)
    requires SavedUpTo(db, mem, now, n, mid) && n < STEPS
    requires WrittenAt(db', mem, now, n) && !ClashAt(mem, now, n)
    requires forall j: nat :: j < STEPS && j != n ==> SameTable(db', mid, j)
    ensures SavedUpTo(db, mem, now, n + 1, db')
  {
    forall i: nat | i < n
      ensures WrittenAt(db', mem, now, i)
    {
      StillWritten(db', mid, mem, now, i);
    }
    forall i: nat | n < i < STEPS
      ensures SameTable(db', db, i)
    {
      assert SameTable(db', mid, i) && SameTable(mid, db, i);
    }
  }

  class Database {
    var clusters: seq<KeyedRow>
    var services: seq<KeyedRow>
    var jobs: seq<KeyedRow>
    var yamls: seq<ClusterYAML>
    var history: seq<ClusterHistory>
    var events: seq<ClusterEvent>
    var config: seq<ConfigEntry>
    var tokens: seq<TokenRow>

    function Content(): Tables
      reads this
    {
      Tables(clusters, services, jobs, yamls, history, events, config, tokens)
    }

    constructor ()
      ensures Content() == NO_ROWS
    {
      clusters, services, jobs, yamls, history, events, config, tokens := [], [], [], [], [], [], [], [];
    }

    // One of the eight saves; fails says which of its statements do.
    method SaveTable(i: nat, mem: Snapshot, now: int, fails: nat -> bool) returns (ok: bool)
      requires i < STEPS
      modifies this
      ensures ok ==> WrittenAt(Content(), mem, now, i) && !ClashAt(mem, now, i)
      ensures ok ==> forall j: nat :: j < STEPS && j != i ==> SameTable(Content(), old(Content()), j)
      ensures !ok ==> Content() == old(Content()) && (ClashAt(mem, now, i) || SomeFails(fails, SizeAt(mem, i)))
    {
      match i {
        case 0 => ok, clusters := SaveMap(clusters, mem.clusters, KeyedRowAt(now), ROW_NAME, fails);
        case 1 => ok, services := SaveMap(services, mem.services, KeyedRowAt(now), ROW_NAME, fails);
        case 2 => ok, jobs := SaveMap(jobs, mem.jobs, KeyedRowAt(now), ROW_NAME, fails);
        case 3 => ok, yamls := SaveMap(yamls, mem.yamls, Second(), YAML_NAME, fails);
        case 4 => ok, history := SaveMap(history, mem.history, Second(), HISTORY_NAME, fails);
        case 5 => ok, events := ReplaceAll(events, mem.events, (a, b) => false, fails);
        case 6 => ok, config := SaveMap(config, mem.config, Second(), CONFIG_NAME, fails);
        case _ => ok, tokens := ReplaceAll(tokens, Rows(mem.tokens), TokenClash, fails);
      }
    }

    // The eight saves in order, up to the first that fails. It fails when a
    // statement does (fails names the table and the statement) or on a clash.
    method SaveAll(mem: Snapshot, now: int, fails: (nat, nat) -> bool) returns (n: nat)
      modifies this
      ensures SavedUpTo(old(Content()), mem, now, n, Content())
      ensures n < STEPS ==> ClashAt(mem, now, n) || SomeFails((j: nat) => fails(n, j), SizeAt(mem, n))
    {
      for i := 0 to STEPS
        invariant SavedUpTo(old(Content()), mem, now, i, Content())
      {
        ghost var before := Content();
        var ok := SaveTable(i, mem, now, (j: nat) => fails(i, j));
        if !ok {
          return i;
        }
        OneMoreSaved(old(Content()), before, mem, now, i, Content());
      }
      return STEPS;
    }

    // The eight loads in order; ans is what the queries answer.
    method OpenAll(ans: Tables, now: int) returns (s: Snapshot)
      requires Answers(Content(), ans)
      ensures s == Opened(ans, now)
    {
      var cs := Load(ans.clusters, ROW_NAME, ROW_DATA);
      var ss := Load(ans.services, ROW_NAME, ROW_DATA);
      var js := Load(ans.jobs, ROW_NAME, ROW_DATA);
      var ys := Load(ans.yamls, YAML_NAME, Itself());
      var hs := Load(ans.history, HISTORY_NAME, Itself());
      var conf := Load(ans.config, CONFIG_NAME, Itself());
      var ts := LoadTokens(ans.tokens, now);
      return Snapshot(cs, ss, js, ys, hs, ans.events, conf, ts);
    }
  }

  ghost predicate ConstrainedAt(db: Tables, i: nat) {
    && (i == 0 ==> NoClash(db.clusters, ByKey(ROW_NAME)))
    && (i == 1 ==> NoClash(db.services, ByKey(ROW_NAME)))
    && (i == 2 ==> NoClash(db.jobs, ByKey(ROW_NAME)))
    && (i == 3 ==> NoClash(db.yamls, ByKey(YAML_NAME)))
    && (i == 4 ==> NoClash(db.history, ByKey(HISTORY_NAME)))
    && (i == 6 ==> NoClash(db.config, ByKey(CONFIG_NAME)))
    && (i == 7 ==> NoClash(db.tokens, TokenClash))
  }

  ghost predicate Constrained(db: Tables) {
    forall i: nat :: i < STEPS ==> ConstrainedAt(db, i)
  }

  predicate KeyedByName(s: Snapshot) {
    Named(s.yamls, YAML_NAME) && Named(s.history, HISTORY_NAME) && Named(s.config, CONFIG_NAME)
  }

  predicate ByTime(events: seq<ClusterEvent>) {
    forall i, j :: 0 <= i < j < |events| ==> events[i].transitionedAt <= events[j].transitionedAt
  }

  predicate ByCreation(rows: seq<TokenRow>) {
    forall i, j :: 0 <= i < j < |rows| ==> rows[i].createdAt <= rows[j].createdAt
  }

  // What the database may answer when everything is read back.
  ghost predicate Answers(db: Tables, ans: Tables) {
    && multiset(ans.clusters) == multiset(db.clusters) && multiset(ans.services) == multiset(db.services)
    && multiset(ans.jobs) == multiset(db.jobs) && multiset(ans.yamls) == multiset(db.yamls)
    && multiset(ans.history) == multiset(db.history) && multiset(ans.config) == multiset(db.config)
    && multiset(ans.events) == multiset(db.events) && ByTime(ans.events)
    && multiset(ans.tokens) == multiset(db.tokens) && ByCreation(ans.tokens)
  }

  function Opened(ans: Tables, now: int): Snapshot {
    Snapshot(Filled(ans.clusters, ROW_NAME, ROW_DATA), Filled(ans.services, ROW_NAME, ROW_DATA),
             Filled(ans.jobs, ROW_NAME, ROW_DATA), Filled(ans.yamls, YAML_NAME, Itself()),
             Filled(ans.history, HISTORY_NAME, Itself()), ans.events,
             Filled(ans.config, CONFIG_NAME, Itself()), RestoredAll(ans.tokens, now))
  }

  lemma OpenedTokens(rows: seq<TokenRow>, now: int)
    ensures Rows(RestoredAll(rows, now)) == rows
  {
  }

  // Opening a database that holds a state gives its maps back, and its events
  // and tokens as the same multisets in time order; Active is worked out afresh.
  lemma ReopenYieldsSame(mem: Snapshot, db: Tables, ans: Tables, now: int)
    requires Saved(db, mem) && Answers(db, ans)
    ensures var s := Opened(ans, now);
            && s == mem.(events := s.events, tokens := s.tokens)
            && multiset(s.events) == multiset(mem.events) && ByTime(s.events)
            && multiset(Rows(s.tokens)) == multiset(Rows(mem.tokens))
            && ByCreation(Rows(s.tokens))
            && forall t <- s.tokens :: t.active == !Expired(t, now)
  {
    assert HoldsAt(db, mem, 0) && HoldsAt(db, mem, 1) && HoldsAt(db, mem, 2) && HoldsAt(db, mem, 3)
        && HoldsAt(db, mem, 4) && HoldsAt(db, mem, 5) && HoldsAt(db, mem, 6) && HoldsAt(db, mem, 7);
    HeldMapReadsBack(db.clusters, ans.clusters, mem.clusters, ROW_NAME, ROW_DATA);
    HeldMapReadsBack(db.services, ans.services, mem.services, ROW_NAME, ROW_DATA);
    HeldMapReadsBack(db.jobs, ans.jobs, mem.jobs, ROW_NAME, ROW_DATA);
    HeldMapReadsBack(db.yamls, ans.yamls, mem.yamls, YAML_NAME, Itself());
    HeldMapReadsBack(db.history, ans.history, mem.history, HISTORY_NAME, Itself());
    HeldMapReadsBack(db.config, ans.config, mem.config, CONFIG_NAME, Itself());
    OpenedTokens(ans.tokens, now);
  }

  lemma OpenedIsSaved(db: Tables, ans: Tables, now: int)
    requires Constrained(db) && Answers(db, ans)
    ensures Saved(db, Opened(ans, now)) && KeyedByName(Opened(ans, now))
  {
    assert ConstrainedAt(db, 0) && ConstrainedAt(db, 1) && ConstrainedAt(db, 2) && ConstrainedAt(db, 3)
        && ConstrainedAt(db, 4) && ConstrainedAt(db, 6);
    ReadBackIsHeld(db.clusters, ans.clusters, ROW_NAME, ROW_DATA);
    ReadBackIsHeld(db.services, ans.services, ROW_NAME, ROW_DATA);
    ReadBackIsHeld(db.jobs, ans.jobs, ROW_NAME, ROW_DATA);
    ReadBackIsHeld(db.yamls, ans.yamls, YAML_NAME, Itself());
    ReadBackIsHeld(db.history, ans.history, HISTORY_NAME, Itself());
    ReadBackIsHeld(db.config, ans.config, CONFIG_NAME, Itself());
    OpenedTokens(ans.tokens, now);
    FilledIsNamed(ans.yamls, YAML_NAME);
    FilledIsNamed(ans.history, HISTORY_NAME);
    FilledIsNamed(ans.config, CONFIG_NAME);
  }

  lemma FilledIsNamed<V>(rows: seq<V>, key: V -> string)
    ensures Named(Filled(rows, key, Itself()), key)
  {
    FilledEntries(rows, key, Itself());
  }

  /******* One save *******/

  // With every key its record's name, what is written holds the collection.
  lemma WrittenIsHeld(db: Tables, mem: Snapshot, now: int, i: nat)
    requires KeyedByName(mem) && i < STEPS && WrittenAt(db, mem, now, i)
    ensures HoldsAt(db, mem, i)
  {
    match i {
      case 0 => KeyedRowsHold(db.clusters, mem.clusters, now);
      case 1 => KeyedRowsHold(db.services, mem.services, now);
      case 2 => KeyedRowsHold(db.jobs, mem.jobs, now);
      case 3 => NamedRowsHold(db.yamls, mem.yamls, YAML_NAME);
      case 4 => NamedRowsHold(db.history, mem.history, HISTORY_NAME);
      case 6 => NamedRowsHold(db.config, mem.config, CONFIG_NAME);
      case _ =>
    }
  }

  // ... and only tokens can clash.
  lemma NamesNeverClash(mem: Snapshot, now: int, i: nat)
    requires KeyedByName(mem) && i != 7
    ensures !ClashAt(mem, now, i)
  {
  }

  lemma WrittenIsConstrained(db: Tables, mem: Snapshot, now: int, i: nat)
    requires i < STEPS && WrittenAt(db, mem, now, i) && !ClashAt(mem, now, i)
    ensures ConstrainedAt(db, i)
  {
    match i {
      case 0 => ClashFree(db.clusters, mem.clusters, KeyedRowAt(now), ROW_NAME);
      case 1 => ClashFree(db.services, mem.services, KeyedRowAt(now), ROW_NAME);
      case 2 => ClashFree(db.jobs, mem.jobs, KeyedRowAt(now), ROW_NAME);
      case 3 => ClashFree(db.yamls, mem.yamls, Second(), YAML_NAME);
      case 4 => ClashFree(db.history, mem.history, Second(), HISTORY_NAME);
      case 6 => ClashFree(db.config, mem.config, Second(), CONFIG_NAME);
      case _ =>
    }
  }

  lemma SameTableConstrained(a: Tables, b: Tables, i: nat)
    requires SameTable(a, b, i) && ConstrainedAt(b, i)
    ensures ConstrainedAt(a, i)
  {
  }

  // However far a save gets, the tables' constraints hold afterwards.
  lemma SaveKeepsConstraints(db: Tables, mem: Snapshot, now: int, n: nat, db': Tables)
    requires Constrained(db) && SavedUpTo(db, mem, now, n, db')
    ensures Constrained(db')
  {
    forall i: nat | i < STEPS
      ensures ConstrainedAt(db', i)
    {
      if i < n {
        WrittenIsConstrained(db', mem, now, i);
      } else {
        assert ConstrainedAt(db, i);
        SameTableConstrained(db', db, i);
      }
    }
  }

  // A complete save of a state whose keys are its records' names is held.
  lemma CompleteSaveIsHeld(db: Tables, mem: Snapshot, now: int, db': Tables)
    requires KeyedByName(mem) && SavedUpTo(db, mem, now, STEPS, db')
    ensures Saved(db', mem)
  {
    forall i: nat | i < STEPS
      ensures HoldsAt(db', mem, i)
    {
      WrittenIsHeld(db', mem, now, i);
    }
  }

  predicate NothingFails(fails: (nat, nat) -> bool, mem: Snapshot) {
    forall i, j :: 0 <= i < STEPS && 0 <= j <= SizeAt(mem, i) + 1 ==> !fails(i, j)
  }

  // Saving a state whose keys are its records' names stops early only at a
  // failing statement or at two tokens that share an id or a hash.
  method SaveNamedState(store: Database, mem: Snapshot, now: int, fails: (nat, nat) -> bool) returns (ok: bool)
    requires KeyedByName(mem)
    modifies store
    ensures ok ==> Saved(store.Content(), mem)
    ensures NoClash(Rows(mem.tokens), TokenClash) && NothingFails(fails, mem) ==> ok
    ensures !NoClash(Rows(mem.tokens), TokenClash) ==> !ok
  {
    ghost var before := store.Content();
    var n := store.SaveAll(mem, now, fails);
    if n < STEPS && n != 7 {
      NamesNeverClash(mem, now, n);
    }
    ok := n == STEPS;
    if ok {
      CompleteSaveIsHeld(before, mem, now, store.Content());
      assert !ClashAt(mem, now, 7);
    }
  }

  /******* Runs, with failures and restarts *******/

  // A call with its clock reading and the number of tables saved, or a reopening.
  datatype SqlStep = Change(op: Op, now: int, saved: nat) | Reopen(now: int)

  datatype SqlWorld = SqlWorld(mem: Snapshot, db: Tables)

  ghost predicate Next(w: SqlWorld, step: SqlStep, w': SqlWorld) {
    match step
    case Change(op, now, saved) =>
      (match Effect(w.mem, op, now)
       case None => w' == w
       case Some(mem) => w'.mem == mem && SavedUpTo(w.db, mem, now, saved, w'.db))
    case Reopen(now) =>
      w'.db == w.db && exists ans :: Answers(w.db, ans) && w'.mem == Opened(ans, now)
  }

  ghost predicate SqlRun(ws: seq<SqlWorld>, steps: seq<SqlStep>) {
    && |ws| == |steps| + 1 && ws[0] == SqlWorld(EMPTY, NO_ROWS)
    && forall i :: 0 <= i < |steps| ==> Next(ws[i], steps[i], ws[i + 1])
  }

  // Since the last save that failed, the store has saved everything or been reopened.
  predicate InStep(ws: seq<SqlWorld>, steps: seq<SqlStep>)
    requires |ws| == |steps| + 1
  {
    if steps == [] then true
    else
      var n := |steps| - 1;
      match steps[n]
      case Reopen(_) => true
      case Change(op, now, saved) =>
        if Effect(ws[n].mem, op, now).None? then InStep(ws[..n + 1], steps[..n]) else saved == STEPS
  }

  lemma EffectKeepsNames(s: Snapshot, op: Op, now: int)
    requires KeyedByName(s) && Effect(s, op, now).Some?
    ensures KeyedByName(Effect(s, op, now).value)
  {
  }

  // Every run, failed saves and restarts included: each key is its record's
  // name, so saves never conflict on names; no constraint is broken; and
  // whenever the last saving call returned no error, the database holds memory.
  lemma {:induction false} DatabaseFollowsMemory(ws: seq<SqlWorld>, steps: seq<SqlStep>)
    requires SqlRun(ws, steps)
    ensures KeyedByName(ws[|steps|].mem) && Constrained(ws[|steps|].db)
    ensures InStep(ws, steps) ==> Saved(ws[|steps|].db, ws[|steps|].mem)
  {
    if steps == [] {
      OpenedIsSaved(NO_ROWS, NO_ROWS, 0);
      assert Opened(NO_ROWS, 0) == EMPTY;
    } else {
      var n := |steps| - 1;
      DatabaseFollowsMemory(ws[..n + 1], steps[..n]);
      assert Next(ws[n], steps[n], ws[n + 1]);
      match steps[n] {
        case Reopen(now) =>
          var ans :| Answers(ws[n].db, ans) && ws[n + 1].mem == Opened(ans, now);
          OpenedIsSaved(ws[n].db, ans, now);
        case Change(op, now, saved) =>
          if Effect(ws[n].mem, op, now).Some? {
            EffectKeepsNames(ws[n].mem, op, now);
            SaveKeepsConstraints(ws[n].db, ws[n + 1].mem, now, saved, ws[n + 1].db);
            if saved == STEPS {
              CompleteSaveIsHeld(ws[n].db, ws[n + 1].mem, now, ws[n + 1].db);
            }
          }
      }
    }
  }

  // The state survives a restart after any run whose last save went through.
  lemma StateSurvivesRestart(ws: seq<SqlWorld>, steps: seq<SqlStep>, ans: Tables, now: int)
    requires SqlRun(ws, steps) && InStep(ws, steps) && Answers(ws[|steps|].db, ans)
    ensures var mem, s := ws[|steps|].mem, Opened(ans, now);
            && s == mem.(events := s.events, tokens := s.tokens)
            && multiset(s.events) == multiset(mem.events) && ByTime(s.events)
            && multiset(Rows(s.tokens)) == multiset(Rows(mem.tokens))
            && ByCreation(Rows(s.tokens))
  {
    DatabaseFollowsMemory(ws, steps);
    ReopenYieldsSame(ws[|steps|].mem, ws[|steps|].db, ans, now);
  }

  // Every run can go on: a call can always save everything, unless its tokens
  // clash, and in no other way.
  lemma CompleteSaveExistsExactly(ws: seq<SqlWorld>, steps: seq<SqlStep>, op: Op, now: int)
    requires SqlRun(ws, steps) && Effect(ws[|steps|].mem, op, now).Some?
    ensures var w := ws[|steps|];
            var mem := Effect(w.mem, op, now).value;
            (exists w' :: Next(w, Change(op, now, STEPS), w')) <==> NoClash(Rows(mem.tokens), TokenClash)
  {
    var w := ws[|steps|];
    var mem := Effect(w.mem, op, now).value;
    DatabaseFollowsMemory(ws, steps);
    EffectKeepsNames(w.mem, op, now);
    if NoClash(Rows(mem.tokens), TokenClash) {
      var db' := CompleteSave(w.db, mem, now);
      assert Next(w, Change(op, now, STEPS), SqlWorld(mem, db'));
    }
    forall w' | Next(w, Change(op, now, STEPS), w')
      ensures NoClash(Rows(mem.tokens), TokenClash)
    {
      assert !ClashAt(mem, now, 7);
    }
  }

  lemma CompleteSave(db: Tables, mem: Snapshot, now: int) returns (db': Tables)
    requires KeyedByName(mem) && NoClash(Rows(mem.tokens), TokenClash)
    ensures SavedUpTo(db, mem, now, STEPS, db')
  {
    var cs := SomeRows(mem.clusters, KeyedRowAt(now));
    var ss := SomeRows(mem.services, KeyedRowAt(now));
    var js := SomeRows(mem.jobs, KeyedRowAt(now));
    var ys := SomeRows(mem.yamls, Second());
    var hs := SomeRows(mem.history, Second());
    var conf := SomeRows(mem.config, Second());
    db' := Tables(cs, ss, js, ys, hs, mem.events, conf, Rows(mem.tokens));
    forall i: nat | i < STEPS
      ensures WrittenAt(db', mem, now, i) && !ClashAt(mem, now, i)
    {
      if i != 7 {
        NamesNeverClash(mem, now, i);
      }
    }
  }

  lemma SomeRows<R, V>(m: map<string, V>, row: (string, V) -> R) returns (rows: seq<R>)
    ensures RowsOf(rows, m, row)
  {
    var order := SomeOrder(m.Keys);
    rows := seq(|order|, i requires 0 <= i < |order| => row(order[i], m[order[i]]));
    assert RowsInOrder(rows, m, row, order);
  }

  lemma HeldStill(db: Tables, db': Tables, a: Snapshot, b: Snapshot, i: nat)
    requires SameAt(a, b, i)
    ensures HoldsAt(db, a, i) <==> HoldsAt(db, b, i)
    ensures SameTable(db, db', i) ==> (HoldsAt(db, a, i) <==> HoldsAt(db', a, i))
  {
  }

  // Wherever a save stops, the database holds the state before or the state after.
  lemma SqlCrashLeavesBeforeOrAfter(mem: Snapshot, db: Tables, op: Op, now: int, n: nat, db': Tables)
    requires KeyedByName(mem) && Saved(db, mem) && Effect(mem, op, now).Some?
    requires SavedUpTo(db, Effect(mem, op, now).value, now, n, db')
    ensures Saved(db', if n > TargetOf(op) then Effect(mem, op, now).value else mem)
  {
    var after := Effect(mem, op, now).value;
    var left := if n > TargetOf(op) then after else mem;
    EffectKeepsNames(mem, op, now);
    forall i: nat | i < STEPS
      ensures HoldsAt(db', left, i)
    {
      assert HoldsAt(db, mem, i);
      if i < n {
        WrittenIsHeld(db', after, now, i);
      } else {
        HeldStill(db', db, mem, mem, i);
      }
      if i != TargetOf(op) {
        OthersUntouched(mem, op, now, i);
        HeldStill(db', db, mem, after, i);
      }
    }
  }

  /******* Order *******/

  // Two events of the same time are the same event.
  predicate NoTies(events: seq<ClusterEvent>) {
    forall i, j :: 0 <= i < j < |events| && events[i].transitionedAt == events[j].transitionedAt ==> events[i] == events[j]
  }

  lemma FirstInTime(events: seq<ClusterEvent>, e: ClusterEvent)
    requires ByTime(events) && e in events
    ensures events[0].transitionedAt <= e.transitionedAt
    ensures NoTies(events) && events[0].transitionedAt == e.transitionedAt ==> events[0] == e
  {
    var i :| 0 <= i < |events| && events[i] == e;
  }

  lemma TailBag<T>(s: seq<T>)
    requires s != []
    ensures multiset(s[1..]) == multiset(s) - multiset{s[0]}
  {
    assert s == [s[0]] + s[1..];
  }

  lemma {:induction false} SortedAnswerIsUnique(events: seq<ClusterEvent>, answer: seq<ClusterEvent>)
    requires multiset(answer) == multiset(events) && ByTime(answer) && ByTime(events) && NoTies(events)
    ensures answer == events
  {
    if events == [] {
      EmptyBag(answer);
    } else if answer == [] {
      EmptyBag(events);
    } else {
      SameElements(answer, events);
      assert events[0] in answer && answer[0] in events;
      FirstInTime(events, answer[0]);
      FirstInTime(answer, events[0]);
      TailBag(events);
      TailBag(answer);
      SortedAnswerIsUnique(events[1..], answer[1..]);
    }
  }

  lemma SwappedBag<T>(s: seq<T>, i: nat, j: nat)
    requires i < j < |s|
    ensures multiset(s[i := s[j]][j := s[i]]) == multiset(s)
  {
  }

  // Reopening gives the events back in memory's order, whatever the database
  // answers, exactly when they were added in time order and without two
  // different ones at the same time. The file backend always keeps the order.
  lemma EventOrderKeptExactly(events: seq<ClusterEvent>)
    ensures (forall answer :: multiset(answer) == multiset(events) && ByTime(answer) ==> answer == events)
       <==> ByTime(events) && NoTies(events)
  {
    if ByTime(events) && NoTies(events) {
      forall answer | multiset(answer) == multiset(events) && ByTime(answer)
        ensures answer == events
      {
        SortedAnswerIsUnique(events, answer);
      }
    } else if !ByTime(events) {
      var sorted := InTime(events);
      assert sorted != events;
    } else {
      var i, j :| 0 <= i < j < |events| && events[i].transitionedAt == events[j].transitionedAt && events[i] != events[j];
      var swapped := events[i := events[j]][j := events[i]];
      SwappedBag(events, i, j);
      assert ByTime(swapped) && swapped[i] != events[i];
    }
  }

  // The database can always answer in time order.
  lemma InTime(events: seq<ClusterEvent>) returns (sorted: seq<ClusterEvent>)
    ensures multiset(sorted) == multiset(events) && ByTime(sorted)
  {
    var earlier := (a: ClusterEvent, b: ClusterEvent) => a.transitionedAt < b.transitionedAt;
    sorted := Sort(earlier, events);
    SortMultiset(earlier, events);
    forall i, j | 0 <= i < j < |sorted|
      ensures sorted[i].transitionedAt <= sorted[j].transitionedAt
    {
      SortHasNoInversion(earlier, events, i, j);
    }
  }

  /******* Tokens after a restart *******/

  // The two lookups give the same answer, Active aside.
  predicate SameLookup(a: Lookup, b: Lookup) {
    if a.Found? && b.Found? then Stored(a.token) == Stored(b.token) else a == b
  }

  lemma FoundByRow(tokens: seq<Token>, hash: string, now: int, k: nat)
    requires NoClash(Rows(tokens), TokenClash) && k < |tokens| && tokens[k].hash == hash
    ensures Find(tokens, hash, now) == if Expired(tokens[k], now) then TooOld else Found(tokens[k])
  {
    var rows := Rows(tokens);
    forall i | 0 <= i < k
      ensures tokens[i].hash != hash
    {
      assert !TokenClash(rows[i], rows[k]);
    }
    FindFirst(tokens, hash, now, k);
  }

  lemma {:induction false} UnknownHash(tokens: seq<Token>, hash: string, now: int)
    requires forall t <- tokens :: t.hash != hash
    ensures Find(tokens, hash, now) == Unknown
  {
    if tokens != [] {
      assert forall t <- tokens[1..] :: t in tokens;
      UnknownHash(tokens[1..], hash, now);
    }
  }

  lemma RowOfToken(tokens: seq<Token>, row: TokenRow) returns (k: nat)
    requires row in Rows(tokens)
    ensures k < |tokens| && Stored(tokens[k]) == row
  {
    k :| 0 <= k < |tokens| && Rows(tokens)[k] == row;
  }

  // Reordering the tokens changes no lookup: each secret is accepted or refused
  // after a restart as before it.
  lemma LookupSurvivesRestart(before: seq<Token>, after: seq<Token>, hash: string, now: int)
    requires multiset(Rows(before)) == multiset(Rows(after))
    requires NoClash(Rows(before), TokenClash) && NoClash(Rows(after), TokenClash)
    ensures SameLookup(Find(before, hash, now), Find(after, hash, now))
  {
    SameElements(Rows(before), Rows(after));
    if i: nat :| i < |before| && before[i].hash == hash {
      assert Rows(before)[i] == Stored(before[i]);
      var j := RowOfToken(after, Stored(before[i]));
      FoundByRow(before, hash, now, i);
      FoundByRow(after, hash, now, j);
    } else {
      forall t | t in after
        ensures t.hash != hash
      {
        var j :| 0 <= j < |after| && after[j] == t;
        assert Rows(after)[j] == Stored(t);
        var i := RowOfToken(before, Stored(t));
      }
      UnknownHash(before, hash, now);
      UnknownHash(after, hash, now);
    }
  }

  lemma TokensPermuted(a: seq<TokenRow>, b: seq<TokenRow>)
    requires multiset(a) == multiset(b) && NoClash(a, TokenClash)
    ensures NoClash(b, TokenClash)
  {
    assert forall i, j :: 0 <= i < j < |a| && a[i] == a[j] ==> TokenClash(a[i], a[j]);
    SinglePermuted(a, b);
    SameElements(a, b);
    forall i, j | 0 <= i < j < |b|
      ensures !TokenClash(b[i], b[j])
    {
      assert b[i] in b && b[j] in b;
      var k :| 0 <= k < |a| && a[k] == b[i];
      var l :| 0 <= l < |a| && a[l] == b[j];
      assert k != l;
      assert !TokenClash(a[if k < l then k else l], a[if k < l then l else k]);
    }
  }

  // After any run whose last save went through, a restart changes no token lookup.
  lemma LookupsSurviveRestart(ws: seq<SqlWorld>, steps: seq<SqlStep>, ans: Tables, now: int, hash: string, t: int)
    requires SqlRun(ws, steps) && InStep(ws, steps) && Answers(ws[|steps|].db, ans)
    ensures SameLookup(Find(ws[|steps|].mem.tokens, hash, t), Find(Opened(ans, now).tokens, hash, t))
  {
    var w := ws[|steps|];
    DatabaseFollowsMemory(ws, steps);
    assert HoldsAt(w.db, w.mem, 7) && ConstrainedAt(w.db, 7);
    OpenedTokens(ans.tokens, now);
    TokensPermuted(w.db.tokens, Rows(w.mem.tokens));
    TokensPermuted(w.db.tokens, ans.tokens);
    LookupSurvivesRestart(w.mem.tokens, Opened(ans, now).tokens, hash, t);
  }
}
