// Calls of Prices and PricesForced that interleave: what the price cache keeps
// in every interleaving of their critical sections.
module CacheRuns {
  import opened Text
  import opened MetaCache

  datatype Pc = Fetching | Answered(ref: Option<nat>)

  datatype Call = Call(key: string, now: int, snap: Option<Entry>, pc: Pc)

  datatype System = System(cache: Cache, calls: seq<Call>)

  datatype Event =
    | Start(key: string, now: int, ttl: int, forced: bool)
    | FetchOk(id: nat, key: string, got: PriceMap)
    | FetchFail(id: nat)

  const EMPTY := System(Cache(map[], []), [])

  predicate Enabled(s: System, e: Event) {
    match e
    case Start(_, _, _, _) => true
    case FetchOk(i, k, _) => i < |s.calls| && s.calls[i].pc.Fetching? && s.calls[i].key == k
    case FetchFail(i) => i < |s.calls| && s.calls[i].pc.Fetching?
  }

  function RefOf(snap: Option<Entry>): Option<nat> {
    if snap.Some? then Some(snap.value.ref) else None
  }

  // Every map object in use for a key was made for that key.
  ghost predicate Owned(c: Cache, snap: Option<Entry>, k: string) {
    snap.Some? ==> snap.value.ref < |c.heap| && c.heap[snap.value.ref].key == k
  }

  ghost predicate Valid(s: System) {
    && (forall k <- s.cache.prices :: Owned(s.cache, Snapshot(s.cache, k), k))
    && (forall i :: 0 <= i < |s.calls| ==> Owned(s.cache, s.calls[i].snap, s.calls[i].key))
    && (forall i :: 0 <= i < |s.calls| && s.calls[i].pc.Answered? && s.calls[i].pc.ref.Some? ==>
          var ref := s.calls[i].pc.ref.value;
          ref < |s.cache.heap| && s.cache.heap[ref].key == s.calls[i].key)
  }

  function Apply(s: System, e: Event): (s': System)
    requires Valid(s) && Enabled(s, e)
    ensures Valid(s')
  {
    match e
    case Start(k, now, ttl, forced) =>
      var snap := Snapshot(s.cache, k);
      var pc := if Contacts(snap, now, ttl, forced) then Fetching else Answered(RefOf(snap));
      s.(calls := s.calls + [Call(k, now, snap, pc)])
    case FetchOk(i, k, got) =>
      var call := s.calls[i];
      System(CommitOk(s.cache, k, call.now, call.snap, got),
             s.calls[i := call.(pc := Answered(Some(TargetRef(s.cache, call.snap))))])
    case FetchFail(i) =>
      var call := s.calls[i];
      System(CommitFail(s.cache, call.key, call.now, call.snap),
             s.calls[i := call.(pc := Answered(RefOf(call.snap)))])
  }

  // The last event of a history is its latest.
  ghost predicate Playable(es: seq<Event>)
    decreases |es|, 0
  {
    es == [] || (Playable(es[..|es| - 1]) && Enabled(Play(es[..|es| - 1]), es[|es| - 1]))
  }

  ghost function Play(es: seq<Event>): (s: System)
    requires Playable(es)
    ensures Valid(s)
    decreases |es|, 1
  {
    if es == [] then EMPTY else Apply(Play(es[..|es| - 1]), es[|es| - 1])
  }

  // The successful results for a key, in commit order.
  function Results(es: seq<Event>, k: string): seq<PriceMap> {
    if es == [] then []
    else
      var e := es[|es| - 1];
      Results(es[..|es| - 1], k) + if e.FetchOk? && e.key == k then [e.got] else []
  }

  // Later results win.
  function Fold(results: seq<PriceMap>): PriceMap {
    if results == [] then map[] else Fold(results[..|results| - 1]) + results[|results| - 1]
  }

  // What the cache holds for a key.
  function Held(c: Cache, k: string): Option<PriceMap>
    requires RefsInHeap(c)
  {
    if k in c.prices then Some(c.heap[c.prices[k].ref].contents) else None
  }

  lemma ValidRefs(s: System)
    requires Valid(s)
    ensures RefsInHeap(s.cache)
  {
    forall k | k in s.cache.prices
      ensures s.cache.prices[k].ref < |s.cache.heap|
    {
      assert Owned(s.cache, Snapshot(s.cache, k), k);
    }
  }

  /******* Where prices come from *******/

  ghost predicate ReturnedFor(es: seq<Event>, k: string, t: string, p: Price) {
    exists i :: 0 <= i < |Results(es, k)| && t in Results(es, k)[i] && Results(es, k)[i][t] == p
  }

  lemma {:induction false} ContentsComeFromResults(es: seq<Event>, ref: nat, t: string)
    requires Playable(es) && ref < |Play(es).cache.heap| && t in Play(es).cache.heap[ref].contents
    ensures var cell := Play(es).cache.heap[ref]; ReturnedFor(es, cell.key, t, cell.contents[t])
  {
    if es != [] {
      var before, e := es[..|es| - 1], es[|es| - 1];
      var heap := Play(before).cache.heap;
      var cell := Play(es).cache.heap[ref];
      if e.FetchOk? && e.key == cell.key && t in e.got && cell.contents[t] == e.got[t] {
        assert Results(es, cell.key)[|Results(before, cell.key)|] == e.got;
      } else {
        assert ref < |heap| && t in heap[ref].contents && heap[ref].contents[t] == cell.contents[t];
        ContentsComeFromResults(before, ref, t);
        var i :| 0 <= i < |Results(before, cell.key)| && t in Results(before, cell.key)[i]
                 && Results(before, cell.key)[i][t] == cell.contents[t];
        assert Results(es, cell.key)[i] == Results(before, cell.key)[i];
      }
    }
  }

  // In every interleaving, each held price was returned by a successful fetch
  // for that very cloud, region and type.
  lemma HeldPricesWereFetched(es: seq<Event>, k: string, t: string)
    requires Playable(es) && k in Play(es).cache.prices
    requires RefsInHeap(Play(es).cache) && t in Held(Play(es).cache, k).value
    ensures ReturnedFor(es, k, t, Held(Play(es).cache, k).value[t])
  {
    var c := Play(es).cache;
    assert Owned(c, Snapshot(c, k), k);
    ContentsComeFromResults(es, c.prices[k].ref, t);
  }

  // The same holds of the map a call has answered with, as it stands at any later time.
  lemma AnsweredPricesWereFetched(es: seq<Event>, i: nat, t: string)
    requires Playable(es) && i < |Play(es).calls|
    requires Play(es).calls[i].pc.Answered? && Play(es).calls[i].pc.ref.Some?
    requires t in Play(es).cache.heap[Play(es).calls[i].pc.ref.value].contents
    ensures ReturnedFor(es, Play(es).calls[i].key, t, Play(es).cache.heap[Play(es).calls[i].pc.ref.value].contents[t])
  {
    ContentsComeFromResults(es, Play(es).calls[i].pc.ref.value, t);
  }

  /******* When nothing is dropped *******/

  // Successes for k of calls that had found no entry.
  ghost function FirstFetches(es: seq<Event>, k: string): nat
    requires Playable(es)
  {
    if es == [] then 0
    else
      var e := es[|es| - 1];
      FirstFetches(es[..|es| - 1], k) +
      if e.FetchOk? && e.key == k && Play(es[..|es| - 1]).calls[e.id].snap.None? then 1 else 0
  }

  ghost predicate AllUse(s: System, k: string, ref: nat) {
    && (k in s.cache.prices ==> s.cache.prices[k].ref == ref)
    && (forall i :: 0 <= i < |s.calls| && s.calls[i].key == k && s.calls[i].snap.Some? ==> s.calls[i].snap.value.ref == ref)
  }

  // Nothing has been fetched for k.
  ghost predicate Untouched(s: System, k: string) {
    && k !in s.cache.prices
    && (forall i :: 0 <= i < |s.calls| && s.calls[i].key == k ==> s.calls[i].snap.None?)
  }

  // One map object serves k, and it holds contents.
  ghost predicate Complete(s: System, k: string, contents: PriceMap)
    requires Valid(s)
  {
    && k in s.cache.prices
    && AllUse(s, k, s.cache.prices[k].ref)
    && Owned(s.cache, Snapshot(s.cache, k), k)
    && s.cache.heap[s.cache.prices[k].ref].contents == contents
  }

  lemma UntouchedStep(s: System, e: Event, k: string)
    requires Valid(s) && Enabled(s, e) && Untouched(s, k)
    ensures e.FetchOk? && e.key == k ==> Complete(Apply(s, e), k, e.got)
    ensures !(e.FetchOk? && e.key == k) ==> Untouched(Apply(s, e), k)
  {
    if e.FetchOk? {
      assert map[] + e.got == e.got;
    }
  }

  lemma CompleteStep(s: System, e: Event, k: string, contents: PriceMap)
    requires Valid(s) && Enabled(s, e) && Complete(s, k, contents)
    requires e.FetchOk? && e.key == k ==> s.calls[e.id].snap.Some?
    ensures Complete(Apply(s, e), k, if e.FetchOk? && e.key == k then contents + e.got else contents)
  {
    var s' := Apply(s, e);
    var ref := s.cache.prices[k].ref;
    if e.FetchOk? {
      assert Owned(s.cache, s.calls[e.id].snap, e.key);
    } else if e.FetchFail? {
      assert Owned(s.cache, s.calls[e.id].snap, s.calls[e.id].key);
    }
    assert AllUse(s', k, ref);
    assert Owned(s'.cache, Snapshot(s'.cache, k), k);
  }

  lemma FoldStep(results: seq<PriceMap>, got: PriceMap)
    ensures Fold(results + [got]) == Fold(results) + got
  {
    assert (results + [got])[..|results|] == results;
  }

  // Where a history with at most one first fetch for k stands.
  ghost predicate FoldHeld(s: System, results: seq<PriceMap>, k: string)
    requires Valid(s)
  {
    if results == [] then Untouched(s, k) else Complete(s, k, Fold(results))
  }

  lemma FoldHeldStep(s: System, e: Event, results: seq<PriceMap>, k: string)
    requires Valid(s) && Enabled(s, e) && FoldHeld(s, results, k)
    requires results != [] && e.FetchOk? && e.key == k ==> s.calls[e.id].snap.Some?
    ensures FoldHeld(Apply(s, e), results + if e.FetchOk? && e.key == k then [e.got] else [], k)
  {
    if results == [] {
      UntouchedStep(s, e, k);
      if e.FetchOk? && e.key == k {
        FoldStep([], e.got);
        assert map[] + e.got == e.got;
        assert results + [e.got] == [] + [e.got];
      }
    } else {
      CompleteStep(s, e, k, Fold(results));
      if e.FetchOk? && e.key == k {
        FoldStep(results, e.got);
      } else {
        assert results + [] == results;
      }
    }
  }

  lemma {:induction false} OneFirstFetch(es: seq<Event>, k: string)
    requires Playable(es) && FirstFetches(es, k) <= 1
    ensures FoldHeld(Play(es), Results(es, k), k)
    ensures Results(es, k) != [] ==> FirstFetches(es, k) == 1
  {
    if es != [] {
      var before, e := es[..|es| - 1], es[|es| - 1];
      OneFirstFetch(before, k);
      FoldHeldStep(Play(before), e, Results(before, k), k);
    }
  }

  // If at most one fetch that found no entry succeeds, the cache holds exactly
  // the successful results folded in commit order: failures drop nothing.
  lemma HeldIsFold(es: seq<Event>, k: string)
    requires Playable(es) && FirstFetches(es, k) <= 1
    ensures RefsInHeap(Play(es).cache)
    ensures Held(Play(es).cache, k) == if Results(es, k) == [] then None else Some(Fold(Results(es, k)))
  {
    ValidRefs(Play(es));
    OneFirstFetch(es, k);
  }

  lemma {:induction false} ResultsExtend(es: seq<Event>, more: seq<Event>, k: string)
    ensures Results(es, k) <= Results(es + more, k)
    decreases |more|
  {
    if more == [] {
      assert es + more == es;
    } else {
      ResultsExtend(es, more[..|more| - 1], k);
      assert (es + more)[..|es + more| - 1] == es + more[..|more| - 1];
    }
  }

  lemma {:induction false} FoldKeysGrow(a: seq<PriceMap>, b: seq<PriceMap>)
    requires a <= b
    ensures Fold(a).Keys <= Fold(b).Keys
    decreases |b|
  {
    if a != b {
      FoldKeysGrow(a, b[..|b| - 1]);
    } else {
      assert a == b;
    }
  }

  lemma {:induction false} FirstFetchesGrow(es: seq<Event>, more: seq<Event>, k: string)
    requires Playable(es + more)
    ensures Playable(es) && FirstFetches(es, k) <= FirstFetches(es + more, k)
    decreases |more|
  {
    if more == [] {
      assert es + more == es;
    } else {
      assert (es + more)[..|es + more| - 1] == es + more[..|more| - 1];
      FirstFetchesGrow(es, more[..|more| - 1], k);
    }
  }

  // Then the types priced for a key only ever grow in number.
  lemma HeldTypesGrow(es: seq<Event>, more: seq<Event>, k: string)
    requires Playable(es + more) && FirstFetches(es + more, k) <= 1
    requires Playable(es) && RefsInHeap(Play(es).cache) && RefsInHeap(Play(es + more).cache)
    ensures Held(Play(es).cache, k).Some? ==>
              && Held(Play(es + more).cache, k).Some?
              && Held(Play(es).cache, k).value.Keys <= Held(Play(es + more).cache, k).value.Keys
  {
    FirstFetchesGrow(es, more, k);
    HeldIsFold(es, k);
    HeldIsFold(es + more, k);
    ResultsExtend(es, more, k);
    FoldKeysGrow(Results(es, k), Results(es + more, k));
  }

  /******* When something is dropped *******/

  // The cache holds every successful result for k, later ones winning.
  ghost predicate HoldsFold(es: seq<Event>, k: string)
    requires Playable(es)
  {
    k in Play(es).cache.prices && Play(es).cache.prices[k].ref < |Play(es).cache.heap|
    && Play(es).cache.heap[Play(es).cache.prices[k].ref].contents == Fold(Results(es, k))
  }

  lemma MergedAgree(a: PriceMap, b: PriceMap, got: PriceMap)
    requires a + got == b + got
    ensures a - got.Keys == b - got.Keys
  {
    forall t | t !in got
      ensures t in a <==> t in b
      ensures t in a && t in b ==> a[t] == b[t]
    {
      assert t in a + got <==> t in b + got;
      assert t in a ==> (a + got)[t] == a[t];
      assert t in b ==> (b + got)[t] == b[t];
    }
  }

  lemma AgreeingMerge(a: PriceMap, b: PriceMap, got: PriceMap)
    requires a - got.Keys == b - got.Keys
    ensures a + got == b + got
  {
    forall t | t !in got
      ensures t in a <==> t in b
      ensures t in a && t in b ==> a[t] == b[t]
    {
      assert t in a - got.Keys <==> t in a;
      assert t in b - got.Keys <==> t in b;
      assert t in a ==> (a - got.Keys)[t] == a[t];
      assert t in b ==> (b - got.Keys)[t] == b[t];
    }
  }

  lemma MergedIsFold(a: PriceMap, b: PriceMap, got: PriceMap)
    ensures a + got == b + got <==> a - got.Keys == b - got.Keys
  {
    if a + got == b + got {
      MergedAgree(a, b, got);
    } else if a - got.Keys == b - got.Keys {
      AgreeingMerge(a, b, got);
    }
  }

  // After a successful commit the fold is held exactly when the map object it
  // merges into agrees with the earlier results outside what was just fetched.
  lemma CommitKeepsFoldExactly(es: seq<Event>, k: string)
    requires Playable(es) && es != [] && es[|es| - 1].FetchOk? && es[|es| - 1].key == k
    ensures var before, e := es[..|es| - 1], es[|es| - 1];
            var s := Play(before);
            && Owned(s.cache, s.calls[e.id].snap, k)
            && (HoldsFold(es, k) <==>
                  Target(s.cache, k, s.calls[e.id].snap).contents - e.got.Keys == Fold(Results(before, k)) - e.got.Keys)
  {
    var before, e := es[..|es| - 1], es[|es| - 1];
    var s := Play(before);
    assert Owned(s.cache, s.calls[e.id].snap, k);
    FoldStep(Results(before, k), e.got);
    MergedIsFold(Target(s.cache, k, s.calls[e.id].snap).contents, Fold(Results(before, k)), e.got);
  }

  // After a failure of a call that had found an entry it is held exactly when
  // that entry's map object agrees with all the results: a stale one comes back.
  lemma FailureKeepsFoldExactly(es: seq<Event>, k: string)
    requires Playable(es) && es != [] && es[|es| - 1].FetchFail?
    requires var call := Play(es[..|es| - 1]).calls[es[|es| - 1].id]; call.key == k && call.snap.Some?
    ensures var before := es[..|es| - 1];
            var s := Play(before);
            var snap := s.calls[es[|es| - 1].id].snap;
            && Owned(s.cache, snap, k)
            && (HoldsFold(es, k) <==> s.cache.heap[snap.value.ref].contents == Fold(Results(before, k)))
  {
    var s := Play(es[..|es| - 1]);
    var call := s.calls[es[|es| - 1].id];
    assert Owned(s.cache, call.snap, k);
    SameResults(es, k);
  }

  lemma SameResults(es: seq<Event>, k: string)
    requires es != [] && !(es[|es| - 1].FetchOk? && es[|es| - 1].key == k)
    ensures Results(es, k) == Results(es[..|es| - 1], k)
  {
    assert Results(es[..|es| - 1], k) + [] == Results(es[..|es| - 1], k);
  }

  // The event commits to k or writes an entry back for it.
  ghost predicate Touches(s: System, e: Event, k: string)
    requires Enabled(s, e)
  {
    (e.FetchOk? && e.key == k) || (e.FetchFail? && s.calls[e.id].key == k && s.calls[e.id].snap.Some?)
  }

  lemma OthersLeaveMap(s: System, e: Event, k: string)
    requires Valid(s) && Enabled(s, e) && !Touches(s, e, k)
    ensures var c, c' := s.cache, Apply(s, e).cache;
            && (k in c'.prices <==> k in c.prices)
            && (k in c.prices ==> c'.prices[k] == c.prices[k] && c.prices[k].ref < |c.heap| <= |c'.heap|
                                  && c'.heap[c.prices[k].ref] == c.heap[c.prices[k].ref])
  {
    if k in s.cache.prices {
      assert Owned(s.cache, Snapshot(s.cache, k), k);
    }
    if e.FetchOk? {
      assert Owned(s.cache, s.calls[e.id].snap, e.key);
    }
  }

  // No other event changes whether it is held.
  lemma OthersKeepFold(es: seq<Event>, k: string)
    requires Playable(es) && es != [] && !Touches(Play(es[..|es| - 1]), es[|es| - 1], k)
    ensures HoldsFold(es, k) <==> HoldsFold(es[..|es| - 1], k)
  {
    OthersLeaveMap(Play(es[..|es| - 1]), es[|es| - 1], k);
    SameResults(es, k);
  }

  // A fetch that had found no entry replaces whatever is held by its own result,
  // so the fold survives it exactly when that result covers the earlier ones.
  lemma FirstFetchReplaces(es: seq<Event>, k: string)
    requires Playable(es) && es != []
    requires var e := es[|es| - 1];
             e.FetchOk? && e.key == k && Play(es[..|es| - 1]).calls[e.id].snap.None?
    ensures RefsInHeap(Play(es).cache) && Held(Play(es).cache, k) == Some(es[|es| - 1].got)
    ensures HoldsFold(es, k) <==> Fold(Results(es[..|es| - 1], k)).Keys <= es[|es| - 1].got.Keys
  {
    var before, got := es[..|es| - 1], es[|es| - 1].got;
    ValidRefs(Play(es));
    assert map[] + got == got;
    CommitKeepsFoldExactly(es, k);
    var fold := Fold(Results(before, k));
    var nothing: PriceMap := map[];
    assert nothing - got.Keys == nothing;
    assert (fold - got.Keys).Keys == fold.Keys - got.Keys;
    assert fold - got.Keys == nothing <==> (fold - got.Keys).Keys == {};
  }

  lemma PlayOne(es: seq<Event>, e: Event)
    requires Playable(es) && Enabled(Play(es), e)
    ensures Playable(es + [e]) && Play(es + [e]) == Apply(Play(es), e)
    ensures forall k :: Results(es + [e], k) == Results(es, k) + if e.FetchOk? && e.key == k then [e.got] else []
  {
    assert (es + [e])[..|es|] == es;
  }

  // Two calls that both start on an empty entry, of which the first has committed.
  ghost function OneCommitted(k: string, p: Price): seq<Event> {
    [Start(k, 0, 0, false)] + [Start(k, 0, 0, false)] + [FetchOk(0, k, map["a" := p])]
  }

  lemma AfterOneCommit(k: string, p: Price)
    ensures Playable(OneCommitted(k, p)) && Results(OneCommitted(k, p), k) == [map["a" := p]]
    ensures Play(OneCommitted(k, p)) ==
              System(Cache(map[k := Entry(0, 0, None)], [Cell(k, map["a" := p])]),
                     [Call(k, 0, None, Answered(Some(0))), Call(k, 0, None, Fetching)])
  {
    var start := Start(k, 0, 0, false);
    assert [] + [start] == [start];
    PlayOne([], start);
    PlayOne([start], start);
    var e2 := [start] + [start];
    var call := Call(k, 0, None, Fetching);
    assert Play(e2) == System(Cache(map[], []), [call, call]);
    PlayOne(e2, FetchOk(0, k, map["a" := p]));
    assert map[] + map["a" := p] == map["a" := p];
  }

  // The second one drops the first's price.
  lemma PricesCanBeDropped(k: string, p: Price)
    ensures var es := OneCommitted(k, p) + [FetchOk(1, k, map["b" := p])];
            && Playable(es) && RefsInHeap(Play(es).cache)
            && Held(Play(es).cache, k) == Some(map["b" := p])
            && Results(es, k) == [map["a" := p], map["b" := p]]
  {
    AfterOneCommit(k, p);
    var es := OneCommitted(k, p);
    var e := FetchOk(1, k, map["b" := p]);
    PlayOne(es, e);
    assert (es + [e])[..|es|] == es;
    FirstFetchReplaces(es + [e], k);
  }

  // A forced call has found the first's entry when the second, whose result
  // covers the first's, replaces it.
  ghost function StaleSnapshot(k: string, p: Price): seq<Event> {
    OneCommitted(k, p) + [Start(k, 1, 0, true)] + [FetchOk(1, k, map["a" := p, "b" := p])]
  }

  lemma AfterStaleSnapshot(k: string, p: Price)
    ensures var es := StaleSnapshot(k, p);
            && Playable(es) && Results(es, k) == [map["a" := p], map["a" := p, "b" := p]]
            && HoldsFold(es, k)
            && |Play(es).calls| == 3 && Play(es).calls[2] == Call(k, 1, Some(Entry(0, 0, None)), Fetching)
            && |Play(es).cache.heap| == 2 && Play(es).cache.heap[0] == Cell(k, map["a" := p])
  {
    AfterOneCommit(k, p);
    var es := OneCommitted(k, p);
    PlayOne(es, Start(k, 1, 0, true));
    var es' := es + [Start(k, 1, 0, true)];
    var e := FetchOk(1, k, map["a" := p, "b" := p]);
    assert Play(es').calls[1] == Call(k, 0, None, Fetching);
    PlayOne(es', e);
    assert (es' + [e])[..|es'|] == es';
    FirstFetchReplaces(es' + [e], k);
    TwoResults(map["a" := p], map["a" := p, "b" := p]);
    assert Results(es', k) == [map["a" := p]];
  }

  lemma TwoResults(a: PriceMap, b: PriceMap)
    ensures Fold([a]) == a && Fold([a, b]) == a + b
  {
    assert [a][..0] == [] && [a, b][..1] == [a];
    assert map[] + a == a;
  }

  // Its commit merges into the old map object and drops "b", which no failure
  // and no empty entry was involved in.
  lemma StaleCommitDrops(k: string, p: Price)
    ensures var es := StaleSnapshot(k, p) + [FetchOk(2, k, map["c" := p])];
            && Playable(es) && RefsInHeap(Play(es).cache)
            && Held(Play(es).cache, k) == Some(map["a" := p, "c" := p])
  {
    AfterStaleSnapshot(k, p);
    var es := StaleSnapshot(k, p);
    PlayOne(es, FetchOk(2, k, map["c" := p]));
    ValidRefs(Play(es + [FetchOk(2, k, map["c" := p])]));
    assert map["a" := p] + map["c" := p] == map["a" := p, "c" := p];
  }

  // Its failure writes the old entry back, and drops "b" as well.
  lemma StaleFailureDrops(k: string, p: Price)
    ensures var es := StaleSnapshot(k, p) + [FetchFail(2)];
            && Playable(es) && RefsInHeap(Play(es).cache)
            && Held(Play(es).cache, k) == Some(map["a" := p])
  {
    AfterStaleSnapshot(k, p);
    var es := StaleSnapshot(k, p);
    PlayOne(es, FetchFail(2));
    ValidRefs(Play(es + [FetchFail(2)]));
  }
}
