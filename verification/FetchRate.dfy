// How often the price cache goes to the source when the calls for one key come
// one after another on a clock that never runs backwards.
module FetchRate {
  import opened Text
  import opened MetaCache
  import Arithmetic

  // A call at an instant, with the answer the source would give.
  datatype Call = Call(now: int, fetched: Option<PriceMap>)

  predicate Contacting(c: Cache, k: string, ttl: int, call: Call) {
    Contacts(Snapshot(c, k), call.now, ttl, false)
  }

  // The cache after one call of Prices.
  function Serve(c: Cache, k: string, ttl: int, call: Call): (c': Cache)
    requires RefsInHeap(c)
    ensures RefsInHeap(c')
  {
    if !Contacting(c, k, ttl, call) then c
    else if call.fetched.Some? then CommitOk(c, k, call.now, Snapshot(c, k), call.fetched.value)
    else CommitFail(c, k, call.now, Snapshot(c, k))
  }

  function ContactTimes(c: Cache, k: string, ttl: int, calls: seq<Call>): seq<int>
    requires RefsInHeap(c)
    decreases |calls|
  {
    if calls == [] then []
    else
      (if Contacting(c, k, ttl, calls[0]) then [calls[0].now] else []) +
      ContactTimes(Serve(c, k, ttl, calls[0]), k, ttl, calls[1..])
  }

  // The calls come in order, none before t.
  predicate InOrder(calls: seq<Call>, t: int) {
    calls == [] || (t <= calls[0].now && InOrder(calls[1..], calls[0].now))
  }

  function Gap(ttl: int): (g: int)
    ensures g > 0
  {
    if EffectiveTTL(ttl) < BACKOFF then EffectiveTTL(ttl) else BACKOFF
  }

  // The last contact for k was at t, and some fetch has succeeded before.
  predicate LastContact(c: Cache, k: string, t: int) {
    k in c.prices && (c.prices[k].fetched == t || c.prices[k].failedAt == Some(t))
  }

  // Successive elements, starting from t, are at least gap apart.
  predicate Spaced(times: seq<int>, t: int, gap: int) {
    times == [] || (t + gap <= times[0] && Spaced(times[1..], times[0], gap))
  }

  // After the first success two contacts are at least min(TTL, 5s) apart.
  lemma {:induction false} ContactsAreSpaced(c: Cache, k: string, ttl: int, calls: seq<Call>, t: int, from: int)
    requires RefsInHeap(c) && LastContact(c, k, t) && t <= from && InOrder(calls, from)
    ensures Spaced(ContactTimes(c, k, ttl, calls), t, Gap(ttl))
    decreases |calls|
  {
    if calls != [] {
      var call := calls[0];
      var c' := Serve(c, k, ttl, call);
      var rest := ContactTimes(c', k, ttl, calls[1..]);
      if Contacting(c, k, ttl, call) {
        ContactsAreSpaced(c', k, ttl, calls[1..], call.now, call.now);
        assert ([call.now] + rest)[1..] == rest;
      } else {
        ContactsAreSpaced(c', k, ttl, calls[1..], t, call.now);
        assert [] + rest == rest;
      }
    }
  }

  function CountIn(times: seq<int>, lo: int, hi: int): nat {
    if times == [] then 0
    else (if lo <= times[0] <= hi then 1 else 0) + CountIn(times[1..], lo, hi)
  }

  // How many instants gap apart fit into a window of length w.
  function Fit(w: int, gap: int): nat
    requires gap > 0
    decreases if w < 0 then 0 else w + 1
  {
    if w < 0 then 0 else Fit(w - gap, gap) + 1
  }

  lemma {:induction false} FitMonotone(v: int, w: int, gap: int)
    requires gap > 0 && v <= w
    ensures Fit(v, gap) <= Fit(w, gap)
    decreases if w < 0 then 0 else w + 1
  {
    if v >= 0 {
      FitMonotone(v - gap, w - gap, gap);
    }
  }

  lemma {:induction false} FitQuotient(w: nat, gap: int)
    requires gap > 0
    ensures Fit(w, gap) == w / gap + 1
    decreases w
  {
    if w < gap {
      assert Fit(w - gap, gap) == 0;
      Arithmetic.QuotientUnique(w, gap, 0, w);
    } else {
      FitQuotient(w - gap, gap);
      var q, r := (w - gap) / gap, (w - gap) % gap;
      assert w == (q + 1) * gap + r;
      Arithmetic.QuotientUnique(w, gap, q + 1, r);
    }
  }

  function Max(a: int, b: int): int {
    if a < b then b else a
  }

  lemma {:induction false} SpacedCount(times: seq<int>, t: int, gap: int, lo: int, hi: int)
    requires gap > 0 && Spaced(times, t, gap)
    ensures CountIn(times, lo, hi) <= Fit(hi - Max(lo, t + gap), gap)
    decreases |times|
  {
    if times != [] {
      var first := times[0];
      SpacedCount(times[1..], first, gap, lo, hi);
      if lo <= first <= hi {
        FitMonotone(hi - first, hi - Max(lo, t + gap), gap);
      } else {
        FitMonotone(hi - Max(lo, first + gap), hi - Max(lo, t + gap), gap);
      }
    }
  }

  // A window of length w sees at most w / min(TTL, 5s) + 1 contacts, the one at t
  // included.
  lemma WindowBound(c: Cache, k: string, ttl: int, calls: seq<Call>, t: int, lo: int, w: nat)
    requires RefsInHeap(c) && LastContact(c, k, t) && InOrder(calls, t)
    ensures CountIn([t] + ContactTimes(c, k, ttl, calls), lo, lo + w) <= w / Gap(ttl) + 1
  {
    var gap := Gap(ttl);
    var times := ContactTimes(c, k, ttl, calls);
    ContactsAreSpaced(c, k, ttl, calls, t, t);
    assert ([t] + times)[1..] == times;
    SpacedCount([t] + times, t - gap, gap, lo, lo + w);
    FitMonotone(lo + w - Max(lo, t), w, gap);
    FitQuotient(w, gap);
  }

  function ServeAll(c: Cache, k: string, ttl: int, calls: seq<Call>): (c': Cache)
    requires RefsInHeap(c)
    ensures RefsInHeap(c')
    decreases |calls|
  {
    if calls == [] then c else Serve(ServeAll(c, k, ttl, calls[..|calls| - 1]), k, ttl, calls[|calls| - 1])
  }

  lemma {:induction false} FetchTimeKept(c: Cache, k: string, ttl: int, calls: seq<Call>, t: int)
    requires RefsInHeap(c) && k in c.prices && c.prices[k].fetched >= t
    requires forall call <- calls :: call.now >= t
    ensures k in ServeAll(c, k, ttl, calls).prices && ServeAll(c, k, ttl, calls).prices[k].fetched >= t
    decreases |calls|
  {
    if calls != [] {
      FetchTimeKept(c, k, ttl, calls[..|calls| - 1], t);
      assert calls[|calls| - 1] in calls;
    }
  }

  // After a success at t no call up to t + TTL goes to the source, whatever the
  // calls in between got.
  lemma NoContactWithinTTL(c: Cache, k: string, ttl: int, success: Call, between: seq<Call>, call: Call)
    requires RefsInHeap(c) && Contacting(c, k, ttl, success) && success.fetched.Some?
    requires forall b <- between :: success.now <= b.now
    requires Contacting(ServeAll(Serve(c, k, ttl, success), k, ttl, between), k, ttl, call)
    ensures call.now > success.now + EffectiveTTL(ttl)
  {
    FetchTimeKept(Serve(c, k, ttl, success), k, ttl, between, success.now);
  }

  // The first success is needed: failures before it are not remembered, and
  // every call goes to the source.
  lemma {:induction false} NoBackoffBeforeFirstSuccess(c: Cache, k: string, ttl: int, calls: seq<Call>)
    requires RefsInHeap(c) && k !in c.prices
    requires forall call <- calls :: call.fetched.None?
    ensures |ContactTimes(c, k, ttl, calls)| == |calls|
    decreases |calls|
  {
    if calls != [] {
      assert calls[0] in calls;
      NoBackoffBeforeFirstSuccess(c, k, ttl, calls[1..]);
    }
  }

  /******* Exactly when the source is asked *******/

  // A call of Prices, or of PricesForced.
  datatype Request = Request(now: int, forced: bool, fetched: Option<PriceMap>)

  // The cache after a history of requests for k; the last one is the latest.
  ghost function CacheAfter(k: string, ttl: int, rs: seq<Request>): (c: Cache)
    ensures RefsInHeap(c)
    decreases |rs|
  {
    if rs == [] then Cache(map[], [])
    else
      var before, r := CacheAfter(k, ttl, rs[..|rs| - 1]), rs[|rs| - 1];
      var snap := Snapshot(before, k);
      if !Contacts(snap, r.now, ttl, r.forced) then before
      else if r.fetched.Some? then CommitOk(before, k, r.now, snap, r.fetched.value)
      else CommitFail(before, k, r.now, snap)
  }

  // Request i goes to the source.
  ghost predicate Asked(k: string, ttl: int, rs: seq<Request>, i: nat)
    requires i < |rs|
  {
    Contacts(Snapshot(CacheAfter(k, ttl, rs[..i]), k), rs[i].now, ttl, rs[i].forced)
  }

  ghost predicate Succeeded(k: string, ttl: int, rs: seq<Request>, i: nat)
    requires i < |rs|
  {
    Asked(k, ttl, rs, i) && rs[i].fetched.Some?
  }

  // Of the first n requests, s is the last that fetched successfully.
  ghost predicate LastSuccess(k: string, ttl: int, rs: seq<Request>, n: nat, s: nat)
    requires n <= |rs|
  {
    s < n && Succeeded(k, ttl, rs, s) && forall j :: s < j < n ==> !Succeeded(k, ttl, rs, j)
  }

  lemma AskedEarlier(k: string, ttl: int, rs: seq<Request>, n: nat)
    requires n <= |rs|
    ensures forall i: nat {:trigger Asked(k, ttl, rs, i)} {:trigger Asked(k, ttl, rs[..n], i)} ::
              i < n ==> (Asked(k, ttl, rs[..n], i) <==> Asked(k, ttl, rs, i))
    ensures forall i: nat {:trigger Succeeded(k, ttl, rs, i)} {:trigger Succeeded(k, ttl, rs[..n], i)} ::
              i < n ==> (Succeeded(k, ttl, rs[..n], i) <==> Succeeded(k, ttl, rs, i))
  {
    forall i: nat | i < n
      ensures Asked(k, ttl, rs[..n], i) <==> Asked(k, ttl, rs, i)
    {
      assert rs[..n][..i] == rs[..i];
    }
  }

  // What the entry for k says about the history: s is the last success and f the
  // last contact since, or -1.
  ghost predicate EntrySays(k: string, ttl: int, rs: seq<Request>, s: int, f: int) {
    var c := CacheAfter(k, ttl, rs);
    && -1 <= s < |rs| && -1 <= f < |rs|
    && (s == -1 ==> k !in c.prices && forall j: nat :: j < |rs| ==> !Succeeded(k, ttl, rs, j))
    && (s >= 0 ==>
          && LastSuccess(k, ttl, rs, |rs|, s) && k in c.prices && c.prices[k].fetched == rs[s].now
          && (f == -1 ==> c.prices[k].failedAt.None? && forall j: nat :: s < j < |rs| ==> !Asked(k, ttl, rs, j))
          && (f >= 0 ==> s < f && Asked(k, ttl, rs, f) && c.prices[k].failedAt == Some(rs[f].now)
                         && forall j: nat :: f < j < |rs| ==> !Asked(k, ttl, rs, j)))
  }

  lemma EntryAfter(k: string, ttl: int, rs: seq<Request>, s: int, f: int) returns (s': int, f': int)
    requires rs != [] && EntrySays(k, ttl, rs[..|rs| - 1], s, f)
    ensures EntrySays(k, ttl, rs, s', f')
  {
    var n := |rs| - 1;
    AskedEarlier(k, ttl, rs, n);
    assert forall j: nat :: j < n ==> rs[..n][j] == rs[j];
    if !Asked(k, ttl, rs, n) {
      s', f' := s, f;
    } else if rs[n].fetched.Some? {
      s', f' := n, -1;
    } else {
      s', f' := s, if s == -1 then -1 else n;
    }
  }

  lemma {:induction false} EntryRemembers(k: string, ttl: int, rs: seq<Request>) returns (s: int, f: int)
    ensures EntrySays(k, ttl, rs, s, f)
  {
    if rs == [] {
      s, f := -1, -1;
    } else {
      s, f := EntryRemembers(k, ttl, rs[..|rs| - 1]);
      s, f := EntryAfter(k, ttl, rs, s, f);
    }
  }

  predicate ClockRuns(rs: seq<Request>) {
    forall a, b :: 0 <= a < b < |rs| ==> rs[a].now <= rs[b].now
  }

  // Request i comes more than the TTL (ten minutes when the source gives none)
  // after the last success s, and at least 5 seconds after every contact since.
  ghost predicate Stale(k: string, ttl: int, rs: seq<Request>, i: nat, s: nat)
    requires i < |rs|
  {
    && LastSuccess(k, ttl, rs, i, s)
    && rs[i].now > rs[s].now + (if ttl <= 0 then 600_000_000_000 else ttl)
    && forall f: nat :: s < f < i && Asked(k, ttl, rs, f) ==> rs[i].now - rs[f].now >= 5_000_000_000
  }

  // In terms of the last success and the last contact since.
  lemma AskedNow(k: string, ttl: int, rs: seq<Request>, i: nat, s: int, f: int)
    requires i < |rs| && EntrySays(k, ttl, rs[..i], s, f)
    ensures Asked(k, ttl, rs, i) <==>
              || rs[i].forced || s == -1
              || (rs[i].now > rs[s].now + (if ttl <= 0 then 600_000_000_000 else ttl)
                  && (f == -1 || rs[i].now - rs[f].now >= 5_000_000_000))
  {
  }

  lemma LastSuccessIs(k: string, ttl: int, rs: seq<Request>, i: nat, s: int, f: int)
    requires i < |rs| && EntrySays(k, ttl, rs[..i], s, f)
    ensures s == -1 ==> forall j: nat :: j < i ==> !Succeeded(k, ttl, rs, j)
    ensures s >= 0 ==> LastSuccess(k, ttl, rs, i, s) && forall z: nat :: LastSuccess(k, ttl, rs, i, z) ==> z == s
  {
    AskedEarlier(k, ttl, rs, i);
    if s >= 0 {
      forall j: nat | s < j < i
        ensures !Succeeded(k, ttl, rs, j)
      {
        assert !Succeeded(k, ttl, rs[..i], j);
      }
    }
  }

  lemma LastContactIs(k: string, ttl: int, rs: seq<Request>, i: nat, s: int, f: int)
    requires i < |rs| && EntrySays(k, ttl, rs[..i], s, f) && s >= 0 && ClockRuns(rs)
    ensures (forall g: nat :: s < g < i && Asked(k, ttl, rs, g) ==> rs[i].now - rs[g].now >= 5_000_000_000) <==>
              (f == -1 || rs[i].now - rs[f].now >= 5_000_000_000)
  {
    AskedEarlier(k, ttl, rs, i);
    forall g: nat | s < g < i && Asked(k, ttl, rs, g)
      ensures f >= 0 && rs[g].now <= rs[f].now
    {
      assert Asked(k, ttl, rs[..i], g);
    }
    if f >= 0 {
      assert Asked(k, ttl, rs, f);
    }
  }

  // Over every run on a key, a request goes to the source exactly when it is
  // forced, when no fetch has succeeded yet, or when what is held is stale.
  lemma AskedExactly(k: string, ttl: int, rs: seq<Request>, i: nat)
    requires i < |rs| && ClockRuns(rs)
    ensures Asked(k, ttl, rs, i) <==>
              || rs[i].forced
              || (forall j: nat :: j < i ==> !Succeeded(k, ttl, rs, j))
              || (exists s: nat :: Stale(k, ttl, rs, i, s))
  {
    var s, f := EntryRemembers(k, ttl, rs[..i]);
    AskedNow(k, ttl, rs, i, s, f);
    LastSuccessIs(k, ttl, rs, i, s, f);
    if s >= 0 {
      LastContactIs(k, ttl, rs, i, s, f);
      assert Succeeded(k, ttl, rs, s);
      assert Stale(k, ttl, rs, i, s) <==>
               rs[i].now > rs[s].now + (if ttl <= 0 then 600_000_000_000 else ttl)
               && (f == -1 || rs[i].now - rs[f].now >= 5_000_000_000);
    }
  }
}
