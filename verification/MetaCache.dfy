// The price cache. A call looks at the entry under the lock, fetches without it,
// and commits under it again; the price maps themselves are shared by reference.
module MetaCache {
  import opened Text

  datatype Price = Price(onDemand: real, spot: real)

  type PriceMap = map<string, Price>

  // The map key of a cloud and region: joined by a NUL.
  function CacheKey(cloud: string, region: string): string {
    cloud + "\0" + region
  }

  // Distinct pairs get distinct keys, as long as no cloud name contains a NUL.
  lemma CacheKeyInjective(cloud1: string, region1: string, cloud2: string, region2: string)
    requires '\0' !in cloud1 && '\0' !in cloud2
    requires CacheKey(cloud1, region1) == CacheKey(cloud2, region2)
    ensures cloud1 == cloud2 && region1 == region2
  {
    SplitAt(cloud1, '\0', region1);
    SplitAt(cloud2, '\0', region2);
    assert cloud1 == Split(CacheKey(cloud1, region1), '\0')[0];
    assert region1 == CacheKey(cloud1, region1)[|cloud1| + 1..];
    assert region2 == CacheKey(cloud2, region2)[|cloud2| + 1..];
  }

  // Two cloud names share keys exactly when one is the other followed by a NUL
  // and anything.
  lemma CacheKeysCollideExactly(cloud1: string, cloud2: string)
    requires cloud1 != cloud2
    ensures (exists region1, region2 :: CacheKey(cloud1, region1) == CacheKey(cloud2, region2)) <==>
              cloud1 + "\0" <= cloud2 || cloud2 + "\0" <= cloud1
  {
    if cloud1 + "\0" <= cloud2 {
      SharedKey(cloud1, cloud2);
    } else if cloud2 + "\0" <= cloud1 {
      SharedKey(cloud2, cloud1);
    }
    forall region1, region2 | CacheKey(cloud1, region1) == CacheKey(cloud2, region2)
      ensures cloud1 + "\0" <= cloud2 || cloud2 + "\0" <= cloud1
    {
      if |cloud1| <= |cloud2| {
        ShorterIsPrefix(cloud1, region1, cloud2, region2);
      } else {
        ShorterIsPrefix(cloud2, region2, cloud1, region1);
      }
    }
  }

  lemma SharedKey(cloud1: string, cloud2: string)
    requires cloud1 + "\0" <= cloud2
    ensures CacheKey(cloud1, cloud2[|cloud1| + 1..] + "\0") == CacheKey(cloud2, "")
  {
    var rest := cloud2[|cloud1| + 1..];
    assert cloud2 == cloud1 + "\0" + rest;
    assert cloud1 + "\0" + (rest + "\0") == cloud1 + "\0" + rest + "\0" + "";
  }

  lemma ShorterIsPrefix(cloud1: string, region1: string, cloud2: string, region2: string)
    requires |cloud1| <= |cloud2| && cloud1 != cloud2
    requires CacheKey(cloud1, region1) == CacheKey(cloud2, region2)
    ensures cloud1 + "\0" <= cloud2
  {
    var key := CacheKey(cloud1, region1);
    assert key[..|cloud1|] == cloud1 && key[..|cloud2|] == cloud2;
    assert cloud1 == cloud2[..|cloud1|];
    assert key[|cloud1|] == '\0' && (|cloud1| < |cloud2| ==> key[|cloud1|] == cloud2[|cloud1|]);
  }

  // ref says which map object the entry holds; failedAt is None until a fetch failed.
  datatype Entry = Entry(ref: nat, fetched: int, failedAt: Option<int>)

  // A map object, with the key it was made for (bookkeeping only).
  datatype Cell = Cell(key: string, contents: PriceMap)

  datatype Cache = Cache(prices: map<string, Entry>, heap: seq<Cell>)

  const BACKOFF := 5_000_000_000
  const DEFAULT_PRICE_TTL := 600_000_000_000

  // Durations and instants are in nanoseconds.
  function EffectiveTTL(ttl: int): (r: int)
    ensures r > 0
  {
    if ttl <= 0 then DEFAULT_PRICE_TTL else ttl
  }

  predicate Fresh(e: Entry, now: int, ttl: int) {
    now - e.fetched <= EffectiveTTL(ttl)
  }

  predicate BackingOff(e: Entry, now: int) {
    e.failedAt.Some? && now - e.failedAt.value < BACKOFF
  }

  function Snapshot(c: Cache, k: string): Option<Entry> {
    if k in c.prices then Some(c.prices[k]) else None
  }

  // Whether a call goes to the source.
  predicate Contacts(snap: Option<Entry>, now: int, ttl: int, forced: bool) {
    forced || snap.None? || (!Fresh(snap.value, now, ttl) && !BackingOff(snap.value, now))
  }

  predicate RefsInHeap(c: Cache) {
    forall k <- c.prices :: c.prices[k].ref < |c.heap|
  }

  // The map object a successful commit merges into: the snapshot's, or a new one.
  function TargetRef(c: Cache, snap: Option<Entry>): nat {
    if snap.Some? then snap.value.ref else |c.heap|
  }

  function Target(c: Cache, k: string, snap: Option<Entry>): Cell
    requires snap.Some? ==> snap.value.ref < |c.heap|
  {
    if snap.Some? then c.heap[snap.value.ref] else Cell(k, map[])
  }

  function CommitOk(c: Cache, k: string, now: int, snap: Option<Entry>, got: PriceMap): Cache
    requires snap.Some? ==> snap.value.ref < |c.heap|
  {
    var ref := TargetRef(c, snap);
    var cell := Target(c, k, snap);
    var merged := cell.(contents := cell.contents + got);
    Cache(c.prices[k := Entry(ref, now, None)],
          if snap.Some? then c.heap[ref := merged] else c.heap + [merged])
  }

  // The snapshot is written back, with the time of the failure.
  function CommitFail(c: Cache, k: string, now: int, snap: Option<Entry>): Cache {
    if snap.None? then c
    else c.(prices := c.prices[k := snap.value.(failedAt := Some(now))])
  }

  class PriceCache {
    var prices: map<string, Entry>
    var heap: seq<Cell>

    function State(): Cache
      reads this
    {
      Cache(prices, heap)
    }

    constructor ()
      ensures State() == Cache(map[], [])
    {
      prices, heap := map[], [];
    }

    // First critical section: the snapshot, and whether to fetch.
    method Begin(k: string, now: int, ttl: int, forced: bool) returns (snap: Option<Entry>, fetch: bool)
      ensures snap == Snapshot(State(), k)
      ensures fetch <==> Contacts(snap, now, ttl, forced)
    {
      snap := if k in prices then Some(prices[k]) else None;
      fetch := true;
      if !forced && snap.Some? {
        if now - snap.value.fetched <= EffectiveTTL(ttl) {
          fetch := false;
        } else if snap.value.failedAt.Some? && now - snap.value.failedAt.value < BACKOFF {
          fetch := false;
        }
      }
    }

    // Second critical section after a successful fetch; the result's entries are
    // written into the shared map one by one.
    method Succeed(k: string, now: int, snap: Option<Entry>, got: PriceMap) returns (ref: nat)
      requires snap.Some? ==> snap.value.ref < |heap|
      modifies this
      ensures State() == CommitOk(old(State()), k, now, snap, got)
      ensures ref == TargetRef(old(State()), snap) && ref < |heap|
    {
      ghost var before := State();
      ghost var target := Target(before, k, snap);
      if snap.None? {
        ref := |heap|;
        heap := heap + [Cell(k, map[])];
      } else {
        ref := snap.value.ref;
      }
      ghost var grown := heap;
      var rest := got.Keys;
      while rest != {}
        invariant rest <= got.Keys
        invariant prices == before.prices && ref < |grown| == |heap|
        invariant heap == grown[ref := heap[ref]] && heap[ref].key == target.key
        invariant heap[ref].contents == target.contents + (map t | t in got && t !in rest :: got[t])
        decreases rest
      {
        var t :| t in rest;
        rest := rest - {t};
        heap := heap[ref := heap[ref].(contents := heap[ref].contents[t := got[t]])];
      }
      assert (map t | t in got && t !in rest :: got[t]) == got;
      prices := prices[k := Entry(ref, now, None)];
    }

    method Fail(k: string, now: int, snap: Option<Entry>)
      modifies this`prices
      ensures State() == CommitFail(old(State()), k, now, snap)
    {
      if snap.Some? {
        prices := prices[k := snap.value.(failedAt := Some(now))];
      }
    }

    // A whole call with no other call in between; fetched is the source's answer.
    method Prices(k: string, now: int, ttl: int, forced: bool, fetched: Option<PriceMap>)
      returns (r: Option<nat>, contacted: bool)
      requires RefsInHeap(State())
      modifies this
      ensures RefsInHeap(State())
      ensures contacted <==> Contacts(Snapshot(old(State()), k), now, ttl, forced)
      ensures State() == if !contacted then old(State())
                         else if fetched.Some? then CommitOk(old(State()), k, now, Snapshot(old(State()), k), fetched.value)
                         else CommitFail(old(State()), k, now, Snapshot(old(State()), k))
      ensures r.Some? <==> k in prices
      ensures r.Some? ==> r.value == prices[k].ref
    {
      var snap, fetch := Begin(k, now, ttl, forced);
      contacted := fetch;
      if fetch && fetched.Some? {
        var ref := Succeed(k, now, snap, fetched.value);
        return Some(ref), contacted;
      }
      if fetch {
        Fail(k, now, snap);
      }
      r := if snap.Some? then Some(snap.value.ref) else None;
    }
  }
}
