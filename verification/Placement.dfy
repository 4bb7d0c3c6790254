// Placement candidates: which instances fit a request, and what they cost.
module Placement {
  import opened Text
  import opened Ranges
  import MetaCache

  datatype Instance = Instance(cloud: string, region: string, instanceType: string, vcpus: int, memoryGiB: real,
                               accelerators: map<string, int>, maxDiskGiB: real)

  datatype Resources = Resources(instanceType: string, cpus: Option<Range>, memory: Option<Range>,
                                 diskSize: Option<Range>, accelerators: map<string, int>, region: string,
                                 useSpot: Option<bool>, timeSec: Option<int>, ordered: seq<Resources>)

  datatype Options = Options(numNodes: int, useSpot: bool, cloud: string, region: string, maxCandidates: int)

  datatype Candidate = Candidate(inst: Instance, onDemand: real, spot: real, estimatedTime: real) {
    predicate Priced() {
      onDemand > 0.0 || spot > 0.0
    }

    function CostPerHour(useSpot: bool): real {
      HourlyCost(onDemand, spot, useSpot)
    }
  }

  // The chosen mode's price, or an estimate from the other mode's, or 0.
  function HourlyCost(onDemand: real, spot: real, useSpot: bool): real {
    if useSpot then
      if spot > 0.0 then spot else if onDemand > 0.0 then onDemand * 0.3 else 0.0
    else
      if onDemand > 0.0 then onDemand else if spot > 0.0 then spot * 3.0 else 0.0
  }

  /******* Matching *******/

  function LowerChar(c: char): char {
    if 'A' <= c <= 'Z' then c - 'A' + 'a' else c
  }

  function ToLower(s: string): (r: string)
    ensures |r| == |s|
    ensures forall i :: 0 <= i < |s| ==> r[i] == LowerChar(s[i])
  {
    if s == "" then "" else [LowerChar(s[0])] + ToLower(s[1..])
  }

  // How many accelerators of a name an instance has; the lower-case name first.
  function AcceleratorCount(inst: Instance, name: string): Option<int> {
    if ToLower(name) in inst.accelerators then Some(inst.accelerators[ToLower(name)])
    else if name in inst.accelerators then Some(inst.accelerators[name])
    else None
  }

  // The disk size asked for: the lower bound, or else the upper.
  function RequestedDisk(rs: Resources): Option<real> {
    if rs.diskSize.None? then None
    else if rs.diskSize.value.min.Some? then rs.diskSize.value.min
    else rs.diskSize.value.max
  }

  predicate MatchesResources(inst: Instance, rs: Resources) {
    && (rs.instanceType == "" || inst.instanceType == rs.instanceType)
    && Matches(rs.cpus, inst.vcpus as real)
    && Matches(rs.memory, inst.memoryGiB)
    && (RequestedDisk(rs).Some? ==> RequestedDisk(rs).value <= inst.maxDiskGiB)
    && (forall name <- rs.accelerators ::
          AcceleratorCount(inst, name).Some? && rs.accelerators[name] <= AcceleratorCount(inst, name).value)
  }

  predicate WiderRange(narrow: Option<Range>, wide: Option<Range>) {
    wide.Some? ==>
      && (wide.value.min.Some? ==> narrow.Some? && narrow.value.min.Some? && wide.value.min.value <= narrow.value.min.value)
      && (wide.value.max.Some? ==> narrow.Some? && narrow.value.max.Some? && narrow.value.max.value <= wide.value.max.value)
  }

  // rs asks for no less than loose does.
  predicate Relaxes(rs: Resources, loose: Resources) {
    && (loose.instanceType == "" || loose.instanceType == rs.instanceType)
    && WiderRange(rs.cpus, loose.cpus) && WiderRange(rs.memory, loose.memory)
    && (RequestedDisk(loose).Some? ==> RequestedDisk(rs).Some? && RequestedDisk(loose).value <= RequestedDisk(rs).value)
    && (forall name <- loose.accelerators ::
          name in rs.accelerators && loose.accelerators[name] <= rs.accelerators[name])
    && (loose.region == "" || loose.region == rs.region)
  }

  lemma RelaxedMatches(inst: Instance, rs: Resources, loose: Resources)
    requires Relaxes(rs, loose) && MatchesResources(inst, rs)
    ensures MatchesResources(inst, loose)
  {
  }

  // Changing only the disk range keeps every matching instance exactly when the
  // bound the matcher picks from it does not rise.
  lemma DiskChangeKeepsExactly(rs: Resources, loose: Resources, fits: Instance)
    requires loose == rs.(diskSize := loose.diskSize) && MatchesResources(fits, rs)
    ensures (forall inst :: MatchesResources(inst, rs) ==> MatchesResources(inst, loose)) <==>
              (RequestedDisk(loose).Some? ==> RequestedDisk(rs).Some? && RequestedDisk(loose).value <= RequestedDisk(rs).value)
  {
    if RequestedDisk(loose).Some? && (RequestedDisk(rs).None? || RequestedDisk(rs).value < RequestedDisk(loose).value) {
      var disk := if RequestedDisk(rs).Some? then RequestedDisk(rs).value else RequestedDisk(loose).value - 1.0;
      var inst := fits.(maxDiskGiB := disk);
      SameCounts(fits, inst, rs);
      assert MatchesResources(inst, rs) && !MatchesResources(inst, loose);
    }
  }

  lemma SameCounts(a: Instance, b: Instance, rs: Resources)
    requires MatchesResources(a, rs) && b == a.(maxDiskGiB := b.maxDiskGiB)
    requires RequestedDisk(rs).Some? ==> RequestedDisk(rs).value <= b.maxDiskGiB
    ensures MatchesResources(b, rs)
  {
    assert forall name :: AcceleratorCount(a, name) == AcceleratorCount(b, name);
  }

  // So widening a disk range excludes some instance exactly when the wider one has
  // no lower bound and an upper one above what was asked for before.
  lemma WideningExcludesExactly(rs: Resources, loose: Resources, fits: Instance)
    requires loose == rs.(diskSize := loose.diskSize) && MatchesResources(fits, rs)
    requires WiderRange(rs.diskSize, loose.diskSize)
    ensures (exists inst :: MatchesResources(inst, rs) && !MatchesResources(inst, loose)) <==>
              && loose.diskSize.Some? && loose.diskSize.value.min.None? && loose.diskSize.value.max.Some?
              && RequestedDisk(rs).value < loose.diskSize.value.max.value
  {
    DiskChangeKeepsExactly(rs, loose, fits);
  }

  // For instance: 10-100 widened to -100 excludes an instance with 50 GiB.
  lemma WiderDiskCanExclude()
    ensures exists inst, rs, loose ::
              MatchesResources(inst, rs) && !MatchesResources(inst, loose) &&
              WiderRange(rs.diskSize, loose.diskSize) && loose == rs.(diskSize := loose.diskSize)
  {
    var inst := Instance("c", "r", "t", 4, 16.0, map[], 50.0);
    var rs := Resources("", None, None, Some(Range(Some(10.0), Some(100.0))), map[], "", None, None, []);
    var loose := rs.(diskSize := Some(Range(None, Some(100.0))));
    assert RequestedDisk(rs) == Some(10.0) && RequestedDisk(loose) == Some(100.0);
    assert MatchesResources(inst, rs) && !MatchesResources(inst, loose);
  }

  /******* One requirement at a time *******/

  // A request for nothing in particular.
  const ANYTHING := Resources("", None, None, None, map[], "", None, None, [])

  // Which instances a request with a single requirement takes.
  lemma NumberRequests(inst: Instance, a: real, b: real)
    ensures MatchesResources(inst, ANYTHING)
    ensures MatchesResources(inst, ANYTHING.(cpus := Some(Range(Some(a), Some(b))))) <==> a <= inst.vcpus as real <= b
    ensures MatchesResources(inst, ANYTHING.(cpus := Some(Range(Some(a), None)))) <==> a <= inst.vcpus as real
    ensures MatchesResources(inst, ANYTHING.(cpus := Some(Range(None, Some(b))))) <==> inst.vcpus as real <= b
    ensures MatchesResources(inst, ANYTHING.(memory := Some(Range(Some(a), Some(b))))) <==> a <= inst.memoryGiB <= b
    ensures MatchesResources(inst, ANYTHING.(memory := Some(Range(Some(a), None)))) <==> a <= inst.memoryGiB
    ensures MatchesResources(inst, ANYTHING.(memory := Some(Range(None, Some(b))))) <==> inst.memoryGiB <= b
  {
  }

  lemma OtherRequests(inst: Instance, a: real, b: real, name: string)
    ensures MatchesResources(inst, ANYTHING.(diskSize := Some(Range(Some(a), Some(b))))) <==> a <= inst.maxDiskGiB
    ensures MatchesResources(inst, ANYTHING.(diskSize := Some(Range(Some(a), None)))) <==> a <= inst.maxDiskGiB
    ensures MatchesResources(inst, ANYTHING.(diskSize := Some(Range(None, Some(b))))) <==> b <= inst.maxDiskGiB
    ensures name != "" ==> (MatchesResources(inst, ANYTHING.(instanceType := name)) <==> inst.instanceType == name)
  {
  }

  // Accelerator names are looked for in lower case first.
  lemma AcceleratorRequests(inst: Instance, name: string, count: int)
    ensures var key := if ToLower(name) in inst.accelerators then ToLower(name) else name;
            MatchesResources(inst, ANYTHING.(accelerators := map[name := count])) <==>
              key in inst.accelerators && inst.accelerators[key] >= count
  {
    var rs := ANYTHING.(accelerators := map[name := count]);
    assert name in rs.accelerators && forall n <- rs.accelerators :: n == name;
  }

  // Several requirements are met when each is.
  lemma RequestsCombine(inst: Instance, rs: Resources)
    ensures MatchesResources(inst, rs) <==>
              && MatchesResources(inst, ANYTHING.(instanceType := rs.instanceType))
              && MatchesResources(inst, ANYTHING.(cpus := rs.cpus)) && MatchesResources(inst, ANYTHING.(memory := rs.memory))
              && MatchesResources(inst, ANYTHING.(diskSize := rs.diskSize))
              && forall name <- rs.accelerators :: MatchesResources(inst, ANYTHING.(accelerators := map[name := rs.accelerators[name]]))
  {
  }

  /******* Collecting *******/

  // The metadata source: every lookup may fail.
  datatype Meta = Meta(clouds: Option<seq<string>>, regions: string -> Option<seq<string>>,
                       instances: (string, string) -> Option<seq<Instance>>,
                       prices: (string, string) -> Option<MetaCache.PriceMap>)

  function Unpriced(inst: Instance): Candidate {
    Candidate(inst, 0.0, 0.0, 0.0)
  }

  function TrimAll(parts: seq<string>): seq<string> {
    if parts == [] then [] else [TrimSpace(parts[0])] + TrimAll(parts[1..])
  }

  predicate CloudSelected(filter: string, name: string) {
    filter == "" || name in TrimAll(Split(filter, ','))
  }

  function RegionFilter(rs: Resources, opts: Options): string {
    if opts.region == "" then rs.region else opts.region
  }

  function Fitting(insts: seq<Instance>, rs: Resources): seq<Candidate> {
    if insts == [] then []
    else (if MatchesResources(insts[0], rs) then [Unpriced(insts[0])] else []) + Fitting(insts[1..], rs)
  }

  function Append(a: Option<seq<Candidate>>, b: Option<seq<Candidate>>): Option<seq<Candidate>> {
    if a.Some? && b.Some? then Some(a.value + b.value) else None
  }

  function InRegion(meta: Meta, cloud: string, region: string, rs: Resources, opts: Options): Option<seq<Candidate>> {
    var filter := RegionFilter(rs, opts);
    if filter != "" && region != filter then Some([])
    else
      match meta.instances(cloud, region)
      case None => None
      case Some(insts) => Some(Fitting(insts, rs))
  }

  function InRegions(meta: Meta, cloud: string, regions: seq<string>, rs: Resources, opts: Options): Option<seq<Candidate>> {
    if regions == [] then Some([])
    else Append(InRegion(meta, cloud, regions[0], rs, opts), InRegions(meta, cloud, regions[1..], rs, opts))
  }

  function InCloud(meta: Meta, cloud: string, rs: Resources, opts: Options): Option<seq<Candidate>> {
    if !CloudSelected(opts.cloud, cloud) then Some([])
    else
      match meta.regions(cloud)
      case None => None
      case Some(regions) => InRegions(meta, cloud, regions, rs, opts)
  }

  function InClouds(meta: Meta, clouds: seq<string>, rs: Resources, opts: Options): Option<seq<Candidate>> {
    if clouds == [] then Some([])
    else Append(InCloud(meta, clouds[0], rs, opts), InClouds(meta, clouds[1..], rs, opts))
  }

  // The feasible instances, in the source's order; None when a lookup failed.
  function Feasible(meta: Meta, rs: Resources, opts: Options): Option<seq<Candidate>> {
    if meta.clouds.None? then None else InClouds(meta, meta.clouds.value, rs, opts)
  }

  method CollectCandidates(meta: Meta, rs: Resources, opts: Options) returns (r: Option<seq<Candidate>>)
    ensures r == Feasible(meta, rs, opts)
  {
    if meta.clouds.None? {
      return None;
    }
    var names, out: seq<Candidate> := meta.clouds.value, [];
    AppendNothing(InClouds(meta, names, rs, opts));
    assert names[0..] == names;
    for i := 0 to |names|
      invariant InClouds(meta, names, rs, opts) == Append(Some(out), InClouds(meta, names[i..], rs, opts))
    {
      assert names[i..][0] == names[i] && names[i..][1..] == names[i + 1..];
      AppendAssoc(Some(out), InCloud(meta, names[i], rs, opts), InClouds(meta, names[i + 1..], rs, opts));
      var more: Option<seq<Candidate>> := Some([]);
      if CloudSelected(opts.cloud, names[i]) {
        var regions := meta.regions(names[i]);
        if regions.None? {
          return None;
        }
        more := CollectRegions(meta, names[i], regions.value, rs, opts);
        if more.None? {
          return None;
        }
      }
      out := out + more.value;
    }
    assert out + [] == out;
    return Some(out);
  }

  method CollectRegions(meta: Meta, cloud: string, regions: seq<string>, rs: Resources, opts: Options)
    returns (r: Option<seq<Candidate>>)
    ensures r == InRegions(meta, cloud, regions, rs, opts)
  {
    var out: seq<Candidate> := [];
    AppendNothing(InRegions(meta, cloud, regions, rs, opts));
    assert regions[0..] == regions;
    for i := 0 to |regions|
      invariant InRegions(meta, cloud, regions, rs, opts) == Append(Some(out), InRegions(meta, cloud, regions[i..], rs, opts))
    {
      assert regions[i..][0] == regions[i] && regions[i..][1..] == regions[i + 1..];
      AppendAssoc(Some(out), InRegion(meta, cloud, regions[i], rs, opts), InRegions(meta, cloud, regions[i + 1..], rs, opts));
      var filter := RegionFilter(rs, opts);
      if filter == "" || regions[i] == filter {
        var insts := meta.instances(cloud, regions[i]);
        if insts.None? {
          return None;
        }
        var fitting := FilterInstances(insts.value, rs);
        out := out + fitting;
      } else {
        assert out + [] == out;
      }
    }
    assert out + [] == out;
    return Some(out);
  }

  method FilterInstances(insts: seq<Instance>, rs: Resources) returns (out: seq<Candidate>)
    ensures out == Fitting(insts, rs)
  {
    out := [];
    assert insts[0..] == insts;
    for i := 0 to |insts|
      invariant Fitting(insts, rs) == out + Fitting(insts[i..], rs)
    {
      FittingStep(insts, rs, i, out);
      var fits := MatchesResources(insts[i], rs);
      if fits {
        out := out + [Unpriced(insts[i])];
      }
    }
  }

  lemma FittingStep(insts: seq<Instance>, rs: Resources, i: nat, out: seq<Candidate>)
    requires i < |insts|
    ensures out + Fitting(insts[i..], rs) ==
              (if MatchesResources(insts[i], rs) then out + [Unpriced(insts[i])] else out) + Fitting(insts[i + 1..], rs)
  {
    assert insts[i..][0] == insts[i] && insts[i..][1..] == insts[i + 1..];
  }

  lemma AppendNothing(a: Option<seq<Candidate>>)
    ensures Append(Some([]), a) == a
  {
    assert a.Some? ==> [] + a.value == a.value;
  }

  lemma AppendAssoc(a: Option<seq<Candidate>>, b: Option<seq<Candidate>>, c: Option<seq<Candidate>>)
    ensures Append(a, Append(b, c)) == Append(Append(a, b), c)
  {
    if a.Some? && b.Some? && c.Some? {
      assert a.value + (b.value + c.value) == a.value + b.value + c.value;
    }
  }

  /******* Prices and run times *******/

  // A positive price is taken over; a failed or empty lookup changes nothing.
  function WithPrice(meta: Meta, c: Candidate): Candidate {
    match meta.prices(c.inst.cloud, c.inst.region)
    case None => c
    case Some(prices) =>
      if c.inst.instanceType !in prices then c
      else
        var p := prices[c.inst.instanceType];
        c.(onDemand := if p.onDemand > 0.0 then p.onDemand else c.onDemand,
           spot := if p.spot > 0.0 then p.spot else c.spot)
  }

  function AllPriced(meta: Meta, cands: seq<Candidate>): (r: seq<Candidate>)
    ensures |r| == |cands|
    ensures forall i :: 0 <= i < |cands| ==> r[i] == WithPrice(meta, cands[i])
  {
    seq(|cands|, i requires 0 <= i < |cands| => WithPrice(meta, cands[i]))
  }

  // One lookup per cloud and region covers all its candidates; the order in
  // which the groups are visited is the map's and does not matter.
  method AttachPrices(meta: Meta, cands: array<Candidate>)
    modifies cands
    ensures cands[..] == AllPriced(meta, old(cands[..]))
  {
    var groups := set i | 0 <= i < cands.Length :: (cands[i].inst.cloud, cands[i].inst.region);
    ghost var all := groups;
    while groups != {}
      invariant forall i :: 0 <= i < cands.Length ==>
                  (old(cands[i]).inst.cloud, old(cands[i]).inst.region) in all
      invariant forall i :: 0 <= i < cands.Length ==>
                  cands[i] == if (old(cands[i]).inst.cloud, old(cands[i]).inst.region) in groups then old(cands[i])
                              else WithPrice(meta, old(cands[i]))
      invariant groups <= all
      decreases groups
    {
      var g :| g in groups;
      var prices := meta.prices(g.0, g.1);
      forall i | 0 <= i < cands.Length && (cands[i].inst.cloud, cands[i].inst.region) == g && prices.Some? {
        cands[i] := WithPrice(meta, cands[i]);
      }
      groups := groups - {g};
    }
  }

  ghost function TotalCount(m: map<string, int>): int {
    if m == map[] then 0 else var k :| k in m; m[k] + TotalCount(m - {k})
  }

  lemma {:induction false} TotalCountSplit(m: map<string, int>, k: string)
    requires k in m
    ensures TotalCount(m) == m[k] + TotalCount(m - {k})
    decreases m
  {
    var j :| j in m && TotalCount(m) == m[j] + TotalCount(m - {j});
    if j != k {
      TotalCountSplit(m - {j}, k);
      TotalCountSplit(m - {k}, j);
      assert m - {j} - {k} == m - {k} - {j};
    }
  }

  // Hours: the request's own estimate, or 4 vcpus' worth of work spread over the
  // vcpus, an accelerator counting for 16.
  ghost function RuntimeOf(timeSec: Option<int>, inst: Instance): real {
    if timeSec.Some? && timeSec.value > 0 then timeSec.value as real / 3600.0
    else
      var cpus := if inst.vcpus <= 0 then 4 else inst.vcpus;
      var gpus := TotalCount(inst.accelerators);
      4.0 / (if gpus > 0 then cpus + gpus * 16 else cpus) as real
  }

  method EstimateRuntime(timeSec: Option<int>, inst: Instance) returns (hours: real)
    ensures hours == RuntimeOf(timeSec, inst)
  {
    if timeSec.Some? && timeSec.value > 0 {
      return timeSec.value as real / 3600.0;
    }
    var compute := inst.vcpus;
    if compute <= 0 {
      compute := 4;
    }
    var totalGPU, rest := 0, inst.accelerators;
    while rest != map[]
      invariant totalGPU + TotalCount(rest) == TotalCount(inst.accelerators)
      decreases rest
    {
      var name :| name in rest;
      TotalCountSplit(rest, name);
      totalGPU := totalGPU + rest[name];
      rest := rest - {name};
    }
    if totalGPU > 0 {
      compute := compute + totalGPU * 16;
    }
    return 4.0 / compute as real;
  }

  // A request's own estimate counts; without one, four vcpus take an hour, an
  // accelerator counts for 16 vcpus, and unknown vcpus for 4.
  lemma RuntimeScale(inst: Instance, seconds: int)
    ensures seconds > 0 ==> RuntimeOf(Some(seconds), inst) == seconds as real / 3600.0
    ensures seconds <= 0 ==> RuntimeOf(Some(seconds), inst) == RuntimeOf(None, inst)
    ensures inst.vcpus == 4 && inst.accelerators == map[] ==> RuntimeOf(None, inst) == 1.0
    ensures inst.vcpus <= 0 ==> RuntimeOf(None, inst) == RuntimeOf(None, inst.(vcpus := 4))
  {
  }

  lemma AcceleratorsCountSixteen(inst: Instance)
    requires inst.vcpus > 0 && TotalCount(inst.accelerators) > 0
    ensures RuntimeOf(None, inst) ==
              RuntimeOf(None, inst.(vcpus := inst.vcpus + 16 * TotalCount(inst.accelerators), accelerators := map[]))
  {
  }

  // More vcpus or accelerators never take longer.
  lemma MoreIsFaster(a: Instance, b: Instance, timeSec: Option<int>)
    requires 0 < a.vcpus <= b.vcpus && 0 <= TotalCount(a.accelerators) <= TotalCount(b.accelerators)
    ensures RuntimeOf(timeSec, b) <= RuntimeOf(timeSec, a)
  {
    var x := a.vcpus + 16 * TotalCount(a.accelerators);
    var y := b.vcpus + 16 * TotalCount(b.accelerators);
    assert RuntimeOf(None, a) == 4.0 / x as real && RuntimeOf(None, b) == 4.0 / y as real;
    Shares(x, y);
  }

  lemma Shares(x: int, y: int)
    requires 0 < x <= y
    ensures 4.0 / y as real <= 4.0 / x as real
  {
    SmallerShare(x as real, y as real, 4.0 / x as real, 4.0 / y as real);
  }

  lemma SmallerShare(x: real, y: real, p: real, q: real)
    requires 0.0 < x <= y && p * x == 4.0 == q * y
    ensures q <= p
  {
    SignOfFactor(q, y);
    assert q * y == q * x + q * (y - x);
    assert q * x <= 4.0;
    assert (p - q) * x == p * x - q * x;
    SignOfFactor(p - q, x);
  }

  lemma SignOfFactor(q: real, y: real)
    requires y > 0.0
    ensures q * y > 0.0 ==> q > 0.0
    ensures q * y >= 0.0 ==> q >= 0.0
  {
  }
}
