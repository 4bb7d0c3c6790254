// What the whole pipeline guarantees: it searches exhaustively within its
// bound, whatever the order of the metadata, and asking for less never costs more.
module PipelineLaws {
  import opened Text
  import opened Placement
  import MetaCache
  import opened StableSort
  import opened Ranking
  import opened RankingLaws
  import opened Bags

  /******* The feasible set *******/

  ghost predicate Offered(meta: Meta, rs: Resources, opts: Options, cloud: string, region: string, inst: Instance) {
    && meta.clouds.Some? && cloud in meta.clouds.value
    && (opts.cloud == "" || exists name <- Split(opts.cloud, ',') :: TrimSpace(name) == cloud)
    && meta.regions(cloud).Some? && region in meta.regions(cloud).value
    && (opts.region != "" ==> region == opts.region)
    && (opts.region == "" && rs.region != "" ==> region == rs.region)
    && meta.instances(cloud, region).Some? && inst in meta.instances(cloud, region).value
  }

  lemma {:induction false} TrimmedNames(parts: seq<string>, name: string)
    ensures name in TrimAll(parts) <==> exists p <- parts :: TrimSpace(p) == name
  {
    if parts != [] {
      TrimmedNames(parts[1..], name);
      assert parts == [parts[0]] + parts[1..];
    }
  }

  lemma {:induction false} FittingExactly(insts: seq<Instance>, rs: Resources, c: Candidate)
    ensures c in Fitting(insts, rs) <==> c.inst in insts && MatchesResources(c.inst, rs) && c == Unpriced(c.inst)
  {
    if insts != [] {
      FittingExactly(insts[1..], rs, c);
      assert insts == [insts[0]] + insts[1..];
    }
  }

  ghost predicate InRegionHas(meta: Meta, cloud: string, region: string, rs: Resources, opts: Options, c: Candidate) {
    InRegion(meta, cloud, region, rs, opts).Some? && c in InRegion(meta, cloud, region, rs, opts).value
  }

  lemma {:induction false} InRegionsExactly(meta: Meta, cloud: string, regions: seq<string>, rs: Resources, opts: Options, c: Candidate)
    requires InRegions(meta, cloud, regions, rs, opts).Some?
    ensures c in InRegions(meta, cloud, regions, rs, opts).value <==>
              exists region <- regions :: InRegionHas(meta, cloud, region, rs, opts, c)
  {
    if regions != [] {
      InRegionsExactly(meta, cloud, regions[1..], rs, opts, c);
      assert regions == [regions[0]] + regions[1..];
      if InRegionHas(meta, cloud, regions[0], rs, opts, c) {
        assert c in InRegions(meta, cloud, regions, rs, opts).value;
      }
    }
  }

  ghost predicate InCloudHas(meta: Meta, cloud: string, rs: Resources, opts: Options, c: Candidate) {
    InCloud(meta, cloud, rs, opts).Some? && c in InCloud(meta, cloud, rs, opts).value
  }

  lemma {:induction false} InCloudsExactly(meta: Meta, clouds: seq<string>, rs: Resources, opts: Options, c: Candidate)
    requires InClouds(meta, clouds, rs, opts).Some?
    ensures c in InClouds(meta, clouds, rs, opts).value <==> exists cloud <- clouds :: InCloudHas(meta, cloud, rs, opts, c)
    ensures forall cloud <- clouds :: InCloud(meta, cloud, rs, opts).Some?
  {
    if clouds != [] {
      InCloudsExactly(meta, clouds[1..], rs, opts, c);
      assert clouds == [clouds[0]] + clouds[1..];
      if InCloudHas(meta, clouds[0], rs, opts, c) {
        assert c in InClouds(meta, clouds, rs, opts).value;
      }
    }
  }

  lemma InCloudExactly(meta: Meta, cloud: string, rs: Resources, opts: Options, c: Candidate)
    requires meta.clouds.Some? && cloud in meta.clouds.value && InCloud(meta, cloud, rs, opts).Some?
    ensures InCloudHas(meta, cloud, rs, opts, c) <==>
              c == Unpriced(c.inst) && MatchesResources(c.inst, rs) && exists region :: Offered(meta, rs, opts, cloud, region, c.inst)
  {
    TrimmedNames(Split(opts.cloud, ','), cloud);
    if CloudSelected(opts.cloud, cloud) {
      var regions := meta.regions(cloud).value;
      InRegionsExactly(meta, cloud, regions, rs, opts, c);
      forall region <- regions
        ensures InRegionHas(meta, cloud, region, rs, opts, c) ==>
                  c == Unpriced(c.inst) && MatchesResources(c.inst, rs) && Offered(meta, rs, opts, cloud, region, c.inst)
        ensures c == Unpriced(c.inst) && MatchesResources(c.inst, rs) && Offered(meta, rs, opts, cloud, region, c.inst) ==>
                  InRegionHas(meta, cloud, region, rs, opts, c)
      {
        if meta.instances(cloud, region).Some? {
          FittingExactly(meta.instances(cloud, region).value, rs, c);
        }
      }
    }
  }

  // The candidates are exactly the instances offered by a selected cloud in a
  // permitted region that satisfy the requirements.
  lemma FeasibleExactly(meta: Meta, rs: Resources, opts: Options, c: Candidate)
    requires Feasible(meta, rs, opts).Some?
    ensures c in Feasible(meta, rs, opts).value <==>
              && c == Unpriced(c.inst) && MatchesResources(c.inst, rs)
              && exists cloud, region :: Offered(meta, rs, opts, cloud, region, c.inst)
  {
    var clouds := meta.clouds.value;
    InCloudsExactly(meta, clouds, rs, opts, c);
    forall cloud <- clouds
      ensures InCloudHas(meta, cloud, rs, opts, c) <==>
                c == Unpriced(c.inst) && MatchesResources(c.inst, rs) && exists region :: Offered(meta, rs, opts, cloud, region, c.inst)
    {
      InCloudExactly(meta, cloud, rs, opts, c);
    }
  }

  // How often an instance is listed by the permitted regions of a cloud, and by
  // the selected clouds.
  ghost function ListedIn(meta: Meta, cloud: string, regions: seq<string>, rs: Resources, opts: Options, inst: Instance): nat {
    if regions == [] then 0
    else
      var here := meta.instances(cloud, regions[0]);
      (if here.Some? && (RegionFilter(rs, opts) == "" || regions[0] == RegionFilter(rs, opts)) then multiset(here.value)[inst] else 0)
      + ListedIn(meta, cloud, regions[1..], rs, opts, inst)
  }

  ghost function ListedBy(meta: Meta, clouds: seq<string>, rs: Resources, opts: Options, inst: Instance): nat {
    if clouds == [] then 0
    else
      var regions := meta.regions(clouds[0]);
      (if CloudSelected(opts.cloud, clouds[0]) && regions.Some? then ListedIn(meta, clouds[0], regions.value, rs, opts, inst) else 0)
      + ListedBy(meta, clouds[1..], rs, opts, inst)
  }

  lemma {:induction false} FittingCount(insts: seq<Instance>, rs: Resources, inst: Instance)
    ensures multiset(Fitting(insts, rs))[Unpriced(inst)] == if MatchesResources(inst, rs) then multiset(insts)[inst] else 0
  {
    if insts != [] {
      FittingCount(insts[1..], rs, inst);
      assert insts == [insts[0]] + insts[1..];
      assert Unpriced(insts[0]) == Unpriced(inst) <==> insts[0] == inst;
    }
  }

  lemma {:induction false} InRegionsCount(meta: Meta, cloud: string, regions: seq<string>, rs: Resources, opts: Options, inst: Instance)
    requires InRegions(meta, cloud, regions, rs, opts).Some?
    ensures multiset(InRegions(meta, cloud, regions, rs, opts).value)[Unpriced(inst)]
         == if MatchesResources(inst, rs) then ListedIn(meta, cloud, regions, rs, opts, inst) else 0
  {
    if regions != [] {
      InRegionsCount(meta, cloud, regions[1..], rs, opts, inst);
      if meta.instances(cloud, regions[0]).Some? {
        FittingCount(meta.instances(cloud, regions[0]).value, rs, inst);
      }
    }
  }

  lemma {:induction false} InCloudsCount(meta: Meta, clouds: seq<string>, rs: Resources, opts: Options, inst: Instance)
    requires InClouds(meta, clouds, rs, opts).Some?
    ensures multiset(InClouds(meta, clouds, rs, opts).value)[Unpriced(inst)]
         == if MatchesResources(inst, rs) then ListedBy(meta, clouds, rs, opts, inst) else 0
  {
    if clouds != [] {
      InCloudsCount(meta, clouds[1..], rs, opts, inst);
      if CloudSelected(opts.cloud, clouds[0]) {
        InRegionsCount(meta, clouds[0], meta.regions(clouds[0]).value, rs, opts, inst);
      }
    }
  }

  // A fitting instance is a candidate as often as it is listed, any other never.
  lemma FeasibleCount(meta: Meta, rs: Resources, opts: Options, inst: Instance)
    requires Feasible(meta, rs, opts).Some?
    ensures multiset(Feasible(meta, rs, opts).value)[Unpriced(inst)]
         == if MatchesResources(inst, rs) then ListedBy(meta, meta.clouds.value, rs, opts, inst) else 0
  {
    InCloudsCount(meta, meta.clouds.value, rs, opts, inst);
  }

  /******* The bound on price lookups *******/

  lemma VCPUsStrictWeak(cands: seq<Candidate>)
    ensures StrictWeakOn((a, b) => FewerVCPUs(a, b), cands)
  {
  }

  // Beyond the bound the candidates kept are those with the fewest vCPUs.
  lemma PreRankKeepsSmallest(cands: seq<Candidate>)
    requires |cands| > 200
    ensures |PreRank(cands)| == 200
    ensures forall kept <- PreRank(cands), dropped <- multiset(cands) - multiset(PreRank(cands)) ::
              kept.inst.vcpus <= dropped.inst.vcpus
  {
    var less := (a: Candidate, b: Candidate) => FewerVCPUs(a, b);
    var sorted := Sort(less, cands);
    SortMultiset(less, cands);
    VCPUsStrictWeak(cands);
    assert sorted == sorted[..MAX_PRICED] + sorted[MAX_PRICED..];
    assert multiset(cands) - multiset(PreRank(cands)) == multiset(sorted[MAX_PRICED..]);
    forall kept <- PreRank(cands), dropped <- multiset(sorted[MAX_PRICED..])
      ensures kept.inst.vcpus <= dropped.inst.vcpus
    {
      var i :| 0 <= i < MAX_PRICED && sorted[i] == kept;
      var j :| MAX_PRICED <= j < |sorted| && sorted[j] == dropped;
      SortHasNoInversion(less, cands, i, j);
    }
  }

  function PricedFeasible(meta: Meta, rs: Resources, opts: Options): Option<seq<Candidate>> {
    match Feasible(meta, rs, opts)
    case None => None
    case Some(cands) => Some(AllPriced(meta, cands))
  }

  function ExhaustiveResults(meta: Meta, groups: seq<Resources>, opts: Options): (r: seq<Option<seq<Candidate>>>)
    ensures |r| == |groups|
    ensures forall i :: 0 <= i < |groups| ==> r[i] == PricedFeasible(meta, groups[i], opts)
  {
    seq(|groups|, i requires 0 <= i < |groups| => PricedFeasible(meta, groups[i], opts))
  }

  // Every feasible candidate of every group, priced.
  function Exhaustive(meta: Meta, groups: seq<Resources>, opts: Options): Option<seq<Placed>> {
    Chain(ExhaustiveResults(meta, groups, opts), |groups|)
  }

  predicate WithinBound(meta: Meta, groups: seq<Resources>, opts: Options) {
    forall i :: 0 <= i < |groups| && Feasible(meta, groups[i], opts).Some? ==>
      |Feasible(meta, groups[i], opts).value| <= 200
  }

  // Within the bound nothing is cut: the plan ranks the exhaustive set.
  lemma BoundedIsExhaustive(meta: Meta, groups: seq<Resources>, opts: Options)
    requires WithinBound(meta, groups, opts)
    ensures AllCandidates(meta, groups, opts) == Exhaustive(meta, groups, opts)
  {
    forall i | 0 <= i < |groups|
      ensures GroupResults(meta, groups, opts)[i] == ExhaustiveResults(meta, groups, opts)[i]
    {
      UncutGroup(meta, groups[i], opts);
    }
    assert GroupResults(meta, groups, opts) == ExhaustiveResults(meta, groups, opts);
  }

  lemma UncutGroup(meta: Meta, rs: Resources, opts: Options)
    requires Feasible(meta, rs, opts).Some? ==> |Feasible(meta, rs, opts).value| <= MAX_PRICED
    ensures GroupCandidates(meta, rs, opts) == PricedFeasible(meta, rs, opts)
  {
  }

  /******* Order of clouds and regions *******/

  function FlatMap(f: string -> Option<seq<Candidate>>, xs: seq<string>): Option<seq<Candidate>> {
    if xs == [] then Some([]) else Append(f(xs[0]), FlatMap(f, xs[1..]))
  }

  lemma {:induction false} FlatMapSplit(f: string -> Option<seq<Candidate>>, a: seq<string>, b: seq<string>)
    ensures FlatMap(f, a + b) == Append(FlatMap(f, a), FlatMap(f, b))
  {
    if a == [] {
      assert a + b == b;
      AppendNothing(FlatMap(f, b));
    } else {
      assert (a + b)[1..] == a[1..] + b;
      FlatMapSplit(f, a[1..], b);
      AppendAssoc(f(a[0]), FlatMap(f, a[1..]), FlatMap(f, b));
    }
  }

  // Both lookups failed, or both gave the same candidates up to order.
  ghost predicate SameBag(a: Option<seq<Candidate>>, b: Option<seq<Candidate>>) {
    (a.None? && b.None?) || (a.Some? && b.Some? && multiset(a.value) == multiset(b.value))
  }

  lemma {:induction false} FlatMapPermuted(f: string -> Option<seq<Candidate>>, g: string -> Option<seq<Candidate>>,
                                           xs: seq<string>, ys: seq<string>)
    requires multiset(xs) == multiset(ys) && forall x <- xs :: SameBag(f(x), g(x))
    ensures SameBag(FlatMap(f, xs), FlatMap(g, ys))
    decreases |xs|
  {
    if xs == [] {
      EmptyBag(ys);
    } else {
      var i := FindHead(xs, ys);
      var rest := ys[..i] + ys[i + 1..];
      FlatMapPermuted(f, g, xs[1..], rest);
      FlatMapSplit(g, ys[..i], [ys[i]] + ys[i + 1..]);
      FlatMapSplit(g, ys[..i], ys[i + 1..]);
      assert ([ys[i]] + ys[i + 1..])[1..] == ys[i + 1..];
      assert SameBag(f(xs[0]), g(xs[0]));
    }
  }

  // The same offers of the selected clouds, listed in another order; a lookup
  // fails for both or for neither.
  ghost predicate Reordered(meta: Meta, other: Meta, opts: Options) {
    && SameList(meta.clouds, other.clouds)
    && (meta.clouds.Some? ==>
          forall cloud <- meta.clouds.value :: CloudSelected(opts.cloud, cloud) ==> SameList(meta.regions(cloud), other.regions(cloud)))
    && meta.instances == other.instances && meta.prices == other.prices
  }

  ghost predicate SameList(a: Option<seq<string>>, b: Option<seq<string>>) {
    (a.None? && b.None?) || (a.Some? && b.Some? && multiset(a.value) == multiset(b.value))
  }

  lemma {:induction false} InRegionsIsFlatMap(meta: Meta, cloud: string, regions: seq<string>, rs: Resources, opts: Options)
    ensures InRegions(meta, cloud, regions, rs, opts) == FlatMap(region => InRegion(meta, cloud, region, rs, opts), regions)
  {
    if regions != [] {
      InRegionsIsFlatMap(meta, cloud, regions[1..], rs, opts);
    }
  }

  lemma {:induction false} InCloudsIsFlatMap(meta: Meta, clouds: seq<string>, rs: Resources, opts: Options)
    ensures InClouds(meta, clouds, rs, opts) == FlatMap(cloud => InCloud(meta, cloud, rs, opts), clouds)
  {
    if clouds != [] {
      InCloudsIsFlatMap(meta, clouds[1..], rs, opts);
    }
  }

  lemma InCloudReordered(meta: Meta, other: Meta, cloud: string, rs: Resources, opts: Options)
    requires Reordered(meta, other, opts) && meta.clouds.Some? && cloud in meta.clouds.value
    ensures SameBag(InCloud(meta, cloud, rs, opts), InCloud(other, cloud, rs, opts))
  {
    if CloudSelected(opts.cloud, cloud) && meta.regions(cloud).Some? {
      var f := (region: string) => InRegion(meta, cloud, region, rs, opts);
      var g := (region: string) => InRegion(other, cloud, region, rs, opts);
      var xs, ys := meta.regions(cloud).value, other.regions(cloud).value;
      InRegionsIsFlatMap(meta, cloud, xs, rs, opts);
      InRegionsIsFlatMap(other, cloud, ys, rs, opts);
      FlatMapPermuted(f, g, xs, ys);
    }
  }

  lemma FeasibleReordered(meta: Meta, other: Meta, rs: Resources, opts: Options)
    requires Reordered(meta, other, opts)
    ensures SameBag(Feasible(meta, rs, opts), Feasible(other, rs, opts))
  {
    if meta.clouds.Some? {
      var f := (cloud: string) => InCloud(meta, cloud, rs, opts);
      var g := (cloud: string) => InCloud(other, cloud, rs, opts);
      forall cloud <- meta.clouds.value
        ensures SameBag(f(cloud), g(cloud))
      {
        InCloudReordered(meta, other, cloud, rs, opts);
      }
      InCloudsIsFlatMap(meta, meta.clouds.value, rs, opts);
      InCloudsIsFlatMap(other, other.clouds.value, rs, opts);
      FlatMapPermuted(f, g, meta.clouds.value, other.clouds.value);
    }
  }

  lemma PricedReordered(meta: Meta, other: Meta, rs: Resources, opts: Options)
    requires Reordered(meta, other, opts)
    ensures SameBag(PricedFeasible(meta, rs, opts), PricedFeasible(other, rs, opts))
  {
    FeasibleReordered(meta, other, rs, opts);
    if Feasible(meta, rs, opts).Some? {
      var a, b := Feasible(meta, rs, opts).value, Feasible(other, rs, opts).value;
      var f := (c: Candidate) => WithPrice(meta, c);
      MappedAt(f, a, AllPriced(meta, a));
      MappedAt(f, b, AllPriced(other, b));
      MappedPermuted(f, a, b);
    }
  }

  ghost predicate SamePlaced(a: Option<seq<Placed>>, b: Option<seq<Placed>>) {
    (a.None? && b.None?) || (a.Some? && b.Some? && multiset(a.value) == multiset(b.value))
  }

  lemma ExtendReordered(a: Option<seq<Placed>>, b: Option<seq<Placed>>,
                        c: Option<seq<Candidate>>, d: Option<seq<Candidate>>, group: nat)
    requires SamePlaced(a, b) && SameBag(c, d)
    ensures SamePlaced(Extend(a, c, group), Extend(b, d, group))
  {
    if c.Some? {
      var f := (c: Candidate) => Placed(c, group);
      MappedAt(f, c.value, PlaceAll(c.value, group));
      MappedAt(f, d.value, PlaceAll(d.value, group));
      MappedPermuted(f, c.value, d.value);
    }
  }

  lemma {:induction false} ChainReordered(a: seq<Option<seq<Candidate>>>, b: seq<Option<seq<Candidate>>>, n: nat)
    requires |a| == |b| && n <= |a| && forall i :: 0 <= i < |a| ==> SameBag(a[i], b[i])
    ensures SamePlaced(Chain(a, n), Chain(b, n))
  {
    if n > 0 {
      ChainReordered(a, b, n - 1);
      ExtendReordered(Chain(a, n - 1), Chain(b, n - 1), a[n - 1], b[n - 1], n - 1);
    }
  }

  lemma ExhaustiveReordered(meta: Meta, other: Meta, groups: seq<Resources>, opts: Options)
    requires Reordered(meta, other, opts)
    ensures SamePlaced(Exhaustive(meta, groups, opts), Exhaustive(other, groups, opts))
  {
    var a, b := ExhaustiveResults(meta, groups, opts), ExhaustiveResults(other, groups, opts);
    forall i | 0 <= i < |groups|
      ensures SameBag(a[i], b[i])
    {
      PricedReordered(meta, other, groups[i], opts);
    }
    ChainReordered(a, b, |groups|);
  }

  lemma WithinBoundReordered(meta: Meta, other: Meta, groups: seq<Resources>, opts: Options)
    requires Reordered(meta, other, opts) && WithinBound(meta, groups, opts)
    ensures WithinBound(other, groups, opts)
  {
    forall i | 0 <= i < |groups| && Feasible(other, groups[i], opts).Some?
      ensures |Feasible(other, groups[i], opts).value| <= MAX_PRICED
    {
      FeasibleReordered(meta, other, groups[i], opts);
      var a, b := Feasible(meta, groups[i], opts).value, Feasible(other, groups[i], opts).value;
      assert |multiset(a)| == |a| && |multiset(b)| == |b|;
    }
  }

  // Scoring and ranking a reordered set of candidates gives the same keys.
  lemma RankedKeysReordered(ms: seq<Metric>, a: seq<Placed>, b: seq<Placed>, rs: Resources, useSpot: bool)
    requires multiset(a) == multiset(b)
    ensures Keys(RankedBy(ScoreAll(ms, rs, useSpot, a))) == Keys(RankedBy(ScoreAll(ms, rs, useSpot, b)))
  {
    var f := (p: Placed) => Score(ms, rs, useSpot, p);
    MappedAt(f, a, ScoreAll(ms, rs, useSpot, a));
    MappedAt(f, b, ScoreAll(ms, rs, useSpot, b));
    MappedPermuted(f, a, b);
    ScoresHaveSameLength(ms, rs, useSpot, a);
    OrderOfCollectionIrrelevant(ScoreAll(ms, rs, useSpot, a), ScoreAll(ms, rs, useSpot, b), |ms|);
  }

  // Within the bound, listing clouds or regions in another order leaves the
  // group, pricing and scores at every rank as they are, and a failed lookup a
  // failure.
  lemma IterationOrderIrrelevant(ms: seq<Metric>, meta: Meta, other: Meta, groups: seq<Resources>, rs: Resources,
                                 opts: Options, useSpot: bool)
    requires Reordered(meta, other, opts) && WithinBound(meta, groups, opts)
    ensures var a, b := AllCandidates(meta, groups, opts), AllCandidates(other, groups, opts);
            && (a.Some? <==> b.Some?)
            && (a.Some? ==>
                  Keys(RankedBy(ScoreAll(ms, rs, useSpot, a.value))) == Keys(RankedBy(ScoreAll(ms, rs, useSpot, b.value))))
  {
    BoundedIsExhaustive(meta, groups, opts);
    WithinBoundReordered(meta, other, groups, opts);
    BoundedIsExhaustive(other, groups, opts);
    ExhaustiveReordered(meta, other, groups, opts);
    if Exhaustive(meta, groups, opts).Some? {
      RankedKeysReordered(ms, Exhaustive(meta, groups, opts).value, Exhaustive(other, groups, opts).value, rs, useSpot);
    }
  }

  /******* Relaxing a request *******/

  lemma TopIsLeast(ms: seq<Metric>, ps: seq<Placed>, rs: Resources, useSpot: bool, p: Placed)
    requires p in ps
    ensures var ranked := RankedBy(ScoreAll(ms, rs, useSpot, ps));
            ranked != [] && !RankLess(Score(ms, rs, useSpot, p), ranked[0])
  {
    var less := (x: Scored, y: Scored) => RankLess(x, y);
    var scored := ScoreAll(ms, rs, useSpot, ps);
    SortMultiset(less, scored);
    RankStrictWeak(scored, |ms|);
    var i :| 0 <= i < |ps| && ps[i] == p;
    assert scored[i] in multiset(scored) && scored[i] in multiset(Sort(less, scored));
    var j :| 0 <= j < |scored| && Sort(less, scored)[j] == scored[i];
    RankTrichotomy(scored[i], scored[i]);
    if j > 0 {
      SortHasNoInversion(less, scored, 0, j);
    }
  }

  // Under "cost", a priced candidate of the primary request bounds the top
  // launch's hourly cost, and one of them attains it.
  lemma TopCost(ps: seq<Placed>, rs: Resources, opts: Options, useSpot: bool, p: Placed) returns (q: Placed)
    requires p in ps && p.group == 0 && p.c.Priced() && opts.maxCandidates > 0
    ensures q in ps && q.group == 0 && q.c.Priced()
    ensures PlanOf([COST], ps, rs, opts, useSpot).totalCostPerHour == q.c.CostPerHour(useSpot) <= p.c.CostPerHour(useSpot)
  {
    q := FirstLaunch(ps, rs, opts, useSpot, p);
  }

  lemma ExtendMembers(before: Option<seq<Placed>>, cands: Option<seq<Candidate>>, group: nat, p: Placed)
    requires Extend(before, cands, group).Some?
    ensures p in Extend(before, cands, group).value <==> p in before.value || (p.group == group && p.c in cands.value)
  {
    var placed := PlaceAll(cands.value, group);
    if p.group == group && p.c in cands.value {
      var i :| 0 <= i < |placed| && cands.value[i] == p.c;
      assert placed[i] == p;
    }
  }

  lemma {:induction false} PrimaryMembers(results: seq<Option<seq<Candidate>>>, n: nat, p: Placed)
    requires 1 <= n <= |results| && Chain(results, n).Some? && p.group == 0
    ensures results[0].Some?
    ensures p in Chain(results, n).value <==> p.c in results[0].value
  {
    ExtendMembers(Chain(results, n - 1), results[n - 1], n - 1, p);
    if n > 1 {
      PrimaryMembers(results, n - 1, p);
    }
  }

  lemma RelaxedCandidates(meta: Meta, rs: Resources, loose: Resources, opts: Options, c: Candidate)
    requires Relaxes(rs, loose)
    requires Feasible(meta, rs, opts).Some? && |Feasible(meta, rs, opts).value| <= MAX_PRICED
    requires Feasible(meta, loose, opts).Some? && |Feasible(meta, loose, opts).value| <= MAX_PRICED
    requires c in GroupCandidates(meta, rs, opts).value
    ensures c in GroupCandidates(meta, loose, opts).value
  {
    var a, b := Feasible(meta, rs, opts).value, Feasible(meta, loose, opts).value;
    var i :| 0 <= i < |a| && c == WithPrice(meta, a[i]);
    FeasibleExactly(meta, rs, opts, a[i]);
    RelaxedMatches(a[i].inst, rs, loose);
    var cloud, region :| Offered(meta, rs, opts, cloud, region, a[i].inst);
    assert Offered(meta, loose, opts, cloud, region, a[i].inst);
    FeasibleExactly(meta, loose, opts, a[i]);
    var j :| 0 <= j < |b| && b[j] == a[i];
    assert AllPriced(meta, b)[j] == c;
  }

  // Under "cost", relaxing the primary request never raises the top launch's
  // hourly cost, once that request has a priced candidate.
  lemma RelaxingNeverCostsMore(meta: Meta, rs: Resources, loose: Resources, options: Option<Options>, p: Candidate)
    requires Relaxes(rs, loose)
    requires SpotChoice(rs, Defaults(options)) == SpotChoice(loose, Defaults(options))
    requires OutcomeOf([COST], meta, Some(rs), options).Planned? && OutcomeOf([COST], meta, Some(loose), options).Planned?
    requires WithinBound(meta, [rs, loose], Defaults(options))
    requires GroupCandidates(meta, rs, Defaults(options)).Some? && p in GroupCandidates(meta, rs, Defaults(options)).value && p.Priced()
    ensures OutcomeOf([COST], meta, Some(loose), options).plan.totalCostPerHour
         <= OutcomeOf([COST], meta, Some(rs), options).plan.totalCostPerHour
  {
    var opts := Defaults(options);
    var useSpot := SpotChoice(rs, opts);
    var groups, groups' := [rs] + rs.ordered, [loose] + loose.ordered;
    var results, results' := GroupResults(meta, groups, opts), GroupResults(meta, groups', opts);
    PrimaryMembers(results, |groups|, Placed(p, 0));
    var top := TopCost(AllCandidates(meta, groups, opts).value, rs, opts, useSpot, Placed(p, 0));
    PrimaryMembers(results, |groups|, top);
    PrimaryMembers(results', |groups'|, top);
    BoundOf(meta, rs, loose, opts);
    RelaxedCandidates(meta, rs, loose, opts, top.c);
    var top' := TopCost(AllCandidates(meta, groups', opts).value, loose, opts, useSpot, top);
  }

  lemma BoundOf(meta: Meta, rs: Resources, loose: Resources, opts: Options)
    requires WithinBound(meta, [rs, loose], opts)
    ensures Feasible(meta, rs, opts).Some? ==> |Feasible(meta, rs, opts).value| <= MAX_PRICED
    ensures Feasible(meta, loose, opts).Some? ==> |Feasible(meta, loose, opts).value| <= MAX_PRICED
  {
    var both := [rs, loose];
    assert both[0] == rs && both[1] == loose;
  }

  /******* What a plan says *******/

  // Whether spot prices count: the request decides, or else the options.
  function WantsSpot(rs: Resources, options: Option<Options>): bool {
    if rs.useSpot.Some? then rs.useSpot.value else options.Some? && options.value.useSpot
  }

  // The launch is for this candidate.
  predicate LaunchFor(l: Launch, c: Candidate) {
    && l.cloud == c.inst.cloud && l.region == c.inst.region && l.instanceType == c.inst.instanceType
    && l.accelerators == c.inst.accelerators && l.vcpus == c.inst.vcpus && l.memoryGiB == c.inst.memoryGiB
    && l.onDemand == c.onDemand && l.spot == c.spot
  }

  lemma LaunchAt(ms: seq<Metric>, ps: seq<Placed>, rs: Resources, opts: Options, useSpot: bool, i: nat) returns (q: Placed)
    requires ps != [] && opts.maxCandidates > 0 && i < |PlanOf(ms, ps, rs, opts, useSpot).launches|
    ensures var l := PlanOf(ms, ps, rs, opts, useSpot).launches[i];
            q in ps && LaunchFor(l, q.c) && l.numNodes == opts.numNodes && l.useSpot == useSpot && l.order == i + 1
    ensures RankedBy(ScoreAll(ms, rs, useSpot, ps)) != []
    ensures i == 0 ==> RankedBy(ScoreAll(ms, rs, useSpot, ps))[0] == Score(ms, rs, useSpot, q)
  {
    var scored := ScoreAll(ms, rs, useSpot, ps);
    var ranked := RankedBy(scored);
    SortMultiset((x: Scored, y: Scored) => RankLess(x, y), scored);
    assert ranked[i] in multiset(ranked) && ranked[i] in multiset(scored);
    var j :| 0 <= j < |ps| && scored[j] == ranked[i];
    q := ps[j];
  }

  // A plan holds at most MaxCandidates launches, ten unless the options say
  // otherwise, numbered from 1; each is for a collected candidate, and on one node
  // unless the options ask for more.
  lemma PlanContents(ms: seq<Metric>, meta: Meta, rs: Resources, options: Option<Options>, i: nat) returns (q: Placed)
    requires OutcomeOf(ms, meta, Some(rs), options).Planned? && i < |OutcomeOf(ms, meta, Some(rs), options).plan.launches|
    ensures var plan := OutcomeOf(ms, meta, Some(rs), options).plan;
            var l := plan.launches[i];
            && |plan.launches| <= (if options.None? || options.value.maxCandidates <= 0 then 10 else options.value.maxCandidates)
            && AllCandidates(meta, [rs] + rs.ordered, Defaults(options)).Some?
            && q in AllCandidates(meta, [rs] + rs.ordered, Defaults(options)).value && LaunchFor(l, q.c)
            && l.numNodes == (if options.None? || options.value.numNodes <= 0 then 1 else options.value.numNodes)
            && l.useSpot == WantsSpot(rs, options) && l.order == i + 1
  {
    var opts := Defaults(options);
    q := LaunchAt(ms, AllCandidates(meta, [rs] + rs.ordered, opts).value, rs, opts, SpotChoice(rs, opts), i);
  }

  // The total is the first launch's price in the chosen mode; lacking that, 0.3
  // times its on-demand price or 3 times its spot price; lacking both, nothing.
  lemma TotalIsFirstPrice(ms: seq<Metric>, meta: Meta, rs: Resources, options: Option<Options>)
    requires OutcomeOf(ms, meta, Some(rs), options).Planned?
    ensures var plan := OutcomeOf(ms, meta, Some(rs), options).plan;
            && plan.launches != []
            && var l, total := plan.launches[0], plan.totalCostPerHour;
               if WantsSpot(rs, options) then
                 && (l.spot > 0.0 ==> total == l.spot)
                 && (l.spot <= 0.0 && l.onDemand > 0.0 ==> total == l.onDemand * 0.3)
                 && (l.spot <= 0.0 && l.onDemand <= 0.0 ==> total == 0.0)
               else
                 && (l.onDemand > 0.0 ==> total == l.onDemand)
                 && (l.onDemand <= 0.0 && l.spot > 0.0 ==> total == l.spot * 3.0)
                 && (l.onDemand <= 0.0 && l.spot <= 0.0 ==> total == 0.0)
  {
    var q := PlanContents(ms, meta, rs, options, 0);
  }

  lemma {:induction false} ChainFailsExactly(results: seq<Option<seq<Candidate>>>, n: nat)
    requires n <= |results|
    ensures Chain(results, n).None? <==> exists i :: 0 <= i < n && results[i].None?
    ensures Chain(results, n) == Some([]) <==> forall i :: 0 <= i < n ==> results[i] == Some([])
  {
    if n > 0 {
      ChainFailsExactly(results, n - 1);
    }
  }

  // Why there is no plan: no request, no metric, a lookup that failed for the
  // request or one of its alternatives, or no candidate for any of them.
  lemma RefusedExactly(ms: seq<Metric>, meta: Meta, request: Option<Resources>, options: Option<Options>)
    ensures var outcome := OutcomeOf(ms, meta, request, options);
            if request.None? then outcome == Refused(NoRequest)
            else if ms == [] then outcome == Refused(NoMetrics)
            else
              var results := GroupResults(meta, [request.value] + request.value.ordered, Defaults(options));
              if exists i :: 0 <= i < |results| && results[i].None? then outcome == Refused(LookupFailed)
              else if forall i :: 0 <= i < |results| ==> results[i] == Some([]) then outcome == Refused(NoMatch)
              else outcome.Planned?
  {
    if request.Some? {
      var results := GroupResults(meta, [request.value] + request.value.ordered, Defaults(options));
      ChainFailsExactly(results, |results|);
    }
  }

  // Price in the chosen mode.
  function ModePrice(onDemand: real, spot: real, useSpot: bool): real {
    if useSpot then spot else onDemand
  }

  // Under "cost", when every priced candidate of the primary request has a price
  // in the chosen mode, the total is the first launch's price in that mode, and no
  // primary candidate has a lower one.
  lemma CheapestInChosenMode(meta: Meta, rs: Resources, options: Option<Options>, cands: seq<Candidate>, p: Candidate)
    requires OutcomeOf([COST], meta, Some(rs), options).Planned?
    requires GroupCandidates(meta, rs, Defaults(options)) == Some(cands)
    requires forall c <- cands :: c.onDemand > 0.0 || c.spot > 0.0 ==> ModePrice(c.onDemand, c.spot, WantsSpot(rs, options)) > 0.0
    requires p in cands && (p.onDemand > 0.0 || p.spot > 0.0)
    ensures var plan := OutcomeOf([COST], meta, Some(rs), options).plan;
            && plan.launches != []
            && plan.totalCostPerHour == ModePrice(plan.launches[0].onDemand, plan.launches[0].spot, WantsSpot(rs, options))
            && plan.totalCostPerHour <= ModePrice(p.onDemand, p.spot, WantsSpot(rs, options))
            && exists c <- cands :: LaunchFor(plan.launches[0], c)
  {
    var opts, useSpot := Defaults(options), WantsSpot(rs, options);
    var groups := [rs] + rs.ordered;
    var results, ps := GroupResults(meta, groups, opts), AllCandidates(meta, groups, opts).value;
    assert results[0] == Some(cands);
    PrimaryMembers(results, |groups|, Placed(p, 0));
    var q := FirstLaunch(ps, rs, opts, useSpot, Placed(p, 0));
    PrimaryMembers(results, |groups|, q);
  }

  // The first launch is for a priced primary candidate that costs no more than p.
  lemma FirstLaunch(ps: seq<Placed>, rs: Resources, opts: Options, useSpot: bool, p: Placed) returns (q: Placed)
    requires p in ps && p.group == 0 && p.c.Priced() && opts.maxCandidates > 0
    ensures var plan := PlanOf([COST], ps, rs, opts, useSpot);
            && q in ps && q.group == 0 && q.c.Priced() && LaunchFor(plan.launches[0], q.c)
            && plan.totalCostPerHour == q.c.CostPerHour(useSpot) <= p.c.CostPerHour(useSpot)
  {
    TopIsLeast([COST], ps, rs, useSpot, p);
    q := LaunchAt([COST], ps, rs, opts, useSpot, 0);
    var x, y := Score([COST], rs, useSpot, p), Score([COST], rs, useSpot, q);
    assert x.scores == [p.c.CostPerHour(useSpot)] && y.scores == [q.c.CostPerHour(useSpot)];
    assert !RankLess(x, y);
  }

  // A positive price is the source's, 0 stands for none.
  function ListedPrice(meta: Meta, inst: Instance): MetaCache.Price {
    var table := meta.prices(inst.cloud, inst.region);
    if table.Some? && inst.instanceType in table.value then table.value[inst.instanceType] else MetaCache.Price(0.0, 0.0)
  }

  // Each candidate carries the prices its cloud and region list for its type.
  lemma CandidatePrices(meta: Meta, rs: Resources, opts: Options, c: Candidate)
    requires GroupCandidates(meta, rs, opts).Some? && c in GroupCandidates(meta, rs, opts).value
    ensures var p := ListedPrice(meta, c.inst);
            && c.onDemand == (if p.onDemand > 0.0 then p.onDemand else 0.0)
            && c.spot == (if p.spot > 0.0 then p.spot else 0.0)
  {
    var cands := Feasible(meta, rs, opts).value;
    var kept := PreRank(cands);
    var i :| 0 <= i < |kept| && c == WithPrice(meta, kept[i]);
    KeptWereFeasible(cands, kept[i]);
    FeasibleExactly(meta, rs, opts, kept[i]);
  }

  lemma KeptWereFeasible(cands: seq<Candidate>, c: Candidate)
    requires c in PreRank(cands)
    ensures c in cands
  {
    SortMultiset((a, b) => FewerVCPUs(a, b), cands);
    if |cands| > MAX_PRICED {
      assert c in multiset(Sort((a, b) => FewerVCPUs(a, b), cands));
    }
  }
}
