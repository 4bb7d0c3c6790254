// Ranking placement candidates by a list of metrics in priority order.
module Ranking {
  import opened Text
  import opened Placement
  import opened StableSort

  // Lower ranks come first.
  datatype Metric = Metric(name: string, rank: (Candidate, bool) -> real)

  const COST := Metric("cost", (c: Candidate, useSpot: bool) => c.CostPerHour(useSpot))
  const TIME := Metric("time", (c: Candidate, useSpot: bool) => c.estimatedTime)

  const MAX_PRICED := 200

  // A candidate with the index of the resource group it came from.
  datatype Placed = Placed(c: Candidate, group: nat)

  datatype Scored = Scored(c: Candidate, group: nat, scores: seq<real>)

  datatype Launch = Launch(cloud: string, region: string, instanceType: string, numNodes: int,
                           accelerators: map<string, int>, vcpus: int, memoryGiB: real, onDemand: real, spot: real,
                           useSpot: bool, estimatedTime: real, order: nat) {
    function CostPerHour(): real {
      HourlyCost(onDemand, spot, useSpot)
    }
  }

  datatype Plan = Plan(launches: seq<Launch>, totalCostPerHour: real, totalEstimatedTime: real)

  datatype Failure = NoRequest | NoMetrics | LookupFailed | NoMatch

  datatype Outcome = Planned(plan: Plan) | Refused(why: Failure)

  /******* The order *******/

  predicate LexLess(a: seq<real>, b: seq<real>) {
    a != [] && b != [] && (a[0] < b[0] || (a[0] == b[0] && LexLess(a[1..], b[1..])))
  }

  // Group first, then priced before unpriced, then the scores.
  predicate RankLess(x: Scored, y: Scored) {
    if x.group != y.group then x.group < y.group
    else if x.c.Priced() != y.c.Priced() then x.c.Priced()
    else LexLess(x.scores, y.scores)
  }

  predicate FewerVCPUs(a: Candidate, b: Candidate) {
    a.inst.vcpus < b.inst.vcpus
  }

  /******* The pipeline, as functions *******/

  predicate HasTime(ms: seq<Metric>) {
    exists i :: 0 <= i < |ms| && ms[i].name == "time"
  }

  ghost function WithTime(ms: seq<Metric>, rs: Resources, c: Candidate): Candidate {
    if HasTime(ms) then c.(estimatedTime := RuntimeOf(rs.timeSec, c.inst)) else c
  }

  function Scores(ms: seq<Metric>, c: Candidate, useSpot: bool): (r: seq<real>)
    ensures |r| == |ms|
    ensures forall i :: 0 <= i < |ms| ==> r[i] == ms[i].rank(c, useSpot)
  {
    seq(|ms|, i requires 0 <= i < |ms| => ms[i].rank(c, useSpot))
  }

  ghost function Score(ms: seq<Metric>, rs: Resources, useSpot: bool, p: Placed): Scored {
    var c := WithTime(ms, rs, p.c);
    Scored(c, p.group, Scores(ms, c, useSpot))
  }

  ghost function ScoreAll(ms: seq<Metric>, rs: Resources, useSpot: bool, ps: seq<Placed>): (r: seq<Scored>)
    ensures |r| == |ps|
    ensures forall i :: 0 <= i < |ps| ==> r[i] == Score(ms, rs, useSpot, ps[i])
  {
    seq(|ps|, i requires 0 <= i < |ps| => Score(ms, rs, useSpot, ps[i]))
  }

  function RankedBy(scored: seq<Scored>): seq<Scored> {
    Sort((x, y) => RankLess(x, y), scored)
  }

  function Truncate<T>(s: seq<T>, max: int): seq<T>
    requires max >= 0
  {
    if |s| > max then s[..max] else s
  }

  function LaunchOf(c: Candidate, opts: Options, useSpot: bool, order: nat): Launch {
    Launch(c.inst.cloud, c.inst.region, c.inst.instanceType, opts.numNodes, c.inst.accelerators, c.inst.vcpus,
           c.inst.memoryGiB, c.onDemand, c.spot, useSpot, c.estimatedTime, order)
  }

  // Numbered 1, 2, ... in order.
  function LaunchesOf(ranked: seq<Scored>, opts: Options, useSpot: bool): (r: seq<Launch>)
    ensures |r| == |ranked|
    ensures forall i :: 0 <= i < |ranked| ==> r[i] == LaunchOf(ranked[i].c, opts, useSpot, i + 1)
  {
    seq(|ranked|, i requires 0 <= i < |ranked| => LaunchOf(ranked[i].c, opts, useSpot, i + 1))
  }

  ghost function PlanOf(ms: seq<Metric>, ps: seq<Placed>, rs: Resources, opts: Options, useSpot: bool): (p: Plan)
    requires ps != [] && opts.maxCandidates > 0
    ensures p.launches != []
  {
    var ranked := RankedBy(ScoreAll(ms, rs, useSpot, ps));
    SortMultiset((x, y) => RankLess(x, y), ScoreAll(ms, rs, useSpot, ps));
    var launches := LaunchesOf(Truncate(ranked, opts.maxCandidates), opts, useSpot);
    Plan(launches, launches[0].CostPerHour(), launches[0].estimatedTime)
  }

  // The candidates a price is looked up for: the smallest when there are too many.
  function PreRank(cands: seq<Candidate>): (r: seq<Candidate>)
    ensures |r| <= MAX_PRICED
  {
    if |cands| > MAX_PRICED then
      SortMultiset((a, b) => FewerVCPUs(a, b), cands);
      Sort((a, b) => FewerVCPUs(a, b), cands)[..MAX_PRICED]
    else cands
  }

  function GroupCandidates(meta: Meta, rs: Resources, opts: Options): Option<seq<Candidate>> {
    match Feasible(meta, rs, opts)
    case None => None
    case Some(cands) => Some(AllPriced(meta, PreRank(cands)))
  }

  function PlaceAll(cands: seq<Candidate>, group: nat): (r: seq<Placed>)
    ensures |r| == |cands|
    ensures forall i :: 0 <= i < |cands| ==> r[i] == Placed(cands[i], group)
  {
    seq(|cands|, i requires 0 <= i < |cands| => Placed(cands[i], group))
  }

  function Extend(before: Option<seq<Placed>>, cands: Option<seq<Candidate>>, group: nat): Option<seq<Placed>> {
    if before.None? || cands.None? then None else Some(before.value + PlaceAll(cands.value, group))
  }

  // The results of the first n groups put together; a failed lookup fails all.
  function Chain(results: seq<Option<seq<Candidate>>>, n: nat): Option<seq<Placed>>
    requires n <= |results|
  {
    if n == 0 then Some([]) else Extend(Chain(results, n - 1), results[n - 1], n - 1)
  }

  function GroupResults(meta: Meta, groups: seq<Resources>, opts: Options): (r: seq<Option<seq<Candidate>>>)
    ensures |r| == |groups|
    ensures forall i :: 0 <= i < |groups| ==> r[i] == GroupCandidates(meta, groups[i], opts)
  {
    seq(|groups|, i requires 0 <= i < |groups| => GroupCandidates(meta, groups[i], opts))
  }

  function AllCandidates(meta: Meta, groups: seq<Resources>, opts: Options): Option<seq<Placed>> {
    Chain(GroupResults(meta, groups, opts), |groups|)
  }

  function Defaults(opts: Option<Options>): Options {
    var o := if opts.None? then Options(1, false, "", "", 10) else opts.value;
    o.(numNodes := if o.numNodes <= 0 then 1 else o.numNodes,
       maxCandidates := if o.maxCandidates <= 0 then 10 else o.maxCandidates)
  }

  function SpotChoice(rs: Resources, opts: Options): bool {
    if rs.useSpot.Some? then rs.useSpot.value else opts.useSpot
  }

  ghost function OutcomeOf(ms: seq<Metric>, meta: Meta, rs: Option<Resources>, options: Option<Options>): Outcome {
    if rs.None? then Refused(NoRequest)
    else if ms == [] then Refused(NoMetrics)
    else
      var opts := Defaults(options);
      var groups := [rs.value] + rs.value.ordered;
      match AllCandidates(meta, groups, opts)
      case None => Refused(LookupFailed)
      case Some(ps) =>
        if ps == [] then Refused(NoMatch)
        else Planned(PlanOf(ms, ps, rs.value, opts, SpotChoice(rs.value, opts)))
  }

  /******* The pipeline, as the code runs it *******/

  method Optimize(ms: seq<Metric>, meta: Meta, rs: Option<Resources>, options: Option<Options>) returns (r: Outcome)
    ensures r == OutcomeOf(ms, meta, rs, options)
  {
    if rs.None? {
      return Refused(NoRequest);
    }
    var opts := Defaults(options);
    if ms == [] {
      return Refused(NoMetrics);
    }
    var all := CollectGroups(meta, [rs.value] + rs.value.ordered, opts);
    if all.None? {
      return Refused(LookupFailed);
    }
    if all.value == [] {
      return Refused(NoMatch);
    }
    var plan := RankPlan(ms, all.value, rs.value, opts, SpotChoice(rs.value, opts));
    return Planned(plan);
  }

  method CollectGroups(meta: Meta, groups: seq<Resources>, opts: Options) returns (r: Option<seq<Placed>>)
    ensures r == AllCandidates(meta, groups, opts)
  {
    r := CollectChain(meta, groups, opts, GroupResults(meta, groups, opts));
  }

  method CollectChain(meta: Meta, groups: seq<Resources>, opts: Options, ghost results: seq<Option<seq<Candidate>>>)
    returns (r: Option<seq<Placed>>)
    requires |results| == |groups|
    requires forall i :: 0 <= i < |groups| ==> results[i] == GroupCandidates(meta, groups[i], opts)
    ensures r == Chain(results, |groups|)
  {
    var all: seq<Placed> := [];
    for gi := 0 to |groups|
      invariant Chain(results, gi) == Some(all)
    {
      var cands := CollectAndPrice(meta, groups[gi], opts);
      ChainStep(results, gi, cands, all);
      if cands.None? {
        return None;
      }
      all := all + PlaceAll(cands.value, gi);
    }
    return Some(all);
  }

  lemma ChainStep(results: seq<Option<seq<Candidate>>>, n: nat, cands: Option<seq<Candidate>>, all: seq<Placed>)
    requires n < |results| && results[n] == cands && Chain(results, n) == Some(all)
    ensures cands.None? ==> Chain(results, |results|).None?
    ensures cands.Some? ==> Chain(results, n + 1) == Some(all + PlaceAll(cands.value, n))
  {
    if cands.None? {
      FailureStays(results, n + 1, |results|);
    }
  }

  lemma {:induction false} FailureStays(results: seq<Option<seq<Candidate>>>, n: nat, m: nat)
    requires n <= m <= |results| && Chain(results, n).None?
    ensures Chain(results, m).None?
    decreases m
  {
    if n < m {
      FailureStays(results, n, m - 1);
    }
  }

  method KeepSmallest(cands: seq<Candidate>) returns (r: seq<Candidate>)
    ensures r == PreRank(cands)
  {
    if |cands| <= MAX_PRICED {
      return cands;
    }
    var sorted := new Candidate[|cands|](i requires 0 <= i < |cands| => cands[i]);
    assert sorted[..] == cands;
    SliceStable(sorted, (a, b) => FewerVCPUs(a, b));
    return sorted[..MAX_PRICED];
  }

  method PriceAll(meta: Meta, cands: seq<Candidate>) returns (r: seq<Candidate>)
    ensures r == AllPriced(meta, cands)
  {
    var priced := new Candidate[|cands|](i requires 0 <= i < |cands| => cands[i]);
    assert priced[..] == cands;
    AttachPrices(meta, priced);
    return priced[..];
  }

  method CollectAndPrice(meta: Meta, rs: Resources, opts: Options) returns (r: Option<seq<Candidate>>)
    ensures r == GroupCandidates(meta, rs, opts)
  {
    var cands := CollectCandidates(meta, rs, opts);
    if cands.None? {
      return None;
    }
    var chosen := KeepSmallest(cands.value);
    var priced := PriceAll(meta, chosen);
    return Some(priced);
  }

  method ScoreInto(ms: seq<Metric>, ps: seq<Placed>, rs: Resources, useSpot: bool, scored: array<Scored>)
    requires scored.Length == |ps|
    modifies scored
    ensures scored[..] == ScoreAll(ms, rs, useSpot, ps)
  {
    var hasTime := HasTime(ms);
    for i := 0 to |ps|
      invariant forall k :: 0 <= k < i ==> scored[k] == Score(ms, rs, useSpot, ps[k])
    {
      var c := ps[i].c;
      if hasTime {
        var hours := EstimateRuntime(rs.timeSec, c.inst);
        c := c.(estimatedTime := hours);
      }
      scored[i] := Scored(c, ps[i].group, Scores(ms, c, useSpot));
    }
  }

  method RankPlan(ms: seq<Metric>, ps: seq<Placed>, rs: Resources, opts: Options, useSpot: bool) returns (plan: Plan)
    requires ps != [] && opts.maxCandidates > 0
    ensures plan == PlanOf(ms, ps, rs, opts, useSpot)
  {
    var blank := Scored(ps[0].c, 0, []);
    var scored := new Scored[|ps|](i => blank);
    ScoreInto(ms, ps, rs, useSpot, scored);
    SliceStable(scored, (x, y) => RankLess(x, y));
    SortMultiset((x, y) => RankLess(x, y), ScoreAll(ms, rs, useSpot, ps));
    var n := if scored.Length > opts.maxCandidates then opts.maxCandidates else scored.Length;
    var launches := LaunchesOf(scored[..n], opts, useSpot);
    assert scored[..n] == Truncate(scored[..], opts.maxCandidates);
    return Plan(launches, launches[0].CostPerHour(), launches[0].estimatedTime);
  }
}
