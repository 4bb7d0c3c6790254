// What the ranking guarantees, for metric lists of any length.
module RankingLaws {
  import opened Text
  import opened Placement
  import opened StableSort
  import opened Ranking
  import opened Bags

  /******* The order is a strict weak order *******/

  lemma {:induction false} LexTrichotomy(a: seq<real>, b: seq<real>)
    requires |a| == |b|
    ensures LexLess(a, b) || LexLess(b, a) || a == b
    ensures !(LexLess(a, b) && LexLess(b, a))
    ensures !LexLess(a, a)
  {
    if a != [] {
      LexTrichotomy(a[1..], b[1..]);
      assert a == [a[0]] + a[1..] && b == [b[0]] + b[1..];
    }
  }

  lemma {:induction false} LexTransitive(a: seq<real>, b: seq<real>, c: seq<real>)
    requires LexLess(a, b) && LexLess(b, c)
    ensures LexLess(a, c)
  {
    if a[0] == b[0] && b[0] == c[0] {
      LexTransitive(a[1..], b[1..], c[1..]);
    }
  }

  // What the comparison looks at.
  datatype Key = Key(group: nat, priced: bool, scores: seq<real>)

  function KeyOf(x: Scored): Key {
    Key(x.group, x.c.Priced(), x.scores)
  }

  lemma RankTrichotomy(x: Scored, y: Scored)
    requires |x.scores| == |y.scores|
    ensures RankLess(x, y) || RankLess(y, x) || KeyOf(x) == KeyOf(y)
    ensures KeyOf(x) == KeyOf(y) ==> !RankLess(x, y)
    ensures !(RankLess(x, y) && RankLess(y, x))
  {
    LexTrichotomy(x.scores, y.scores);
  }

  lemma RankTransitive(x: Scored, y: Scored, z: Scored)
    requires RankLess(x, y) && RankLess(y, z)
    ensures RankLess(x, z)
  {
    if LexLess(x.scores, y.scores) && LexLess(y.scores, z.scores) {
      LexTransitive(x.scores, y.scores, z.scores);
    }
  }

  predicate SameLength(s: seq<Scored>, n: nat) {
    forall x <- s :: |x.scores| == n
  }

  // However many metrics there are, the comparison is a strict weak order.
  lemma RankStrictWeak(s: seq<Scored>, n: nat)
    requires SameLength(s, n)
    ensures StrictWeakOn((x, y) => RankLess(x, y), s)
  {
    forall x <- s
      ensures !RankLess(x, x)
    {
      RankTrichotomy(x, x);
    }
    forall x <- s, y <- s, z <- s
      ensures RankLess(x, y) && RankLess(y, z) ==> RankLess(x, z)
      ensures !RankLess(x, y) && !RankLess(y, z) ==> !RankLess(x, z)
    {
      RankTriple(x, y, z);
    }
  }

  lemma RankTriple(x: Scored, y: Scored, z: Scored)
    requires |x.scores| == |y.scores| == |z.scores|
    ensures RankLess(x, y) && RankLess(y, z) ==> RankLess(x, z)
    ensures !RankLess(x, y) && !RankLess(y, z) ==> !RankLess(x, z)
  {
    RankTrichotomy(x, y);
    RankTrichotomy(y, z);
    RankTrichotomy(x, z);
    if RankLess(x, y) && RankLess(y, z) {
      RankTransitive(x, y, z);
    }
    if RankLess(y, x) && RankLess(z, y) {
      RankTransitive(z, y, x);
    }
  }

  lemma ScoresHaveSameLength(ms: seq<Metric>, rs: Resources, useSpot: bool, ps: seq<Placed>)
    ensures SameLength(ScoreAll(ms, rs, useSpot, ps), |ms|)
  {
  }

  /******* The plan is the head of the stable sort *******/

  function Min(a: int, b: int): int {
    if a < b then a else b
  }

  // Whatever sorts the scored candidates stably gives this plan: its first
  // MaxCandidates elements, numbered from 1.
  lemma PlanIsExact(ms: seq<Metric>, ps: seq<Placed>, rs: Resources, opts: Options, useSpot: bool, sorted: seq<Scored>)
    requires ps != [] && opts.maxCandidates > 0
    requires IsStableSort((x, y) => RankLess(x, y), ScoreAll(ms, rs, useSpot, ps), sorted)
    ensures var plan := PlanOf(ms, ps, rs, opts, useSpot);
            && |plan.launches| == Min(opts.maxCandidates, |ps|) <= |sorted|
            && (forall i :: 0 <= i < |plan.launches| ==> plan.launches[i] == LaunchOf(sorted[i].c, opts, useSpot, i + 1))
            && plan.totalCostPerHour == plan.launches[0].CostPerHour()
            && plan.totalEstimatedTime == plan.launches[0].estimatedTime
  {
    var scored := ScoreAll(ms, rs, useSpot, ps);
    var less := (x: Scored, y: Scored) => RankLess(x, y);
    RankStrictWeak(scored, |ms|);
    SortIsStableSort(less, scored);
    StableSortUnique(less, scored, sorted, Sort(less, scored));
    SortMultiset(less, scored);
  }

  // No candidate that was dropped ranks strictly ahead of one that was kept.
  lemma NoDroppedAheadOfKept(ms: seq<Metric>, ps: seq<Placed>, rs: Resources, opts: Options, useSpot: bool, i: nat, j: nat)
    requires i < Min(opts.maxCandidates, |ps|) <= j < |ps|
    ensures var ranked := RankedBy(ScoreAll(ms, rs, useSpot, ps));
            |ranked| == |ps| && !RankLess(ranked[j], ranked[i])
  {
    RankStrictWeak(ScoreAll(ms, rs, useSpot, ps), |ms|);
    SortHasNoInversion((x: Scored, y: Scored) => RankLess(x, y), ScoreAll(ms, rs, useSpot, ps), i, j);
  }

  /******* The order of collection does not matter *******/

  function Keys(s: seq<Scored>): (r: seq<Key>)
    ensures |r| == |s|
    ensures forall i :: 0 <= i < |s| ==> r[i] == KeyOf(s[i])
  {
    seq(|s|, i requires 0 <= i < |s| => KeyOf(s[i]))
  }

  predicate KeyLess(a: Key, b: Key) {
    if a.group != b.group then a.group < b.group
    else if a.priced != b.priced then a.priced
    else LexLess(a.scores, b.scores)
  }

  // Sorted, with n scores in every key.
  predicate KeysSorted(s: seq<Key>, n: nat) {
    && (forall k <- s :: |k.scores| == n)
    && (forall i, j :: 0 <= i < j < |s| ==> !KeyLess(s[j], s[i]))
  }

  lemma KeyTrichotomy(a: Key, b: Key)
    requires |a.scores| == |b.scores| && !KeyLess(a, b) && !KeyLess(b, a)
    ensures a == b
  {
    LexTrichotomy(a.scores, b.scores);
  }

  lemma {:induction false} SortedKeysUnique(a: seq<Key>, b: seq<Key>, n: nat)
    requires KeysSorted(a, n) && KeysSorted(b, n) && multiset(a) == multiset(b)
    ensures a == b
  {
    if a == [] {
      EmptyBag(b);
    } else {
      SameHead(a, b, n);
      TailSorted(a, n);
      TailSorted(b, n);
      SortedKeysUnique(a[1..], b[1..], n);
      assert a == [a[0]] + a[1..] && b == [b[0]] + b[1..];
    }
  }

  lemma TailSorted(a: seq<Key>, n: nat)
    requires KeysSorted(a, n) && a != []
    ensures KeysSorted(a[1..], n) && multiset(a[1..]) == multiset(a) - multiset{a[0]}
  {
    TakeOut(a, 0);
    assert a[..0] + a[1..] == a[1..];
  }

  lemma SameHead(a: seq<Key>, b: seq<Key>, n: nat)
    requires KeysSorted(a, n) && KeysSorted(b, n) && multiset(a) == multiset(b) && a != []
    ensures b != [] && a[0] == b[0]
  {
    assert a[0] in multiset(a) && a[0] in multiset(b);
    assert b[0] in multiset(b) && b[0] in multiset(a);
    HeadIsLeast(a, n, b[0]);
    HeadIsLeast(b, n, a[0]);
    assert a[0] in a && b[0] in b;
    KeyTrichotomy(a[0], b[0]);
  }

  lemma HeadIsLeast(a: seq<Key>, n: nat, k: Key)
    requires KeysSorted(a, n) && k in a
    ensures !KeyLess(k, a[0])
  {
    LexTrichotomy(a[0].scores, a[0].scores);
  }

  lemma KeysMultiset(a: seq<Scored>, b: seq<Scored>)
    requires multiset(a) == multiset(b)
    ensures multiset(Keys(a)) == multiset(Keys(b))
  {
    var f := (x: Scored) => KeyOf(x);
    MappedAt(f, a, Keys(a));
    MappedAt(f, b, Keys(b));
    MappedPermuted(f, a, b);
  }

  lemma RankedKeysSorted(s: seq<Scored>, n: nat)
    requires SameLength(s, n)
    ensures KeysSorted(Keys(RankedBy(s)), n)
  {
    var less := (x: Scored, y: Scored) => RankLess(x, y);
    RankStrictWeak(s, n);
    SortMultiset(less, s);
    var r := RankedBy(s);
    forall i, j | 0 <= i < j < |r|
      ensures !KeyLess(Keys(r)[j], Keys(r)[i])
    {
      SortHasNoInversion(less, s, i, j);
    }
    forall k <- Keys(r)
      ensures |k.scores| == n
    {
      var i :| 0 <= i < |r| && k == KeyOf(r[i]);
      assert r[i] in multiset(r) && r[i] in multiset(s);
    }
  }

  // Reordering the collected candidates leaves the ranked keys as they are, at
  // every position.
  lemma OrderOfCollectionIrrelevant(s: seq<Scored>, t: seq<Scored>, n: nat)
    requires SameLength(s, n) && multiset(s) == multiset(t)
    ensures Keys(RankedBy(s)) == Keys(RankedBy(t))
  {
    var less := (x: Scored, y: Scored) => RankLess(x, y);
    forall x <- t
      ensures |x.scores| == n
    {
      assert x in multiset(t);
      assert x in multiset(s);
    }
    RankedKeysSorted(s, n);
    RankedKeysSorted(t, n);
    SortMultiset(less, s);
    SortMultiset(less, t);
    KeysMultiset(RankedBy(s), RankedBy(t));
    SortedKeysUnique(Keys(RankedBy(s)), Keys(RankedBy(t)), n);
  }

  /******* Metric lists *******/

  // The metric does not look at the estimated run time.
  ghost predicate IgnoresTime(m: Metric) {
    forall c: Candidate, t: real, useSpot: bool :: m.rank(c, useSpot) == m.rank(c.(estimatedTime := t), useSpot)
  }

  // a ranks strictly ahead of b under the metrics.
  ghost predicate Ahead(ms: seq<Metric>, rs: Resources, useSpot: bool, a: Placed, b: Placed) {
    RankLess(Score(ms, rs, useSpot, a), Score(ms, rs, useSpot, b))
  }

  lemma {:induction false} LexExtends(a: seq<real>, b: seq<real>, c: seq<real>, d: seq<real>)
    requires |a| == |b| && LexLess(a, b)
    ensures LexLess(a + c, b + d)
  {
    assert (a + c)[1..] == a[1..] + c && (b + d)[1..] == b[1..] + d;
    if a[0] == b[0] {
      LexExtends(a[1..], b[1..], c, d);
    }
  }

  // An equal pair of scores inserted anywhere does not change the comparison.
  lemma {:induction false} LexInsertEqual(a: seq<real>, b: seq<real>, i: nat, v: real)
    requires |a| == |b| && i <= |a|
    ensures LexLess(a[..i] + [v] + a[i..], b[..i] + [v] + b[i..]) <==> LexLess(a, b)
  {
    var a', b' := a[..i] + [v] + a[i..], b[..i] + [v] + b[i..];
    if i == 0 {
      assert a'[1..] == a && b'[1..] == b;
    } else {
      LexInsertEqual(a[1..], b[1..], i - 1, v);
      assert a'[1..] == a[1..][..i - 1] + [v] + a[1..][i - 1..];
      assert b'[1..] == b[1..][..i - 1] + [v] + b[1..][i - 1..];
    }
  }

  // So does a repetition, behind the original, of a pair that is there already.
  lemma {:induction false} LexRepeat(a: seq<real>, b: seq<real>, j: nat, i: nat)
    requires |a| == |b| && j < i <= |a|
    ensures LexLess(a[..i] + [a[j]] + a[i..], b[..i] + [b[j]] + b[i..]) <==> LexLess(a, b)
  {
    var a', b' := a[..i] + [a[j]] + a[i..], b[..i] + [b[j]] + b[i..];
    if a[0] == b[0] {
      assert a'[1..] == a[1..][..i - 1] + [a[j]] + a[1..][i - 1..];
      assert b'[1..] == b[1..][..i - 1] + [b[j]] + b[1..][i - 1..];
      if j == 0 {
        LexInsertEqual(a[1..], b[1..], i - 1, a[0]);
      } else {
        LexRepeat(a[1..], b[1..], j - 1, i - 1);
      }
    }
  }

  // The candidate with its run time estimated, as "time" in the list makes it.
  ghost function Estimated(rs: Resources, p: Placed): Placed {
    p.(c := p.c.(estimatedTime := RuntimeOf(rs.timeSec, p.c.inst)))
  }

  ghost function Prepared(ms: seq<Metric>, rs: Resources, p: Placed): Placed {
    if HasTime(ms) then Estimated(rs, p) else p
  }

  // The list of metrics matters to a candidate in two ways: what it scores, and
  // whether the estimate is filled in first.
  lemma ScoreOfPrepared(ms: seq<Metric>, rs: Resources, useSpot: bool, p: Placed)
    ensures Score(ms, rs, useSpot, Prepared(ms, rs, p)) == Score(ms, rs, useSpot, p)
    ensures Score(ms, rs, useSpot, p).scores == Scores(ms, Prepared(ms, rs, p).c, useSpot)
    ensures Score(ms, rs, useSpot, Estimated(rs, p)).scores == Scores(ms, Estimated(rs, p).c, useSpot)
  {
  }

  lemma TimeInEither(ms: seq<Metric>, more: seq<Metric>)
    ensures HasTime(ms + more) <==> HasTime(ms) || HasTime(more)
  {
    if HasTime(ms) {
      var i :| 0 <= i < |ms| && ms[i].name == "time";
      assert (ms + more)[i].name == "time";
    } else if HasTime(more) {
      var i :| 0 <= i < |more| && more[i].name == "time";
      assert (ms + more)[|ms| + i].name == "time";
    }
  }

  // The extended list scores the candidate, prepared as it demands, first as the
  // old list does.
  lemma ScoresOfExtension(ms: seq<Metric>, more: seq<Metric>, rs: Resources, useSpot: bool, p: Placed)
    ensures var q := Prepared(ms + more, rs, p);
            Score(ms + more, rs, useSpot, p).scores == Score(ms, rs, useSpot, q).scores + Scores(more, q.c, useSpot)
  {
    TimeInEither(ms, more);
    ScoreOfPrepared(ms + more, rs, useSpot, p);
    var q := Prepared(ms + more, rs, p);
    assert Score(ms, rs, useSpot, q).scores == Scores(ms, q.c, useSpot);
    assert Scores(ms + more, q.c, useSpot) == Scores(ms, q.c, useSpot) + Scores(more, q.c, useSpot);
  }

  // Whatever the metrics, a strict ranking of the candidates as an extension
  // prepares them is kept by that extension.
  lemma ExtensionKeepsPreparedRanking(ms: seq<Metric>, more: seq<Metric>, rs: Resources, useSpot: bool, a: Placed, b: Placed)
    requires Ahead(ms, rs, useSpot, Prepared(ms + more, rs, a), Prepared(ms + more, rs, b))
    ensures Ahead(ms + more, rs, useSpot, a, b)
  {
    ScoresOfExtension(ms, more, rs, useSpot, a);
    ScoresOfExtension(ms, more, rs, useSpot, b);
    var a', b' := Prepared(ms + more, rs, a), Prepared(ms + more, rs, b);
    var x, y := Score(ms, rs, useSpot, a'), Score(ms, rs, useSpot, b');
    if LexLess(x.scores, y.scores) {
      LexExtends(x.scores, y.scores, Scores(more, a'.c, useSpot), Scores(more, b'.c, useSpot));
    }
  }

  // Filling in the run times never undoes a strict ranking under ms.
  ghost predicate SteadyUnderEstimates(ms: seq<Metric>) {
    forall rs: Resources, useSpot: bool, a: Placed, b: Placed :: Ahead(ms, rs, useSpot, a, b) ==>
      Ahead(ms, rs, useSpot, Estimated(rs, a), Estimated(rs, b))
  }

  ghost predicate KeptBy(ms: seq<Metric>, more: seq<Metric>) {
    forall rs: Resources, useSpot: bool, a: Placed, b: Placed :: Ahead(ms, rs, useSpot, a, b) ==>
      Ahead(ms + more, rs, useSpot, a, b)
  }

  const NEUTRAL_TIME := Metric("time", (c: Candidate, useSpot: bool) => 0.0)

  lemma NeutralTime(ms: seq<Metric>, rs: Resources, useSpot: bool, a: Placed, b: Placed)
    ensures Ahead(ms + [NEUTRAL_TIME], rs, useSpot, a, b) <==> Ahead(ms, rs, useSpot, Estimated(rs, a), Estimated(rs, b))
  {
    assert [NEUTRAL_TIME][0].name == "time";
    TimeInEither(ms, [NEUTRAL_TIME]);
    ScoresOfExtension(ms, [NEUTRAL_TIME], rs, useSpot, a);
    ScoresOfExtension(ms, [NEUTRAL_TIME], rs, useSpot, b);
    var x, y := Score(ms, rs, useSpot, Estimated(rs, a)).scores, Score(ms, rs, useSpot, Estimated(rs, b)).scores;
    LexInsertEqual(x, y, |x|, 0.0);
    assert x[..|x|] + [0.0] + x[|x|..] == x + [0.0] && y[..|y|] + [0.0] + y[|y|..] == y + [0.0];
    assert Scores([NEUTRAL_TIME], Estimated(rs, a).c, useSpot) == [0.0];
    assert Scores([NEUTRAL_TIME], Estimated(rs, b).c, useSpot) == [0.0];
  }

  // A strict ranking survives every extension of the metric list exactly when
  // the list has "time" already or is steady under estimates.
  lemma ExtensionLawExactly(ms: seq<Metric>)
    ensures (forall more :: KeptBy(ms, more)) <==> HasTime(ms) || SteadyUnderEstimates(ms)
  {
    if HasTime(ms) || SteadyUnderEstimates(ms) {
      forall more
        ensures KeptBy(ms, more)
      {
        AllKept(ms, more);
      }
    } else {
      assert !KeptBy(ms, [NEUTRAL_TIME]) by {
        var rs: Resources, useSpot: bool, a: Placed, b: Placed :| Ahead(ms, rs, useSpot, a, b) &&
          !Ahead(ms, rs, useSpot, Estimated(rs, a), Estimated(rs, b));
        NeutralTime(ms, rs, useSpot, a, b);
      }
    }
  }

  lemma AllKept(ms: seq<Metric>, more: seq<Metric>)
    requires HasTime(ms) || !HasTime(more) || SteadyUnderEstimates(ms)
    ensures KeptBy(ms, more)
  {
    TimeInEither(ms, more);
    forall rs: Resources, useSpot: bool, a: Placed, b: Placed | Ahead(ms, rs, useSpot, a, b)
      ensures Ahead(ms + more, rs, useSpot, a, b)
    {
      ScoreOfPrepared(ms, rs, useSpot, a);
      ScoreOfPrepared(ms, rs, useSpot, b);
      ExtensionKeepsPreparedRanking(ms, more, rs, useSpot, a, b);
    }
  }

  lemma IgnoringMeansSteady(ms: seq<Metric>)
    requires forall i :: 0 <= i < |ms| ==> IgnoresTime(ms[i])
    ensures forall rs: Resources, useSpot: bool, p: Placed :: Score(ms, rs, useSpot, Estimated(rs, p)).scores == Score(ms, rs, useSpot, p).scores
    ensures SteadyUnderEstimates(ms)
  {
    forall rs: Resources, useSpot: bool, p: Placed
      ensures Score(ms, rs, useSpot, Estimated(rs, p)).scores == Score(ms, rs, useSpot, p).scores
    {
      ScoreOfPrepared(ms, rs, useSpot, p);
      var c, c' := Prepared(ms, rs, p).c, Estimated(rs, p).c;
      assert c' == c.(estimatedTime := c'.estimatedTime);
      forall i | 0 <= i < |ms|
        ensures ms[i].rank(c', useSpot) == ms[i].rank(c, useSpot)
      {
        assert IgnoresTime(ms[i]);
      }
      assert Scores(ms, c', useSpot) == Scores(ms, c, useSpot);
    }
  }

  // So one ranking is kept whenever its list is steady or the estimate is not
  // filled in by the extension alone.
  lemma ExtensionKeepsStrictRanking(ms: seq<Metric>, more: seq<Metric>, rs: Resources, useSpot: bool, a: Placed, b: Placed)
    requires HasTime(ms) || !HasTime(more) || SteadyUnderEstimates(ms)
    requires Ahead(ms, rs, useSpot, a, b)
    ensures Ahead(ms + more, rs, useSpot, a, b)
  {
    AllKept(ms, more);
  }

  /******* The metrics that come with the program *******/

  // The registry maps the two names to the two metrics.
  ghost predicate Registered(ms: seq<Metric>) {
    forall i :: 0 <= i < |ms| ==> ms[i] == COST || ms[i] == TIME
  }

  lemma CostIgnoresTime()
    ensures IgnoresTime(COST)
  {
  }

  lemma RegisteredAreSteady(ms: seq<Metric>)
    requires Registered(ms)
    ensures HasTime(ms) || (SteadyUnderEstimates(ms) && forall i :: 0 <= i < |ms| ==> IgnoresTime(ms[i]))
  {
    if !HasTime(ms) {
      forall i | 0 <= i < |ms|
        ensures IgnoresTime(ms[i])
      {
        assert ms[i].name != "time";
        CostIgnoresTime();
      }
      IgnoringMeansSteady(ms);
    }
  }

  // With "cost" and "time" a strict ranking survives every extension.
  lemma RegisteredRankingsKept(ms: seq<Metric>, more: seq<Metric>, rs: Resources, useSpot: bool, a: Placed, b: Placed)
    requires Registered(ms)
    requires Ahead(ms, rs, useSpot, a, b)
    ensures Ahead(ms + more, rs, useSpot, a, b)
  {
    RegisteredAreSteady(ms);
    AllKept(ms, more);
  }

  // Some metric is not steady: one that turns around once there is an estimate.
  lemma ExtensionCanReverse(inst: Instance, rs: Resources)
    requires rs.timeSec == Some(3600)
    ensures exists m: Metric, a: Placed, b: Placed ::
              Ahead([m], rs, false, a, b) && Ahead([m] + [TIME], rs, false, b, a)
  {
    var rank := (c: Candidate, useSpot: bool) => if c.estimatedTime == 0.0 then c.onDemand else -c.onDemand;
    var m := Metric("turning", rank);
    var a, b := Placed(Candidate(inst, 1.0, 0.0, 0.0), 0), Placed(Candidate(inst, 2.0, 0.0, 0.0), 0);
    assert [m][0].name != "time" && [TIME][0].name == "time";
    TimeInEither([m], [TIME]);
    ScoreOfPrepared([m], rs, false, a);
    ScoreOfPrepared([m], rs, false, b);
    assert Scores([m], a.c, false) == [1.0] && Scores([m], b.c, false) == [2.0];
    assert Scores([m], Estimated(rs, a).c, false) == [-1.0] && Scores([m], Estimated(rs, b).c, false) == [-2.0];
    ExtensionKeepsPreparedRanking([m], [TIME], rs, false, b, a);
    assert Ahead([m], rs, false, a, b) && Ahead([m] + [TIME], rs, false, b, a);
  }

  function InsertAt<T>(s: seq<T>, i: nat, x: T): seq<T>
    requires i <= |s|
  {
    s[..i] + [x] + s[i..]
  }

  lemma TimeInserted(ms: seq<Metric>, i: nat, m: Metric)
    requires i <= |ms|
    ensures HasTime(InsertAt(ms, i, m)) <==> HasTime(ms) || m.name == "time"
  {
    var ms' := InsertAt(ms, i, m);
    assert forall k :: 0 <= k < |ms'| ==> ms'[k] == if k < i then ms[k] else if k == i then m else ms[k - 1];
    if HasTime(ms) {
      var k :| 0 <= k < |ms| && ms[k].name == "time";
      assert ms'[if k < i then k else k + 1].name == "time";
    } else if m.name == "time" {
      assert ms'[i].name == "time";
    }
  }

  // Naming a metric again further down the list is a no-op.
  lemma RepeatedMetricIsNoOp(ms: seq<Metric>, j: nat, i: nat, rs: Resources, useSpot: bool, a: Placed, b: Placed)
    requires j < i <= |ms|
    ensures Ahead(InsertAt(ms, i, ms[j]), rs, useSpot, a, b) <==> Ahead(ms, rs, useSpot, a, b)
  {
    var ms' := InsertAt(ms, i, ms[j]);
    TimeInserted(ms, i, ms[j]);
    var x, y := Score(ms, rs, useSpot, a), Score(ms, rs, useSpot, b);
    var x', y' := Score(ms', rs, useSpot, a), Score(ms', rs, useSpot, b);
    assert x'.scores == x.scores[..i] + [x.scores[j]] + x.scores[i..];
    assert y'.scores == y.scores[..i] + [y.scores[j]] + y.scores[i..];
    LexRepeat(x.scores, y.scores, j, i);
  }

  // With an explicit estimate every candidate takes the same time, so "time" at
  // any place does nothing but fill that estimate in.
  lemma TimeOnlyFillsEstimates(ms: seq<Metric>, i: nat, rs: Resources, useSpot: bool, a: Placed, b: Placed)
    requires i <= |ms| && rs.timeSec.Some? && rs.timeSec.value > 0
    ensures Ahead(InsertAt(ms, i, TIME), rs, useSpot, a, b) <==> Ahead(ms, rs, useSpot, Estimated(rs, a), Estimated(rs, b))
  {
    TimeScores(ms, i, rs, useSpot, a);
    TimeScores(ms, i, rs, useSpot, b);
    var x, y := Score(ms, rs, useSpot, Estimated(rs, a)), Score(ms, rs, useSpot, Estimated(rs, b));
    LexInsertEqual(x.scores, y.scores, i, rs.timeSec.value as real / 3600.0);
  }

  lemma TimeScores(ms: seq<Metric>, i: nat, rs: Resources, useSpot: bool, p: Placed)
    requires i <= |ms| && rs.timeSec.Some? && rs.timeSec.value > 0
    ensures var s := Score(ms, rs, useSpot, Estimated(rs, p)).scores;
            Score(InsertAt(ms, i, TIME), rs, useSpot, p).scores == s[..i] + [rs.timeSec.value as real / 3600.0] + s[i..]
  {
    var ms' := InsertAt(ms, i, TIME);
    TimeInserted(ms, i, TIME);
    ScoreOfPrepared(ms', rs, useSpot, p);
    ScoreOfPrepared(ms, rs, useSpot, p);
  }

  // Filling in the run times changes no comparison under ms.
  ghost predicate IndifferentToEstimates(ms: seq<Metric>, rs: Resources, useSpot: bool) {
    forall a: Placed, b: Placed :: Ahead(ms, rs, useSpot, Estimated(rs, a), Estimated(rs, b)) <==> Ahead(ms, rs, useSpot, a, b)
  }

  // So it changes nothing exactly when filling the estimates in does not.
  lemma TimeIsNoOpExactly(ms: seq<Metric>, i: nat, rs: Resources, useSpot: bool)
    requires i <= |ms| && rs.timeSec.Some? && rs.timeSec.value > 0
    ensures (forall a: Placed, b: Placed :: Ahead(InsertAt(ms, i, TIME), rs, useSpot, a, b) <==> Ahead(ms, rs, useSpot, a, b))
       <==> IndifferentToEstimates(ms, rs, useSpot)
  {
    forall a: Placed, b: Placed
      ensures Ahead(InsertAt(ms, i, TIME), rs, useSpot, a, b) <==> Ahead(ms, rs, useSpot, Estimated(rs, a), Estimated(rs, b))
    {
      TimeOnlyFillsEstimates(ms, i, rs, useSpot, a, b);
    }
  }

  lemma IndifferentLists(ms: seq<Metric>, rs: Resources, useSpot: bool)
    requires HasTime(ms) || forall k :: 0 <= k < |ms| ==> IgnoresTime(ms[k])
    ensures IndifferentToEstimates(ms, rs, useSpot)
  {
    forall a: Placed, b: Placed
      ensures Ahead(ms, rs, useSpot, Estimated(rs, a), Estimated(rs, b)) <==> Ahead(ms, rs, useSpot, a, b)
    {
      if HasTime(ms) {
        ScoreOfPrepared(ms, rs, useSpot, a);
        ScoreOfPrepared(ms, rs, useSpot, b);
      } else {
        IgnoringMeansSteady(ms);
      }
    }
  }

  // With "cost" and "time" it never changes anything.
  lemma RegisteredTimeIsNoOp(ms: seq<Metric>, i: nat, rs: Resources, useSpot: bool, a: Placed, b: Placed)
    requires i <= |ms| && rs.timeSec.Some? && rs.timeSec.value > 0 && Registered(ms)
    ensures Ahead(InsertAt(ms, i, TIME), rs, useSpot, a, b) <==> Ahead(ms, rs, useSpot, a, b)
  {
    RegisteredAreSteady(ms);
    IndifferentLists(ms, rs, useSpot);
    TimeOnlyFillsEstimates(ms, i, rs, useSpot, a, b);
  }
}
