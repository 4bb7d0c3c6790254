// Stable sorting by a comparison: what sort.SliceStable promises.
module StableSort {

  // x sits behind every element of s it is not less than.
  function Insert<T>(less: (T, T) -> bool, s: seq<T>, x: T): seq<T> {
    if s == [] || !less(x, s[|s| - 1]) then s + [x]
    else Insert(less, s[..|s| - 1], x) + [s[|s| - 1]]
  }

  function Sort<T>(less: (T, T) -> bool, s: seq<T>): seq<T> {
    if s == [] then [] else Insert(less, Sort(less, s[..|s| - 1]), s[|s| - 1])
  }

  lemma {:induction false} InsertMultiset<T>(less: (T, T) -> bool, s: seq<T>, x: T)
    ensures multiset(Insert(less, s, x)) == multiset(s) + multiset{x}
    ensures |Insert(less, s, x)| == |s| + 1
  {
    if s != [] {
      InsertMultiset(less, s[..|s| - 1], x);
      assert s == s[..|s| - 1] + [s[|s| - 1]];
    }
  }

  lemma {:induction false} SortMultiset<T>(less: (T, T) -> bool, s: seq<T>)
    ensures multiset(Sort(less, s)) == multiset(s)
    ensures |Sort(less, s)| == |s|
  {
    if s != [] {
      SortMultiset(less, s[..|s| - 1]);
      InsertMultiset(less, Sort(less, s[..|s| - 1]), s[|s| - 1]);
      assert s == s[..|s| - 1] + [s[|s| - 1]];
    }
  }

  // Insertion in place: the element at i is exchanged with its left neighbour
  // until it is not less than it.
  method InsertInPlace<T>(a: array<T>, less: (T, T) -> bool, i: nat)
    requires i < a.Length
    modifies a
    ensures a[..i + 1] == Insert(less, old(a[..i]), old(a[i]))
    ensures a[i + 1..] == old(a[i + 1..])
  {
    ghost var sorted, x, rest := a[..i], a[i], a[i + 1..];
    var j := i;
    assert With(sorted, x, i) == a[..i + 1];
    assert sorted[..i] == sorted;
    while j > 0 && less(a[j], a[j - 1])
      invariant 0 <= j <= i
      invariant a[..i + 1] == With(sorted, x, j)
      invariant a[i + 1..] == rest
      invariant Insert(less, sorted, x) == Insert(less, sorted[..j], x) + sorted[j..]
    {
      ExchangeStep(less, sorted, x, j, a[..i + 1]);
      a[j], a[j - 1] := a[j - 1], a[j];
      j := j - 1;
    }
    InsertEnds(less, sorted, x, j, a[..i + 1]);
  }

  // s with x put in at position j.
  ghost function With<T>(s: seq<T>, x: T, j: nat): seq<T>
    requires j <= |s|
  {
    s[..j] + [x] + s[j..]
  }

  lemma ExchangeStep<T>(less: (T, T) -> bool, s: seq<T>, x: T, j: nat, now: seq<T>)
    requires 0 < j <= |s| && now == With(s, x, j) && less(now[j], now[j - 1])
    ensures now[j := now[j - 1]][j - 1 := now[j]] == With(s, x, j - 1)
    ensures Insert(less, s[..j], x) + s[j..] == Insert(less, s[..j - 1], x) + s[j - 1..]
  {
    assert s[..j][..j - 1] == s[..j - 1] && s[..j][j - 1] == s[j - 1];
    assert s[j - 1..] == [s[j - 1]] + s[j..];
  }

  lemma InsertEnds<T>(less: (T, T) -> bool, s: seq<T>, x: T, j: nat, now: seq<T>)
    requires j <= |s| && now == With(s, x, j) && (j > 0 ==> !less(now[j], now[j - 1]))
    ensures Insert(less, s[..j], x) + s[j..] == now
  {
  }

  method SliceStable<T>(a: array<T>, less: (T, T) -> bool)
    modifies a
    ensures a[..] == Sort(less, old(a[..]))
  {
    ghost var input := a[..];
    for i := 0 to a.Length
      invariant a[..i] == Sort(less, input[..i])
      invariant a[i..] == input[i..]
    {
      assert a[i] == a[i..][0] && a[i + 1..] == a[i..][1..];
      assert input[..i + 1][..i] == input[..i];
      InsertInPlace(a, less, i);
    }
    assert input[..a.Length] == input && a[..a.Length] == a[..];
  }

  /******* What the result is *******/

  predicate Distinct(p: seq<nat>) {
    forall i, j :: 0 <= i < j < |p| ==> p[i] != p[j]
  }

  // p lists the indices of a sequence of length n in some order.
  predicate Permutation(p: seq<nat>, n: nat) {
    |p| == n && Distinct(p) && (forall i :: 0 <= i < n ==> p[i] < n)
  }

  // Position a goes before position b: by the comparison, ties by position.
  predicate Before<T>(less: (T, T) -> bool, s: seq<T>, a: nat, b: nat)
    requires a < |s| && b < |s|
  {
    less(s[a], s[b]) || (!less(s[b], s[a]) && a < b)
  }

  predicate StablyOrdered<T>(less: (T, T) -> bool, s: seq<T>, p: seq<nat>)
    requires Permutation(p, |s|)
  {
    forall i, j :: 0 <= i < j < |p| ==> Before(less, s, p[i], p[j])
  }

  // r is s with its elements in the order p.
  ghost predicate Picks<T>(s: seq<T>, p: seq<nat>, r: seq<T>) {
    && |r| == |p|
    && (forall i :: 0 <= i < |p| ==> p[i] < |s| && r[i] == s[p[i]])
  }

  ghost predicate IsStableSort<T>(less: (T, T) -> bool, s: seq<T>, r: seq<T>) {
    exists p: seq<nat> :: Permutation(p, |s|) && StablyOrdered(less, s, p) && Picks(s, p, r)
  }

  // Irreflexive, transitive, and "neither is less" is transitive as well.
  ghost predicate StrictWeakOn<T>(less: (T, T) -> bool, s: seq<T>) {
    && (forall x <- s :: !less(x, x))
    && (forall x <- s, y <- s, z <- s :: less(x, y) && less(y, z) ==> less(x, z))
    && (forall x <- s, y <- s, z <- s :: !less(x, y) && !less(y, z) ==> !less(x, z))
  }

  lemma StrictWeakOnPart<T>(less: (T, T) -> bool, s: seq<T>, part: seq<T>)
    requires StrictWeakOn(less, s) && forall x <- part :: x in s
    ensures StrictWeakOn(less, part)
  {
  }

  lemma BeforeTransitive<T>(less: (T, T) -> bool, s: seq<T>, a: nat, b: nat, c: nat)
    requires a < |s| && b < |s| && c < |s| && StrictWeakOn(less, s)
    requires Before(less, s, a, b) && Before(less, s, b, c)
    ensures Before(less, s, a, c)
  {
    assert s[a] in s && s[b] in s && s[c] in s;
  }

  function Below(n: nat): (r: set<nat>)
    ensures |r| == n && forall x: nat :: x in r <==> x < n
  {
    if n == 0 then {} else Below(n - 1) + {n - 1}
  }

  function Elements(p: seq<nat>): (r: set<nat>)
    ensures forall x :: x in r <==> x in p
  {
    set x | x in p
  }

  lemma {:induction false} DistinctSize(p: seq<nat>)
    requires Distinct(p)
    ensures |Elements(p)| == |p|
  {
    if p != [] {
      var front, last := p[..|p| - 1], p[|p| - 1];
      DistinctSize(front);
      assert p == front + [last];
      assert Elements(p) == Elements(front) + {last};
    }
  }

  lemma SameSize(a: set<nat>, b: set<nat>)
    requires a <= b && |a| == |b|
    ensures a == b
  {
    assert |b - a| == |b| - |a|;
  }

  // A pigeonhole: an index list without repetition misses nothing.
  lemma PermutationCovers(p: seq<nat>, n: nat, x: nat)
    requires Permutation(p, n) && x < n
    ensures x in p
  {
    DistinctSize(p);
    assert Elements(p) <= Below(n);
    SameSize(Elements(p), Below(n));
  }

  lemma {:induction false} SamePrefix<T>(less: (T, T) -> bool, s: seq<T>, p: seq<nat>, q: seq<nat>, i: nat)
    requires Permutation(p, |s|) && Permutation(q, |s|) && i <= |s| && StrictWeakOn(less, s)
    requires StablyOrdered(less, s, p) && StablyOrdered(less, s, q)
    ensures p[..i] == q[..i]
  {
    if i > 0 {
      SamePrefix(less, s, p, q, i - 1);
      SameNext(less, s, p, q, i - 1);
    }
  }

  lemma SameNext<T>(less: (T, T) -> bool, s: seq<T>, p: seq<nat>, q: seq<nat>, i: nat)
    requires Permutation(p, |s|) && Permutation(q, |s|) && i < |s| && StrictWeakOn(less, s)
    requires StablyOrdered(less, s, p) && StablyOrdered(less, s, q) && p[..i] == q[..i]
    ensures p[i] == q[i]
  {
    var j := IndexIn(p, |s|, q[i]);
    var k := IndexIn(q, |s|, p[i]);
    assert forall x :: 0 <= x < i ==> p[x] == p[..i][x] == q[x];
    assert i <= j && i <= k;
    assert s[p[i]] in s && s[q[i]] in s;
  }

  lemma IndexIn(p: seq<nat>, n: nat, x: nat) returns (j: nat)
    requires Permutation(p, n) && x < n
    ensures j < n && p[j] == x
  {
    PermutationCovers(p, n, x);
    j :| j < n && p[j] == x;
  }

  // There is only one stable sort of a sequence.
  lemma StableSortUnique<T>(less: (T, T) -> bool, s: seq<T>, r1: seq<T>, r2: seq<T>)
    requires StrictWeakOn(less, s) && IsStableSort(less, s, r1) && IsStableSort(less, s, r2)
    ensures r1 == r2
  {
    var p :| Permutation(p, |s|) && StablyOrdered(less, s, p) && Picks(s, p, r1);
    var q :| Permutation(q, |s|) && StablyOrdered(less, s, q) && Picks(s, q, r2);
    SamePrefix(less, s, p, q, |s|);
    assert p[..|s|] == p && q[..|s|] == q;
  }

  // Where the insertion puts x: before the elements it is less than, at the end.
  lemma {:induction false} InsertPosition<T>(less: (T, T) -> bool, s: seq<T>, x: T) returns (pos: nat)
    ensures pos <= |s| && Insert(less, s, x) == s[..pos] + [x] + s[pos..]
    ensures pos > 0 ==> !less(x, s[pos - 1])
    ensures forall i :: pos <= i < |s| ==> less(x, s[i])
  {
    if s == [] || !less(x, s[|s| - 1]) {
      pos := |s|;
    } else {
      pos := InsertPosition(less, s[..|s| - 1], x);
      assert s == s[..|s| - 1] + [s[|s| - 1]];
    }
  }

  lemma InsertedPermutation(q: seq<nat>, n: nat, pos: nat)
    requires Permutation(q, n) && pos <= n
    ensures Permutation(q[..pos] + [n] + q[pos..], n + 1)
  {
  }

  lemma PickInserted<T>(s: seq<T>, sorted: seq<T>, q: seq<nat>, pos: nat)
    requires s != [] && Permutation(q, |s| - 1) && Picks(s[..|s| - 1], q, sorted) && pos <= |sorted|
    ensures Picks(s, q[..pos] + [|s| - 1] + q[pos..], sorted[..pos] + [s[|s| - 1]] + sorted[pos..])
  {
  }

  // The sorted order, as indices into s.
  lemma {:induction false} SortOrder<T>(less: (T, T) -> bool, s: seq<T>) returns (p: seq<nat>)
    requires StrictWeakOn(less, s)
    ensures Permutation(p, |s|) && StablyOrdered(less, s, p) && Picks(s, p, Sort(less, s))
  {
    if s == [] {
      p := [];
    } else {
      StrictWeakOnPart(less, s, s[..|s| - 1]);
      var q := SortOrder(less, s[..|s| - 1]);
      var pos := FindFit(less, s, Sort(less, s[..|s| - 1]), q);
      p := q[..pos] + [|s| - 1] + q[pos..];
      PickInserted(s, Sort(less, s[..|s| - 1]), q, pos);
      InsertedOrder(less, s, q, pos);
    }
  }

  lemma FindFit<T>(less: (T, T) -> bool, s: seq<T>, sorted: seq<T>, q: seq<nat>) returns (pos: nat)
    requires s != [] && Permutation(q, |s| - 1)
    requires StablyOrdered(less, s[..|s| - 1], q) && Picks(s[..|s| - 1], q, sorted)
    ensures FitsAt(less, s, q, pos)
    ensures Insert(less, sorted, s[|s| - 1]) == sorted[..pos] + [s[|s| - 1]] + sorted[pos..]
  {
    pos := InsertPosition(less, sorted, s[|s| - 1]);
    forall k | pos <= k < |s| - 1
      ensures less(s[|s| - 1], s[..|s| - 1][q[k]])
    {
      assert sorted[k] == s[..|s| - 1][q[k]];
    }
  }

  lemma InsertedOrder<T>(less: (T, T) -> bool, s: seq<T>, q: seq<nat>, pos: nat)
    requires s != [] && StrictWeakOn(less, s) && FitsAt(less, s, q, pos)
    ensures Permutation(q[..pos] + [|s| - 1] + q[pos..], |s|)
    ensures StablyOrdered(less, s, q[..pos] + [|s| - 1] + q[pos..])
  {
    InsertedPermutation(q, |s| - 1, pos);
    var p := q[..pos] + [|s| - 1] + q[pos..];
    forall i, j | 0 <= i < j < |p|
      ensures Before(less, s, p[i], p[j])
    {
      InsertedInOrder(less, s, q, pos, i, j);
    }
  }

  // q orders all of s but its last element, which belongs at pos.
  predicate FitsAt<T>(less: (T, T) -> bool, s: seq<T>, q: seq<nat>, pos: nat)
    requires s != []
  {
    var front := s[..|s| - 1];
    && Permutation(q, |front|) && StablyOrdered(less, front, q) && pos <= |front|
    && (pos > 0 ==> !less(s[|s| - 1], front[q[pos - 1]]))
    && (forall k :: pos <= k < |front| ==> less(s[|s| - 1], front[q[k]]))
  }

  lemma InsertedInOrder<T>(less: (T, T) -> bool, s: seq<T>, q: seq<nat>, pos: nat, i: nat, j: nat)
    requires s != [] && StrictWeakOn(less, s) && FitsAt(less, s, q, pos)
    requires i < j < |s|
    ensures var p := q[..pos] + [|s| - 1] + q[pos..]; p[i] < |s| && p[j] < |s| && Before(less, s, p[i], p[j])
  {
    var front, n := s[..|s| - 1], |s| - 1;
    var p := q[..pos] + [n] + q[pos..];
    if j == pos {
      assert Before(less, s, q[pos - 1], n);
      if i < pos - 1 {
        assert Before(less, front, q[i], q[pos - 1]);
        BeforeTransitive(less, s, q[i], q[pos - 1], n);
      }
    } else if i != pos {
      var i', j' := if i < pos then i else i - 1, if j < pos then j else j - 1;
      assert Before(less, front, q[i'], q[j']);
    }
  }

  lemma SortIsStableSort<T>(less: (T, T) -> bool, s: seq<T>)
    requires StrictWeakOn(less, s)
    ensures IsStableSort(less, s, Sort(less, s))
  {
    var p := SortOrder(less, s);
  }

  // Nothing comes before an element it is greater than.
  lemma SortHasNoInversion<T>(less: (T, T) -> bool, s: seq<T>, i: nat, j: nat)
    requires StrictWeakOn(less, s) && i < j < |s|
    ensures |Sort(less, s)| == |s| && !less(Sort(less, s)[j], Sort(less, s)[i])
  {
    var p := SortOrder(less, s);
    assert Before(less, s, p[i], p[j]);
    assert s[p[i]] in s && s[p[j]] in s;
  }
}
