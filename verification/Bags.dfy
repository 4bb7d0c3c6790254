// Sequences compared up to the order of their elements.
module Bags {

  lemma TakeOut<T>(s: seq<T>, i: nat)
    requires i < |s|
    ensures s == s[..i] + ([s[i]] + s[i + 1..])
    ensures multiset(s[..i] + s[i + 1..]) == multiset(s) - multiset{s[i]}
  {
    assert s == s[..i] + ([s[i]] + s[i + 1..]);
    var a, b := multiset(s[..i]), multiset(s[i + 1..]);
    assert multiset(s) == a + (multiset{s[i]} + b);
    assert multiset(s[..i] + s[i + 1..]) == a + b;
  }

  // Where the head of a sequence sits in a reordering of it.
  lemma FindHead<T>(xs: seq<T>, ys: seq<T>) returns (i: nat)
    requires xs != [] && multiset(xs) == multiset(ys)
    ensures i < |ys| && ys[i] == xs[0]
    ensures ys == ys[..i] + ([ys[i]] + ys[i + 1..])
    ensures multiset(xs[1..]) == multiset(ys[..i] + ys[i + 1..])
  {
    assert xs[0] in multiset(ys);
    i :| i < |ys| && ys[i] == xs[0];
    TakeOut(ys, i);
    TakeOut(xs, 0);
    assert xs[..0] + xs[1..] == xs[1..];
  }

  lemma EmptyBag<T>(s: seq<T>)
    requires multiset(s) == multiset{}
    ensures s == []
  {
    assert |multiset(s)| == |s|;
  }

  ghost function Mapped<A, B>(f: A -> B, a: seq<A>): (r: seq<B>)
    ensures |r| == |a|
  {
    if a == [] then [] else [f(a[0])] + Mapped(f, a[1..])
  }

  lemma {:induction false} MappedAt<A, B>(f: A -> B, a: seq<A>, r: seq<B>)
    requires |r| == |a| && forall i :: 0 <= i < |a| ==> r[i] == f(a[i])
    ensures r == Mapped(f, a)
  {
    if a != [] {
      MappedAt(f, a[1..], r[1..]);
      assert r == [r[0]] + r[1..];
    }
  }

  lemma {:induction false} MappedSplit<A, B>(f: A -> B, a: seq<A>, b: seq<A>)
    ensures Mapped(f, a + b) == Mapped(f, a) + Mapped(f, b)
  {
    if a == [] {
      assert a + b == b;
    } else {
      assert (a + b)[1..] == a[1..] + b;
      MappedSplit(f, a[1..], b);
    }
  }

  lemma MappedTakeOut<A, B>(f: A -> B, s: seq<A>, i: nat)
    requires i < |s|
    ensures multiset(Mapped(f, s)) == multiset(Mapped(f, s[..i] + s[i + 1..])) + multiset{f(s[i])}
  {
    TakeOut(s, i);
    MappedSplit(f, s[..i], [s[i]] + s[i + 1..]);
    MappedSplit(f, [s[i]], s[i + 1..]);
    MappedSplit(f, s[..i], s[i + 1..]);
    assert Mapped(f, [s[i]]) == [f(s[i])];
  }

  // Applying a function to each element commutes with reordering.
  lemma {:induction false} MappedPermuted<A, B>(f: A -> B, a: seq<A>, b: seq<A>)
    requires multiset(a) == multiset(b)
    ensures multiset(Mapped(f, a)) == multiset(Mapped(f, b))
    decreases |a|
  {
    if a == [] {
      EmptyBag(b);
    } else {
      var i := FindHead(a, b);
      MappedPermuted(f, a[1..], b[..i] + b[i + 1..]);
      MappedTakeOut(f, b, i);
      MappedTakeOut(f, a, 0);
      assert a[..0] + a[1..] == a[1..];
    }
  }

  lemma SameElements<T>(a: seq<T>, b: seq<T>)
    requires multiset(a) == multiset(b)
    ensures forall x :: x in a <==> x in b
  {
    forall x
      ensures x in a <==> x in b
    {
      assert x in a <==> x in multiset(a);
      assert x in b <==> x in multiset(b);
    }
  }

  // Nothing stands in the list twice.
  predicate Single<R(==)>(rows: seq<R>) {
    forall i, j :: 0 <= i < j < |rows| ==> rows[i] != rows[j]
  }

  lemma SingleWithout<R>(b: seq<R>, i: nat)
    requires i < |b| && Single(b[..i] + b[i + 1..]) && b[i] !in b[..i] + b[i + 1..]
    ensures Single(b)
  {
    var rest := b[..i] + b[i + 1..];
    forall j, k | 0 <= j < k < |b|
      ensures b[j] != b[k]
    {
      assert j < i ==> rest[j] == b[j];
      assert j > i ==> rest[j - 1] == b[j];
      assert k < i ==> rest[k] == b[k];
      assert k > i ==> rest[k - 1] == b[k];
    }
  }

  lemma {:induction false} SinglePermuted<R>(a: seq<R>, b: seq<R>)
    requires multiset(a) == multiset(b) && Single(a)
    ensures Single(b)
  {
    if a == [] {
      EmptyBag(b);
    } else {
      var i := FindHead(a, b);
      SinglePermuted(a[1..], b[..i] + b[i + 1..]);
      SameElements(a[1..], b[..i] + b[i + 1..]);
      assert a[0] !in a[1..];
      SingleWithout(b, i);
    }
  }

  /******* Visiting a map in any order *******/

  predicate Enumerates(order: seq<string>, keys: set<string>) {
    && (forall i, j :: 0 <= i < j < |order| ==> order[i] != order[j])
    && (forall k <- order :: k in keys) && (forall k <- keys :: k in order)
  }

  // The keys of a map, in no particular order.
  method KeysOf<V>(items: map<string, V>) returns (order: seq<string>)
    ensures Enumerates(order, items.Keys)
  {
    order := [];
    var left := items.Keys;
    while left != {}
      invariant left <= items.Keys && Enumerates(order, items.Keys - left)
      decreases |left|
    {
      var k :| k in left;
      left, order := left - {k}, order + [k];
    }
  }

  lemma {:induction false} SomeOrder(keys: set<string>) returns (order: seq<string>)
    ensures Enumerates(order, keys)
    decreases |keys|
  {
    if k :| k in keys {
      order := SomeOrder(keys - {k});
      order := order + [k];
    } else {
      order := [];
    }
  }

  lemma {:induction false} EnumerationSize(order: seq<string>, keys: set<string>)
    requires Enumerates(order, keys)
    ensures |order| == |keys|
  {
    if order == [] {
      assert keys == {};
    } else {
      EnumerationSize(order[1..], keys - {order[0]});
    }
  }
}
