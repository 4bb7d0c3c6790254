// Layered configuration: an overlay tree merged onto a base tree, key by key.
module ConfigMerge {
  import opened Text

  // Leaf stands for every node that is not a mapping.
  datatype Node = Leaf(text: string) | Mapping(entries: seq<Entry>)

  datatype Entry = Entry(key: string, value: Node)

  /******* Merging *******/

  // The index of the last entry with a key, or -1.
  function LastIndex(es: seq<Entry>, key: string): (i: int)
    ensures -1 <= i < |es|
    ensures i >= 0 ==> es[i].key == key
    ensures forall j :: i < j < |es| ==> es[j].key != key
  {
    if es == [] then -1
    else if es[|es| - 1].key == key then |es| - 1
    else LastIndex(es[..|es| - 1], key)
  }

  // The overlay's entries are laid on one after the other. A key of the base
  // keeps its place; two mappings are merged, anything else is replaced.
  function Merge(base: seq<Entry>, overlay: seq<Entry>): seq<Entry>
    decreases overlay
  {
    if overlay == [] then base
    else
      var e := overlay[|overlay| - 1];
      var done := Merge(base, overlay[..|overlay| - 1]);
      var i := LastIndex(done, e.key);
      if i < 0 then done + [e]
      else if done[i].value.Mapping? && e.value.Mapping? then
        done[i := done[i].(value := Mapping(Merge(done[i].value.entries, e.value.entries)))]
      else done[i := done[i].(value := e.value)]
  }

  // byKey knows the last entry of each key.
  ghost predicate Indexes(byKey: map<string, nat>, es: seq<Entry>) {
    forall k :: if k in byKey then byKey[k] == LastIndex(es, k) else LastIndex(es, k) == -1
  }

  lemma IndexesAppended(byKey: map<string, nat>, es: seq<Entry>, e: Entry)
    requires Indexes(byKey, es)
    ensures Indexes(byKey[e.key := |es|], es + [e])
  {
    assert (es + [e])[..|es|] == es;
  }

  lemma IndexesReplaced(byKey: map<string, nat>, es: seq<Entry>, i: nat, v: Node)
    requires Indexes(byKey, es) && i < |es|
    ensures Indexes(byKey, es[i := es[i].(value := v)])
  {
    forall k
      ensures LastIndex(es[i := es[i].(value := v)], k) == LastIndex(es, k)
    {
      SameKeysSameIndex(es, es[i := es[i].(value := v)], k);
    }
  }

  method MergeNode(base: seq<Entry>, overlay: seq<Entry>) returns (children: seq<Entry>)
    ensures children == Merge(base, overlay)
    decreases overlay
  {
    children := [];
    var byKey: map<string, nat> := map[];
    for i := 0 to |base|
      invariant children == base[..i] && Indexes(byKey, children)
    {
      IndexesAppended(byKey, children, base[i]);
      byKey := byKey[base[i].key := |children|];
      children := children + [base[i]];
    }
    for i := 0 to |overlay|
      invariant children == Merge(base, overlay[..i]) && Indexes(byKey, children)
    {
      var k, v := overlay[i].key, overlay[i].value;
      assert overlay[..i + 1][..i] == overlay[..i];
      if k in byKey {
        var at := byKey[k];
        if children[at].value.Mapping? && v.Mapping? {
          var merged := MergeNode(children[at].value.entries, v.entries);
          IndexesReplaced(byKey, children, at, Mapping(merged));
          children := children[at := children[at].(value := Mapping(merged))];
        } else {
          IndexesReplaced(byKey, children, at, v);
          children := children[at := children[at].(value := v)];
        }
      } else {
        IndexesAppended(byKey, children, overlay[i]);
        byKey := byKey[k := |children|];
        children := children + [overlay[i]];
      }
    }
    assert overlay[..|overlay|] == overlay;
  }

  lemma SameKeysSameIndex(a: seq<Entry>, b: seq<Entry>, key: string)
    requires |a| == |b| && forall i :: 0 <= i < |a| ==> a[i].key == b[i].key
    ensures LastIndex(a, key) == LastIndex(b, key)
  {
  }

  // The user's file with the project's laid on it; either may be missing.
  function Loaded(user: Option<seq<Entry>>, project: Option<seq<Entry>>): Option<seq<Entry>> {
    if project.None? then user else if user.None? then project else Some(Merge(user.value, project.value))
  }

  method Load(user: Option<seq<Entry>>, project: Option<seq<Entry>>) returns (base: Option<seq<Entry>>)
    ensures base == Loaded(user, project)
  {
    base := user;
    if project.Some? {
      if base.None? {
        base := project;
      } else {
        var merged := MergeNode(base.value, project.value);
        base := Some(merged);
      }
    }
  }

  /******* Reading *******/

  // The value of the first entry named name: the section, or None when absent.
  function Section(es: seq<Entry>, name: string): Option<Node> {
    if es == [] then None else if es[0].key == name then Some(es[0].value) else Section(es[1..], name)
  }

  method FindSection(es: seq<Entry>, name: string) returns (r: Option<Node>)
    ensures r == Section(es, name)
  {
    assert es[0..] == es;
    for i := 0 to |es|
      invariant Section(es, name) == Section(es[i..], name)
    {
      assert es[i..][0] == es[i] && es[i..][1..] == es[i + 1..];
      if es[i].key == name {
        return Some(es[i].value);
      }
    }
    return None;
  }

  // With no configuration at all every section is absent.
  function SectionOf(config: Option<seq<Entry>>, name: string): Option<Node> {
    if config.None? then None else Section(config.value, name)
  }

  // The value merging works with: the last entry's.
  function Get(es: seq<Entry>, key: string): Option<Node> {
    var i := LastIndex(es, key);
    if i < 0 then None else Some(es[i].value)
  }

  function Keys(es: seq<Entry>): (r: seq<string>)
    ensures |r| == |es| && forall i :: 0 <= i < |es| ==> r[i] == es[i].key
  {
    seq(|es|, i requires 0 <= i < |es| => es[i].key)
  }

  predicate DistinctKeys(es: seq<Entry>) {
    forall i, j :: 0 <= i < j < |es| ==> es[i].key != es[j].key
  }

  // No mapping in the tree has a duplicate key.
  predicate NoDuplicates(es: seq<Entry>)
    decreases es
  {
    DistinctKeys(es) && forall i :: 0 <= i < |es| && es[i].value.Mapping? ==> NoDuplicates(es[i].value.entries)
  }

  lemma GetOfDistinct(es: seq<Entry>, i: nat)
    requires DistinctKeys(es) && i < |es|
    ensures Get(es, es[i].key) == Some(es[i].value)
  {
  }

  lemma Extensional(a: seq<Entry>, b: seq<Entry>)
    requires DistinctKeys(a) && Keys(a) == Keys(b)
    requires forall k <- Keys(a) :: Get(a, k) == Get(b, k)
    ensures a == b
  {
    forall i | 0 <= i < |a|
      ensures a[i] == b[i]
    {
      assert Keys(a)[i] == a[i].key && Keys(b)[i] == b[i].key;
      assert a[i].key in Keys(a);
      assert DistinctKeys(b) by {
        forall x, y | 0 <= x < y < |b|
          ensures b[x].key != b[y].key
        {
          assert Keys(a)[x] != Keys(a)[y];
        }
      }
      GetOfDistinct(a, i);
      GetOfDistinct(b, i);
    }
  }

  /******* What a merge contains *******/

  // One key's value after merging.
  function Over(x: Option<Node>, y: Option<Node>): Option<Node> {
    if y.None? then x
    else if x.Some? && x.value.Mapping? && y.value.Mapping? then
      Some(Mapping(Merge(x.value.entries, y.value.entries)))
    else y
  }

  // The keys that are not among seen, in order.
  function Fresh(keys: seq<string>, seen: seq<string>): seq<string> {
    if keys == [] then []
    else
      var k := keys[|keys| - 1];
      Fresh(keys[..|keys| - 1], seen) + if k in seen then [] else [k]
  }

  lemma HasKey(es: seq<Entry>, key: string)
    ensures LastIndex(es, key) >= 0 <==> key in Keys(es)
  {
    if i :| 0 <= i < |es| && es[i].key == key {
      assert Keys(es)[i] == key;
    }
  }

  lemma {:induction false} FreshMembers(keys: seq<string>, seen: seq<string>)
    ensures forall k :: k in Fresh(keys, seen) <==> k in keys && k !in seen
  {
    if keys != [] {
      FreshMembers(keys[..|keys| - 1], seen);
      assert keys == keys[..|keys| - 1] + [keys[|keys| - 1]];
    }
  }

  lemma LastKey(base: seq<Entry>, overlay: seq<Entry>)
    requires overlay != []
    ensures var e, done := overlay[|overlay| - 1], Merge(base, overlay[..|overlay| - 1]);
            Keys(Merge(base, overlay)) == Keys(done) + if e.key in Keys(done) then [] else [e.key]
  {
    var e, done := overlay[|overlay| - 1], Merge(base, overlay[..|overlay| - 1]);
    HasKey(done, e.key);
  }

  // The base's keys keep their order and the overlay's new keys follow in
  // theirs; each key's value depends on its two values alone.
  lemma {:induction false} MergeKeys(base: seq<Entry>, overlay: seq<Entry>)
    requires DistinctKeys(overlay)
    ensures Keys(Merge(base, overlay)) == Keys(base) + Fresh(Keys(overlay), Keys(base))
  {
    if overlay == [] {
      assert Keys(overlay) == [];
    } else {
      var n := |overlay| - 1;
      var e, done := overlay[n], Merge(base, overlay[..n]);
      MergeKeys(base, overlay[..n]);
      assert Keys(overlay)[..n] == Keys(overlay[..n]);
      FreshMembers(Keys(overlay[..n]), Keys(base));
      assert e.key !in Keys(overlay[..n]);
      LastKey(base, overlay);
    }
  }

  lemma GetAppended(es: seq<Entry>, e: Entry, key: string)
    ensures Get(es + [e], key) == if key == e.key then Some(e.value) else Get(es, key)
  {
    assert (es + [e])[..|es|] == es;
  }

  lemma GetReplaced(es: seq<Entry>, i: nat, v: Node, key: string)
    requires i < |es| && LastIndex(es, es[i].key) == i
    ensures Get(es[i := es[i].(value := v)], key) == if key == es[i].key then Some(v) else Get(es, key)
  {
    SameKeysSameIndex(es, es[i := es[i].(value := v)], key);
  }

  // The values an overlay gives to a key, in order.
  function Values(es: seq<Entry>, key: string): seq<Node> {
    if es == [] then []
    else
      var e := es[|es| - 1];
      Values(es[..|es| - 1], key) + if e.key == key then [e.value] else []
  }

  function OverAll(x: Option<Node>, ys: seq<Node>): Option<Node> {
    if ys == [] then x else Over(OverAll(x, ys[..|ys| - 1]), Some(ys[|ys| - 1]))
  }

  // Whatever keys repeat, a key's value is the base's last one with the overlay's
  // values for it laid on in turn.
  lemma {:induction false} MergeGetAll(base: seq<Entry>, overlay: seq<Entry>, key: string)
    ensures Get(Merge(base, overlay), key) == OverAll(Get(base, key), Values(overlay, key))
  {
    if overlay != [] {
      var n := |overlay| - 1;
      var e, done := overlay[n], Merge(base, overlay[..n]);
      MergeGetAll(base, overlay[..n], key);
      var ys := Values(overlay[..n], key);
      assert (ys + [e.value])[..|ys|] == ys && ys + [] == ys;
      var i := LastIndex(done, e.key);
      if i < 0 {
        GetAppended(done, e, key);
      } else {
        var v := if done[i].value.Mapping? && e.value.Mapping? then Mapping(Merge(done[i].value.entries, e.value.entries)) else e.value;
        GetReplaced(done, i, v, key);
      }
    }
  }

  predicate AtMostOnce(es: seq<Entry>, key: string) {
    forall i, j :: 0 <= i < j < |es| ==> es[i].key != key || es[j].key != key
  }

  lemma {:induction false} ValuesOnce(es: seq<Entry>, key: string)
    requires AtMostOnce(es, key)
    ensures Values(es, key) == if Get(es, key).None? then [] else [Get(es, key).value]
  {
    if es != [] {
      var n := |es| - 1;
      ValuesOnce(es[..n], key);
      assert es == es[..n] + [es[n]];
      GetAppended(es[..n], es[n], key);
      assert es[n].key == key ==> Get(es[..n], key) == None;
    }
  }

  lemma MergeGetOnce(base: seq<Entry>, overlay: seq<Entry>, key: string)
    requires AtMostOnce(overlay, key)
    ensures Get(Merge(base, overlay), key) == Over(Get(base, key), Get(overlay, key))
    ensures OverAll(Get(base, key), Values(overlay, key)) == Over(Get(base, key), Get(overlay, key))
  {
    MergeGetAll(base, overlay, key);
    ValuesOnce(overlay, key);
    if Get(overlay, key).Some? {
      assert [Get(overlay, key).value][..0] == [];
    }
  }

  lemma MergeGet(base: seq<Entry>, overlay: seq<Entry>, key: string)
    requires DistinctKeys(overlay)
    ensures Get(Merge(base, overlay), key) == Over(Get(base, key), Get(overlay, key))
  {
    MergeGetOnce(base, overlay, key);
  }

  /******* Laws *******/

  lemma FreshOfNothing(keys: seq<string>, seen: seq<string>)
    requires forall k <- keys :: k in seen
    ensures Fresh(keys, seen) == []
  {
    FreshMembers(keys, seen);
    assert Fresh(keys, seen) != [] ==> Fresh(keys, seen)[0] in Fresh(keys, seen);
  }

  // Merging a tree onto itself changes nothing; nor does an empty overlay.
  lemma {:induction false} SelfMerge(es: seq<Entry>)
    requires NoDuplicates(es)
    ensures Merge(es, es) == es && Merge(es, []) == es
    decreases es
  {
    MergeKeys(es, es);
    FreshOfNothing(Keys(es), Keys(es));
    forall k | k in Keys(es)
      ensures Get(Merge(es, es), k) == Get(es, k)
    {
      MergeGet(es, es, k);
      HasKey(es, k);
      var i := LastIndex(es, k);
      if es[i].value.Mapping? {
        SelfMerge(es[i].value.entries);
      }
    }
    Extensional(es, Merge(es, es));
  }

  // The node at the end of a path of keys.
  function At(es: seq<Entry>, path: seq<string>): Option<Node>
    requires path != []
    decreases |path|
  {
    var node := Get(es, path[0]);
    if |path| == 1 || node.None? then node
    else if node.value.Mapping? then At(node.value.entries, path[1..])
    else None
  }

  lemma GetKeepsNoDuplicates(es: seq<Entry>, key: string)
    requires NoDuplicates(es)
    ensures Get(es, key).Some? && Get(es, key).value.Mapping? ==> NoDuplicates(Get(es, key).value.entries)
  {
  }

  // The overlay wins at every path where it has a leaf.
  lemma {:induction false} OverlayWinsAtLeaves(base: seq<Entry>, overlay: seq<Entry>, path: seq<string>)
    requires NoDuplicates(overlay) && path != []
    requires At(overlay, path).Some? && At(overlay, path).value.Leaf?
    ensures At(Merge(base, overlay), path) == At(overlay, path)
    decreases |path|
  {
    MergeGet(base, overlay, path[0]);
    GetKeepsNoDuplicates(overlay, path[0]);
    var x, y := Get(base, path[0]), Get(overlay, path[0]);
    if |path| > 1 && x.Some? && x.value.Mapping? {
      OverlayWinsAtLeaves(x.value.entries, y.value.entries, path[1..]);
    }
  }

  // The overlay says nothing at the path: it has no node there, and nothing but
  // mappings before.
  predicate Silent(overlay: seq<Entry>, path: seq<string>)
    requires path != []
    decreases |path|
  {
    var node := Get(overlay, path[0]);
    node.None? || (|path| > 1 && node.value.Mapping? && Silent(node.value.entries, path[1..]))
  }

  // Where the overlay is silent, the base shows through wherever it has a node.
  lemma {:induction false} BaseShowsThrough(base: seq<Entry>, overlay: seq<Entry>, path: seq<string>)
    requires NoDuplicates(overlay) && path != [] && Silent(overlay, path) && At(base, path).Some?
    ensures At(Merge(base, overlay), path) == At(base, path)
    decreases |path|
  {
    MergeGet(base, overlay, path[0]);
    GetKeepsNoDuplicates(overlay, path[0]);
    var x, y := Get(base, path[0]), Get(overlay, path[0]);
    if |path| > 1 && y.Some? {
      BaseShowsThrough(x.value.entries, y.value.entries, path[1..]);
    }
  }

  lemma DistinctFromKeys(es: seq<Entry>)
    requires forall i, j :: 0 <= i < j < |es| ==> Keys(es)[i] != Keys(es)[j]
    ensures DistinctKeys(es)
  {
    forall i, j | 0 <= i < j < |es|
      ensures es[i].key != es[j].key
    {
      assert Keys(es)[i] != Keys(es)[j];
    }
  }

  lemma {:induction false} FreshDistinct(keys: seq<string>, seen: seq<string>)
    requires forall i, j :: 0 <= i < j < |keys| ==> keys[i] != keys[j]
    ensures forall i, j :: 0 <= i < j < |Fresh(keys, seen)| ==> Fresh(keys, seen)[i] != Fresh(keys, seen)[j]
  {
    if keys != [] {
      var n := |keys| - 1;
      FreshDistinct(keys[..n], seen);
      FreshMembers(keys[..n], seen);
      var r := Fresh(keys[..n], seen);
      forall i | 0 <= i < |r|
        ensures r[i] != keys[n]
      {
        assert r[i] in r;
      }
    }
  }

  lemma MergeDistinct(base: seq<Entry>, overlay: seq<Entry>)
    requires DistinctKeys(base) && DistinctKeys(overlay)
    ensures DistinctKeys(Merge(base, overlay))
  {
    MergeKeys(base, overlay);
    FreshDistinct(Keys(overlay), Keys(base));
    FreshMembers(Keys(overlay), Keys(base));
    var f := Fresh(Keys(overlay), Keys(base));
    forall j | 0 <= j < |f|
      ensures f[j] !in Keys(base)
    {
      assert f[j] in f;
    }
    DistinctFromKeys(Merge(base, overlay));
  }

  /******* Associativity *******/

  // Merging a under c leaves c: c lists a's keys first and in a's order, and so
  // on inside every key that is a mapping in both.
  predicate Absorbed(a: seq<Entry>, c: seq<Entry>)
    decreases a
  {
    && Keys(a) <= Keys(c)
    && forall i :: 0 <= i < |a| && a[i].value.Mapping? && c[i].value.Mapping? ==> Absorbed(a[i].value.entries, c[i].value.entries)
  }

  // The layers agree: no key that is a mapping, then something else, then a
  // mapping again, unless the first mapping is absorbed by the last.
  predicate Agree(a: seq<Entry>, b: seq<Entry>, c: seq<Entry>)
    decreases a
  {
    forall i :: 0 <= i < |a| ==> AgreeAt(a[i].value, Get(b, a[i].key), Get(c, a[i].key))
  }

  predicate AgreeAt(x: Node, y: Option<Node>, z: Option<Node>)
    decreases x
  {
    x.Mapping? && y.Some? && z.Some? && z.value.Mapping? ==>
      if y.value.Mapping? then Agree(x.entries, y.value.entries, z.value.entries)
      else Absorbed(x.entries, z.value.entries)
  }

  lemma {:induction false} FreshAppend(x: seq<string>, y: seq<string>, seen: seq<string>)
    ensures Fresh(x + y, seen) == Fresh(x, seen) + Fresh(y, seen)
    decreases |y|
  {
    if y == [] {
      assert x + y == x;
    } else {
      var n := |y| - 1;
      assert (x + y)[..|x| + n] == x + y[..n] && (x + y)[|x| + n] == y[n];
      FreshAppend(x, y[..n], seen);
    }
  }

  // Dropping the keys in s, then those in t, drops those in u, the two together.
  lemma {:induction false} FreshTwice(x: seq<string>, s: seq<string>, t: seq<string>, u: seq<string>)
    requires forall k :: k in u <==> k in s || k in t
    ensures Fresh(Fresh(x, s), t) == Fresh(x, u)
  {
    if x != [] {
      var n := |x| - 1;
      FreshTwice(x[..n], s, t, u);
      FreshAppend(Fresh(x[..n], s), if x[n] in s then [] else [x[n]], t);
      FreshOne(x[n], t);
    }
  }

  lemma FreshOne(k: string, seen: seq<string>)
    ensures Fresh([k], seen) == if k in seen then [] else [k]
  {
    assert [k][..0] == [];
  }

  lemma {:induction false} FreshAll(keys: seq<string>, seen: seq<string>)
    requires forall k <- keys :: k !in seen
    ensures Fresh(keys, seen) == keys
  {
    if keys != [] {
      FreshAll(keys[..|keys| - 1], seen);
      assert keys == keys[..|keys| - 1] + [keys[|keys| - 1]];
    }
  }

  lemma FreshOfExtension(start: seq<string>, tail: seq<string>)
    requires forall k <- tail :: k !in start
    ensures Fresh(start + tail, start) == tail
  {
    FreshAppend(start, tail, start);
    FreshOfNothing(start, start);
    FreshAll(tail, start);
  }

  lemma PrefixKeys(a: seq<Entry>, c: seq<Entry>)
    requires DistinctKeys(c) && Keys(a) <= Keys(c)
    ensures Keys(Merge(a, c)) == Keys(c)
  {
    var tail := Keys(c)[|a|..];
    assert Keys(c) == Keys(a) + tail;
    forall k | k in tail
      ensures k !in Keys(a)
    {
      var j :| 0 <= j < |tail| && tail[j] == k;
      forall i | 0 <= i < |a|
        ensures Keys(a)[i] != k
      {
        assert Keys(a)[i] == Keys(c)[i] && k == Keys(c)[|a| + j];
      }
    }
    MergeKeys(a, c);
    FreshOfExtension(Keys(a), tail);
  }

  // Merging a under c leaves c exactly when c absorbs a.
  lemma {:induction false} AbsorbedExactly(a: seq<Entry>, c: seq<Entry>)
    requires NoDuplicates(a) && NoDuplicates(c)
    ensures Merge(a, c) == c <==> Absorbed(a, c)
    decreases a
  {
    MergeKeys(a, c);
    if Keys(a) <= Keys(c) {
      PrefixKeys(a, c);
      forall i | 0 <= i < |a|
        ensures Get(a, a[i].key) == Some(a[i].value) && Get(c, a[i].key) == Some(c[i].value)
        ensures Get(Merge(a, c), a[i].key) == Over(Some(a[i].value), Some(c[i].value))
        ensures a[i].value.Mapping? && c[i].value.Mapping? ==>
                  (Merge(a[i].value.entries, c[i].value.entries) == c[i].value.entries
                   <==> Absorbed(a[i].value.entries, c[i].value.entries))
      {
        assert Keys(a)[i] == Keys(c)[i];
        GetOfDistinct(a, i);
        GetOfDistinct(c, i);
        MergeGet(a, c, a[i].key);
        if a[i].value.Mapping? && c[i].value.Mapping? {
          AbsorbedExactly(a[i].value.entries, c[i].value.entries);
        }
      }
      if Absorbed(a, c) {
        forall k | k in Keys(c)
          ensures Get(Merge(a, c), k) == Get(c, k)
        {
          MergeGet(a, c, k);
          HasKey(a, k);
          HasKey(c, k);
          if k in Keys(a) {
            var i := LastIndex(a, k);
            assert Get(Merge(a, c), k) == Over(Some(a[i].value), Some(c[i].value));
          }
        }
        Extensional(c, Merge(a, c));
      }
    }
  }

  lemma FreshAssociates(x: seq<string>, y: seq<string>, z: seq<string>)
    ensures x + Fresh(y, x) + Fresh(z, x + Fresh(y, x)) == x + Fresh(y + Fresh(z, y), x)
  {
    FreshAppend(y, Fresh(z, y), x);
    FreshMembers(y, x);
    FreshTwice(z, y, x, x + Fresh(y, x));
  }

  lemma KeysAssociate(a: seq<Entry>, b: seq<Entry>, c: seq<Entry>)
    requires DistinctKeys(a) && DistinctKeys(b) && DistinctKeys(c)
    ensures Keys(Merge(Merge(a, b), c)) == Keys(Merge(a, Merge(b, c)))
  {
    MergeDistinct(b, c);
    MergeKeys(a, b);
    MergeKeys(Merge(a, b), c);
    MergeKeys(b, c);
    MergeKeys(a, Merge(b, c));
    FreshAssociates(Keys(a), Keys(b), Keys(c));
  }

  lemma {:induction false} OverAssociatesExactly(x: Node, y: Option<Node>, z: Option<Node>)
    requires forall n: Node :: (n == x || Some(n) == y || Some(n) == z) && n.Mapping? ==> NoDuplicates(n.entries)
    ensures Over(Over(Some(x), y), z) == Over(Some(x), Over(y, z)) <==> AgreeAt(x, y, z)
    decreases x
  {
    if x.Mapping? && y.Some? && z.Some? && z.value.Mapping? {
      if y.value.Mapping? {
        AssociativeExactly(x.entries, y.value.entries, z.value.entries);
      } else {
        AbsorbedExactly(x.entries, z.value.entries);
      }
    }
  }

  // Merging is associative exactly when the layers agree; in particular whenever
  // all three agree at every path on what is a mapping.
  lemma {:induction false} AssociativeExactly(a: seq<Entry>, b: seq<Entry>, c: seq<Entry>)
    requires NoDuplicates(a) && NoDuplicates(b) && NoDuplicates(c)
    ensures Merge(Merge(a, b), c) == Merge(a, Merge(b, c)) <==> Agree(a, b, c)
    decreases a
  {
    var left, right := Merge(Merge(a, b), c), Merge(a, Merge(b, c));
    KeysAssociate(a, b, c);
    forall k
      ensures Get(left, k) == Over(Over(Get(a, k), Get(b, k)), Get(c, k))
      ensures Get(right, k) == Over(Get(a, k), Over(Get(b, k), Get(c, k)))
    {
      MergeGet(a, b, k);
      MergeGet(Merge(a, b), c, k);
      MergeGet(b, c, k);
      MergeDistinct(b, c);
      MergeGet(a, Merge(b, c), k);
    }
    forall i | 0 <= i < |a|
      ensures Get(a, a[i].key) == Some(a[i].value)
      ensures Get(left, a[i].key) == Get(right, a[i].key) <==> AgreeAt(a[i].value, Get(b, a[i].key), Get(c, a[i].key))
    {
      GetOfDistinct(a, i);
      GetKeepsNoDuplicates(b, a[i].key);
      GetKeepsNoDuplicates(c, a[i].key);
      OverAssociatesExactly(a[i].value, Get(b, a[i].key), Get(c, a[i].key));
    }
    if Agree(a, b, c) {
      forall k | k in Keys(left)
        ensures Get(left, k) == Get(right, k)
      {
        var i := LastIndex(a, k);
        assert i >= 0 ==> AgreeAt(a[i].value, Get(b, a[i].key), Get(c, a[i].key));
      }
      MergeDistinct(a, b);
      MergeDistinct(Merge(a, b), c);
      Extensional(left, right);
    } else {
      var i :| 0 <= i < |a| && !AgreeAt(a[i].value, Get(b, a[i].key), Get(c, a[i].key));
      assert Get(left, a[i].key) != Get(right, a[i].key);
    }
  }

  /******* Sections of a merged configuration *******/

  lemma {:induction false} FirstIsOnly(es: seq<Entry>, key: string)
    requires AtMostOnce(es, key)
    ensures Section(es, key) == Get(es, key)
  {
    if es != [] {
      var rest := es[1..];
      FirstIsOnly(rest, key);
      var i := LastIndex(es, key);
      assert forall j :: 0 <= j < |rest| ==> rest[j] == es[j + 1];
      if i > 0 {
        assert rest[i - 1].key == key;
        assert LastIndex(rest, key) == i - 1;
      }
    }
  }

  lemma {:induction false} MergeAtMostOnce(base: seq<Entry>, overlay: seq<Entry>, key: string)
    requires AtMostOnce(base, key)
    ensures AtMostOnce(Merge(base, overlay), key)
  {
    if overlay != [] {
      MergeAtMostOnce(base, overlay[..|overlay| - 1], key);
    }
  }

  // A section of the merged configuration is the base's section with the
  // overlay's values for it laid on in turn, if the base has it once at most.
  lemma SectionOfMerge(base: seq<Entry>, overlay: seq<Entry>, name: string)
    requires AtMostOnce(base, name)
    ensures Section(Merge(base, overlay), name) == OverAll(Section(base, name), Values(overlay, name))
  {
    MergeGetAll(base, overlay, name);
    MergeAtMostOnce(base, overlay, name);
    FirstIsOnly(base, name);
    FirstIsOnly(Merge(base, overlay), name);
  }

  lemma {:induction false} SectionIsFirst(es: seq<Entry>, i: nat, name: string)
    requires i < |es| && es[i].key == name
    ensures Section(es, name) == Section(es[..i + 1], name) && Section(es, name).Some?
  {
    if es[0].key != name {
      assert es[..i + 1][1..] == es[1..][..i];
      SectionIsFirst(es[1..], i - 1, name);
    }
  }

  // Merging changes the last of two entries with one key, and reading a section
  // finds the first.
  lemma DuplicateHidesOverlay(base: seq<Entry>, name: string, v: Node)
    requires !AtMostOnce(base, name)
    ensures Section(Merge(base, [Entry(name, v)]), name) == Section(base, name) && Section(base, name).Some?
  {
    var overlay := [Entry(name, v)];
    var i, j :| 0 <= i < j < |base| && base[i].key == name && base[j].key == name;
    assert overlay[..0] == [] && Merge(base, []) == base;
    var last := LastIndex(base, name);
    var merged := Merge(base, overlay);
    assert merged[..i + 1] == base[..i + 1];
    SectionIsFirst(base, i, name);
    SectionIsFirst(merged, i, name);
  }

  // Reading a merged section gives the overlay's laid on the base's, for every
  // overlay that has it once at most, exactly when the base has it once at most.
  lemma SectionOfMergeExactly(base: seq<Entry>, name: string)
    ensures (forall overlay :: AtMostOnce(overlay, name) ==>
               Section(Merge(base, overlay), name) == Over(Section(base, name), Section(overlay, name)))
       <==> AtMostOnce(base, name)
  {
    if AtMostOnce(base, name) {
      forall overlay | AtMostOnce(overlay, name)
        ensures Section(Merge(base, overlay), name) == Over(Section(base, name), Section(overlay, name))
      {
        SectionOfMerge(base, overlay, name);
        FirstIsOnly(base, name);
        FirstIsOnly(overlay, name);
        MergeGetOnce(base, overlay, name);
      }
    } else {
      var v := if Section(base, name) == Some(Leaf("")) then Leaf("x") else Leaf("");
      DuplicateHidesOverlay(base, name, v);
      var overlay := [Entry(name, v)];
      assert AtMostOnce(overlay, name) && Section(overlay, name) == Some(v);
      assert Section(Merge(base, overlay), name) != Over(Section(base, name), Section(overlay, name));
    }
  }

  // What is read from the two files together is the project's section laid on
  // the user's, whichever of them there are.
  lemma SectionOfLoaded(user: Option<seq<Entry>>, project: Option<seq<Entry>>, name: string)
    requires user.Some? ==> AtMostOnce(user.value, name)
    requires project.Some? ==> AtMostOnce(project.value, name)
    ensures SectionOf(Loaded(user, project), name) == Over(SectionOf(user, name), SectionOf(project, name))
  {
    if user.Some? && project.Some? {
      SectionOfMergeExactly(user.value, name);
    }
  }
}
