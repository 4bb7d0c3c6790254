// Renaming every object key of a JSON tree, and the schema references with them.
module JsonKeys {
  import opened Text
  import opened KeyStyle

  datatype JSON =
    | Null
    | Bool(b: bool)
    | Number(n: real)
    | String(s: string)
    | Array(items: seq<JSON>)
    | Object(fields: map<string, JSON>)

  const SCHEMAS := "#/components/schemas/"

  function Naming(style: Style): string -> string {
    (key: string) => ToCase(key, style)
  }

  // A reference to a schema is renamed with it; any other text is left alone.
  function Reference(s: string, name: string -> string): string {
    if HasPrefix(s, SCHEMAS) && |s| > |SCHEMAS| then SCHEMAS + name(s[|SCHEMAS|..]) else s
  }

  // The possible results: when keys of one object collide, whichever is visited
  // last keeps its value.
  ghost predicate Converts(v: JSON, name: string -> string, out: JSON) {
    match v
    case Object(m) =>
      && out.Object?
      && (forall k :: k in m ==> name(k) in out.fields)
      && (forall c :: c in out.fields ==> exists k :: k in m && name(k) == c && Converts(m[k], name, out.fields[c]))
    case Array(items) =>
      out.Array? && |out.items| == |items| && forall i :: 0 <= i < |items| ==> Converts(items[i], name, out.items[i])
    case String(s) => out == String(Reference(s, name))
    case _ => out == v
  }

  method ConvertKeys(v: JSON, style: Style) returns (out: JSON)
    ensures Converts(v, Naming(style), out)
    decreases v
  {
    ghost var naming := Naming(style);
    match v {
      case Object(m) =>
        var fields: map<string, JSON> := map[];
        var left := m.Keys;
        while left != {}
          invariant left <= m.Keys
          invariant forall k :: k in m && k !in left ==> naming(k) in fields
          invariant forall c :: c in fields ==> exists k :: k in m && naming(k) == c && Converts(m[k], naming, fields[c])
          decreases |left|
        {
          var k :| k in left;
          var name := ConvertCase(k, style);
          var value := ConvertKeys(m[k], style);
          fields, left := fields[name := value], left - {k};
        }
        out := Object(fields);
      case Array(a) =>
        var items: seq<JSON> := [];
        for i := 0 to |a|
          invariant |items| == i && forall j :: 0 <= j < i ==> Converts(a[j], naming, items[j])
        {
          var item := ConvertKeys(a[i], style);
          items := items + [item];
        }
        out := Array(items);
      case String(s) =>
        if HasPrefix(s, SCHEMAS) && |s| > |SCHEMAS| {
          var name := ConvertCase(s[|SCHEMAS|..], style);
          out := String(SCHEMAS + name);
        } else {
          out := v;
        }
      case _ => out := v;
    }
  }

  /******* Laws *******/

  // No two siblings get the same name, anywhere in the tree.
  predicate NoCollision(v: JSON, name: string -> string) {
    match v
    case Object(m) => Separate(m.Keys, name) && forall k <- m :: NoCollision(m[k], name)
    case Array(items) => forall i :: 0 <= i < |items| ==> NoCollision(items[i], name)
    case _ => true
  }

  predicate Separate(keys: set<string>, name: string -> string) {
    forall a, b :: a in keys && b in keys && name(a) == name(b) ==> a == b
  }

  // Without collisions there is one result, whatever order keys are visited in.
  lemma {:induction false} OneResult(v: JSON, name: string -> string, a: JSON, b: JSON)
    requires NoCollision(v, name) && Converts(v, name, a) && Converts(v, name, b)
    ensures a == b
    decreases v
  {
    match v {
      case Object(m) =>
        assert a.fields.Keys == b.fields.Keys;
        forall c | c in a.fields
          ensures a.fields[c] == b.fields[c]
        {
          var k :| k in m && name(k) == c && Converts(m[k], name, a.fields[c]);
          var l :| l in m && name(l) == c && Converts(m[l], name, b.fields[c]);
          assert k == l;
          OneResult(m[k], name, a.fields[c], b.fields[c]);
        }
      case Array(items) =>
        forall i | 0 <= i < |items|
          ensures a.items[i] == b.items[i]
        {
          OneResult(items[i], name, a.items[i], b.items[i]);
        }
      case _ =>
    }
  }

  // Naming by first, then by second, is naming by direct; and first empties no name.
  ghost predicate Composes(first: string -> string, second: string -> string, direct: string -> string) {
    forall k :: second(first(k)) == direct(k) && (k != "" ==> first(k) != "")
  }

  lemma ReferenceComposes(s: string, first: string -> string, second: string -> string, direct: string -> string)
    requires Composes(first, second, direct)
    ensures Reference(Reference(s, first), second) == Reference(s, direct)
  {
    if HasPrefix(s, SCHEMAS) && |s| > |SCHEMAS| {
      var name := s[|SCHEMAS|..];
      assert (SCHEMAS + first(name))[|SCHEMAS|..] == first(name);
      assert second(first(name)) == direct(name);
    }
  }

  lemma {:induction false} ConversionsCompose(v: JSON, mid: JSON, out: JSON,
                                              first: string -> string, second: string -> string, direct: string -> string)
    requires Composes(first, second, direct) && Converts(v, first, mid) && Converts(mid, second, out)
    ensures Converts(v, direct, out)
    decreases v
  {
    match v {
      case Object(m) =>
        forall k | k in m
          ensures direct(k) in out.fields
        {
          assert second(first(k)) == direct(k);
        }
        forall c | c in out.fields
          ensures exists k :: k in m && direct(k) == c && Converts(m[k], direct, out.fields[c])
        {
          var s :| s in mid.fields && second(s) == c && Converts(mid.fields[s], second, out.fields[c]);
          var k :| k in m && first(k) == s && Converts(m[k], first, mid.fields[s]);
          assert second(first(k)) == direct(k);
          ConversionsCompose(m[k], mid.fields[s], out.fields[c], first, second, direct);
        }
      case Array(items) =>
        forall i | 0 <= i < |items|
          ensures Converts(items[i], direct, out.items[i])
        {
          ConversionsCompose(items[i], mid.items[i], out.items[i], first, second, direct);
        }
      case String(s) =>
        ReferenceComposes(s, first, second, direct);
      case _ =>
    }
  }

  lemma SnakeNotEmpty(key: string)
    requires key != ""
    ensures ToCase(key, Snake) != ""
  {
    ScannedWordsAreSolid('_', key, "");
    var words := Words(key);
    assert words[0] in words && words[0] != "";
    assert Lowered(words)[0] != "";
  }

  // Converting to snake case first gives a result of converting directly, with
  // or without collisions.
  lemma ThroughSnake(v: JSON, style: Style, mid: JSON, out: JSON)
    requires Converts(v, Naming(Snake), mid) && Converts(mid, Naming(style), out)
    ensures Converts(v, Naming(style), out)
  {
    forall k
      ensures Naming(style)(Naming(Snake)(k)) == Naming(style)(k) && (k != "" ==> Naming(Snake)(k) != "")
    {
      SnakeCanonical(k, style);
      if k != "" {
        SnakeNotEmpty(k);
      }
    }
    ConversionsCompose(v, mid, out, Naming(Snake), Naming(style), Naming(style));
  }

  // Without collisions the two ways agree.
  lemma ThroughSnakeEqualsDirect(v: JSON, style: Style, mid: JSON, out: JSON, direct: JSON)
    requires NoCollision(v, Naming(style))
    requires Converts(v, Naming(Snake), mid) && Converts(mid, Naming(style), out) && Converts(v, Naming(style), direct)
    ensures out == direct
  {
    ThroughSnake(v, style, mid, out);
    OneResult(v, Naming(style), out, direct);
  }

  function Names(keys: set<string>, name: string -> string): set<string> {
    set k | k in keys :: name(k)
  }

  lemma {:induction false} ImageSize(keys: set<string>, name: string -> string)
    ensures |Names(keys, name)| <= |keys|
    ensures |Names(keys, name)| == |keys| <==> Separate(keys, name)
    decreases |keys|
  {
    if k :| k in keys {
      var rest := keys - {k};
      ImageSize(rest, name);
      assert Names(keys, name) == Names(rest, name) + {name(k)};
      assert Separate(keys, name) <==> Separate(rest, name) && name(k) !in Names(rest, name);
    } else {
      assert keys == {} && Names(keys, name) == {};
    }
  }

  // An object keeps its size exactly when none of its keys collide, and can
  // never grow.
  lemma SizeKeptExactly(m: map<string, JSON>, name: string -> string, out: JSON)
    requires Converts(Object(m), name, out)
    ensures |out.fields| <= |m|
    ensures |out.fields| == |m| <==> Separate(m.Keys, name)
  {
    ImageSize(m.Keys, name);
    assert out.fields.Keys == Names(m.Keys, name);
    assert |out.fields| == |out.fields.Keys| && |m| == |m.Keys|;
  }

  /******* Paths *******/

  datatype Step = Key(k: string) | Index(i: nat)

  // The node at the end of a path, if there is one.
  function At(v: JSON, path: seq<Step>): Option<JSON> {
    if path == [] then Some(v)
    else if path[0].Key? && v.Object? && path[0].k in v.fields then At(v.fields[path[0].k], path[1..])
    else if path[0].Index? && v.Array? && path[0].i < |v.items| then At(v.items[path[0].i], path[1..])
    else None
  }

  function Renamed(path: seq<Step>, name: string -> string): seq<Step> {
    if path == [] then []
    else [if path[0].Key? then Key(name(path[0].k)) else path[0]] + Renamed(path[1..], name)
  }

  // Every node is found again under the renamed keys of its path: texts with their
  // references renamed, objects and arrays of the same size, the rest unchanged.
  lemma {:induction false} PathsFollow(v: JSON, path: seq<Step>, name: string -> string, out: JSON)
    requires NoCollision(v, name) && Converts(v, name, out) && At(v, path).Some?
    ensures At(out, Renamed(path, name)).Some?
    ensures var a, b := At(v, path).value, At(out, Renamed(path, name)).value;
            && (a.Object? ==> b.Object? && |b.fields| == |a.fields|)
            && (a.Array? ==> b.Array? && |b.items| == |a.items|)
            && (a.String? ==> b == String(Reference(a.s, name)))
            && (a.Null? || a.Bool? || a.Number? ==> b == a)
    decreases |path|
  {
    if path == [] {
      if v.Object? {
        SizeKeptExactly(v.fields, name, out);
      }
    } else {
      var rest := Renamed(path[1..], name);
      assert Renamed(path, name)[1..] == rest;
      if path[0].Key? {
        var k := path[0].k;
        var l :| l in v.fields && name(l) == name(k) && Converts(v.fields[l], name, out.fields[name(k)]);
        assert l == k;
        PathsFollow(v.fields[k], path[1..], name, out.fields[name(k)]);
      } else {
        PathsFollow(v.items[path[0].i], path[1..], name, out.items[path[0].i]);
      }
    }
  }

  /******* Schema references *******/

  // A reference to a schema that stands in a table of schemas still names it after
  // conversion, and the table has an entry of that name.
  lemma ReferencesFollow(schemas: map<string, JSON>, key: string, style: Style, table: JSON, ref: JSON)
    requires key in schemas && key != ""
    requires Converts(Object(schemas), Naming(style), table)
    requires Converts(String("#/components/schemas/" + key), Naming(style), ref)
    ensures ref == String("#/components/schemas/" + ToCase(key, style)) && ToCase(key, style) in table.fields
  {
    assert ("#/components/schemas/" + key)[|SCHEMAS|..] == key;
    assert Naming(style)(key) in table.fields;
  }

  // Any other text stays as it is.
  lemma OtherTextStays(s: string, style: Style, out: JSON)
    requires Converts(String(s), Naming(style), out)
    requires !("#/components/schemas/" <= s) || s == "#/components/schemas/"
    ensures out == String(s)
  {
  }
}
