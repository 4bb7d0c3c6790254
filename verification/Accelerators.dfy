// Accelerator requests: a count per name, printed as "A100:4,T4" and read back.
module Accelerators {
  import opened Text
  import opened StableSort
  import opened Bags

  type Counts = map<string, int>

  /******* Printing *******/

  // Byte order, as sort.Strings uses.
  predicate Less(a: string, b: string) {
    if b == "" then false
    else if a == "" then true
    else a[0] < b[0] || (a[0] == b[0] && Less(a[1..], b[1..]))
  }

  function Part(name: string, count: int): string {
    if count == 1 then name else name + ":" + ShowInt(count)
  }

  function Parts(a: Counts, names: seq<string>): (r: seq<string>)
    requires forall k <- names :: k in a
    ensures |r| == |names| && forall i :: 0 <= i < |r| ==> r[i] == Part(names[i], a[names[i]])
  {
    seq(|names|, i requires 0 <= i < |names| => Part(names[i], a[names[i]]))
  }

  predicate Ascending(names: seq<string>) {
    forall i, j :: 0 <= i < j < |names| ==> Less(names[i], names[j])
  }

  // The names of a in byte order.
  predicate Names(a: Counts, names: seq<string>) {
    Enumerates(names, a.Keys) && Ascending(names)
  }

  method Show(a: Counts) returns (s: string, names: seq<string>)
    ensures Names(a, names) && s == Join(Parts(a, names), ",")
  {
    if |a| == 0 {
      assert a.Keys == {};
      return "", [];
    }
    names := SortedKeys(a);
    var parts := PartsOf(a, names);
    s := Join(parts, ",");
  }

  method SortedKeys(a: Counts) returns (names: seq<string>)
    ensures Names(a, names)
  {
    var order := KeysOf(a);
    var slice := new string[|order|](i requires 0 <= i < |order| => order[i]);
    assert slice[..] == order;
    SliceStable(slice, Less);
    SortedNames(a, order);
    return slice[..];
  }

  method PartsOf(a: Counts, names: seq<string>) returns (parts: seq<string>)
    requires forall k <- names :: k in a
    ensures parts == Parts(a, names)
  {
    parts := [];
    for i := 0 to |names|
      invariant parts == Parts(a, names)[..i]
    {
      if a[names[i]] == 1 {
        parts := parts + [names[i]];
      } else {
        parts := parts + [names[i] + ":" + ShowInt(a[names[i]])];
      }
    }
  }

  lemma {:induction false} LessTotal(a: string, b: string)
    ensures a == b || Less(a, b) || Less(b, a)
    ensures !(Less(a, b) && Less(b, a)) && !Less(a, a)
  {
    if a != "" && b != "" {
      LessTotal(a[1..], b[1..]);
      assert a == [a[0]] + a[1..] && b == [b[0]] + b[1..];
    }
    if a != "" {
      LessTotal(a[1..], a[1..]);
    }
  }

  lemma {:induction false} LessTransitive(a: string, b: string, c: string)
    requires Less(a, b) && Less(b, c)
    ensures Less(a, c)
  {
    if a != "" && a[0] == b[0] && b[0] == c[0] {
      LessTransitive(a[1..], b[1..], c[1..]);
    }
  }

  // Byte order: the first difference decides, and a prefix comes first.
  lemma {:induction false} LessMeaning(a: string, b: string, k: nat)
    requires k <= |a| && k <= |b| && a[..k] == b[..k] && (k < |a| && k < |b| ==> a[k] != b[k])
    requires k == |a| || k == |b| || a[k] != b[k]
    ensures Less(a, b) <==> k < |b| && (k == |a| || a[k] < b[k])
    decreases k
  {
    if k > 0 {
      assert a[0] == a[..k][0] == b[..k][0] == b[0];
      assert a[1..][..k - 1] == a[..k][1..] == b[..k][1..] == b[1..][..k - 1];
      LessMeaning(a[1..], b[1..], k - 1);
    }
  }

  lemma LessIsStrictWeak(s: seq<string>)
    ensures StrictWeakOn(Less, s)
  {
    forall x, y, z
      ensures !Less(x, x)
      ensures Less(x, y) && Less(y, z) ==> Less(x, z)
      ensures !Less(x, y) && !Less(y, z) ==> !Less(x, z)
    {
      LessTotal(x, y);
      LessTotal(y, z);
      LessTotal(x, z);
      if Less(x, y) && Less(y, z) {
        LessTransitive(x, y, z);
      }
      if Less(z, y) && Less(y, x) {
        LessTransitive(z, y, x);
      }
    }
  }

  lemma SortedNames(a: Counts, order: seq<string>)
    requires Enumerates(order, a.Keys)
    ensures Names(a, Sort(Less, order))
  {
    var names := Sort(Less, order);
    SortMultiset(Less, order);
    LessIsStrictWeak(order);
    SinglePermuted(order, names);
    SameElements(order, names);
    forall i, j | 0 <= i < j < |names|
      ensures Less(names[i], names[j])
    {
      SortHasNoInversion(Less, order, i, j);
      LessTotal(names[i], names[j]);
    }
  }

  // The text does not depend on the order in which the map is visited.
  lemma {:induction false} NamesUnique(a: Counts, n1: seq<string>, n2: seq<string>)
    requires Names(a, n1) && Names(a, n2)
    ensures n1 == n2
  {
    EnumerationSize(n1, a.Keys);
    EnumerationSize(n2, a.Keys);
    assert n1[..|n1|] == n1 && n2[..|n2|] == n2;
    SameStart(a, n1, n2, |n1|);
  }

  lemma {:induction false} SameStart(a: Counts, n1: seq<string>, n2: seq<string>, i: nat)
    requires Names(a, n1) && Names(a, n2) && |n1| == |n2| && i <= |n1|
    ensures n1[..i] == n2[..i]
  {
    if i > 0 {
      SameStart(a, n1, n2, i - 1);
      NotLater(a, n1, n2, i - 1);
      NotLater(a, n2, n1, i - 1);
      LessTotal(n1[i - 1], n2[i - 1]);
    }
  }

  // With equal starts, the next name of n2 cannot come before that of n1.
  lemma NotLater(a: Counts, n1: seq<string>, n2: seq<string>, i: nat)
    requires Names(a, n1) && Names(a, n2) && |n1| == |n2| && i < |n1| && n1[..i] == n2[..i]
    ensures !Less(n2[i], n1[i])
  {
    assert n2[i] in n1;
    var k :| 0 <= k < |n1| && n1[k] == n2[i];
    forall j | 0 <= j < i
      ensures n1[j] == n2[j]
    {
      assert n1[..i][j] == n2[..i][j];
    }
    LessTotal(n1[i], n1[k]);
  }

  /******* Reading *******/

  // The count written after a name: 1 unless it is a positive number.
  function CountOf(text: string): int {
    var j := IndexOf(text, ':');
    var count := Atoi(TrimSpace(if j < 0 then text else text[..j]));
    if count.None? || count.value <= 0 then 1 else count.value
  }

  // One item on top of what was read before it.
  function AddItem(m: Counts, raw: string): Counts {
    var item := TrimSpace(raw);
    var i := IndexOf(item, ':');
    if item == "" then m
    else if i < 0 then m[item := 1]
    else m[TrimSpace(item[..i]) := CountOf(item[i + 1..])]
  }

  method AddAccelerator(result: Counts, raw: string) returns (m: Counts)
    ensures m == AddItem(result, raw)
  {
    var item := TrimSpace(raw);
    var i := IndexOf(item, ':');
    if item == "" {
      m := result;
    } else if i < 0 {
      m := result[item := 1];
    } else {
      m := result[TrimSpace(item[..i]) := CountOf(item[i + 1..])];
    }
  }

  function AddItems(items: seq<string>): Counts {
    if items == [] then map[] else AddItem(AddItems(items[..|items| - 1]), items[|items| - 1])
  }

  datatype Spec = Nil | Text(s: string) | List(items: seq<string>)

  // nil when nothing was named.
  method Parse(spec: Spec) returns (r: Option<Counts>)
    ensures spec.Nil? ==> r == None
    ensures spec.Text? ==> r == ReadItems(Split(spec.s, ','))
    ensures spec.List? ==> r == ReadItems(spec.items)
  {
    if spec.Nil? {
      return None;
    }
    var items := if spec.Text? then Split(spec.s, ',') else spec.items;
    var result: Counts := map[];
    for i := 0 to |items|
      invariant result == AddItems(items[..i])
    {
      assert items[..i + 1][..i] == items[..i];
      result := AddAccelerator(result, items[i]);
    }
    assert items[..|items|] == items;
    assert |result| == 0 <==> result == map[];
    if |result| == 0 {
      return None;
    }
    return Some(result);
  }

  function ReadItems(items: seq<string>): Option<Counts> {
    if AddItems(items) == map[] then None else Some(AddItems(items))
  }

  /******* The round trip *******/

  // A name that survives printing.
  predicate PlainName(name: string) {
    Trimmed(name) && ',' !in name && ':' !in name
  }

  // An entry that is read back as it was printed. A nameless single would print
  // as nothing.
  predicate Kept(name: string, count: int) {
    PlainName(name) && 1 <= count <= MAX_INT64 && !(name == "" && count == 1)
  }

  predicate AllKept(a: Counts) {
    forall k <- a :: Kept(k, a[k])
  }

  lemma ColonPart(name: string, digits: string)
    requires PlainName(name) && digits != "" && AllDigits(digits)
    ensures var item := name + ":" + digits;
            && TrimSpace(item) == item && ',' !in item
            && IndexOf(item, ':') == |name| && item[..|name|] == name && item[|name| + 1..] == digits
            && TrimSpace(name) == name
  {
    var item := name + ":" + digits;
    assert digits[0] in digits && digits[|digits| - 1] in digits;
    assert item[|item| - 1] == digits[|digits| - 1] && item[0] == if name == "" then ':' else name[0];
    TrimSpaceFixes(item);
    TrimSpaceFixes(name);
    FirstIndex(name, ':', digits);
    assert item == name + [':'] + digits;
  }

  lemma CountReadsBack(count: int)
    requires 1 <= count <= MAX_INT64
    ensures CountOf(Itoa(count)) == count
  {
    var digits := Itoa(count);
    assert digits[0] in digits && digits[|digits| - 1] in digits;
    assert ':' !in digits;
    TrimSpaceFixes(digits);
    AtoiOfItoa(count);
  }

  lemma KeptItem(m: Counts, name: string, count: int)
    requires Kept(name, count)
    ensures AddItem(m, Part(name, count)) == m[name := count] && ',' !in Part(name, count)
  {
    if count == 1 {
      TrimSpaceFixes(name);
    } else {
      CountReadsBack(count);
      ColonPart(name, Itoa(count));
    }
  }

  function Restricted(a: Counts, names: seq<string>): Counts
    requires forall k <- names :: k in a
  {
    map k | k in names :: a[k]
  }

  lemma LastItem(a: Counts, names: seq<string>)
    requires names != [] && forall k <- names :: k in a
    ensures var n := |names| - 1;
            && Parts(a, names) == Parts(a, names[..n]) + [Part(names[n], a[names[n]])]
            && Restricted(a, names) == Restricted(a, names[..n])[names[n] := a[names[n]]]
            && AddItems(Parts(a, names)) == AddItem(AddItems(Parts(a, names[..n])), Part(names[n], a[names[n]]))
  {
    var n := |names| - 1;
    var parts, last := Parts(a, names[..n]), Part(names[n], a[names[n]]);
    assert names == names[..n] + [names[n]];
    assert Parts(a, names) == parts + [last];
    assert (parts + [last])[..|parts|] == parts;
  }

  // Reading some printed entries gives those entries.
  lemma {:induction false} KeptItems(a: Counts, names: seq<string>)
    requires forall k <- names :: k in a && Kept(k, a[k])
    ensures AddItems(Parts(a, names)) == Restricted(a, names)
    ensures forall p <- Parts(a, names) :: ',' !in p
  {
    if names != [] {
      var n := |names| - 1;
      KeptItems(a, names[..n]);
      LastItem(a, names);
      KeptItem(AddItems(Parts(a, names[..n])), names[n], a[names[n]]);
    }
  }

  // An entry as reading makes them: the name trimmed and without commas or
  // colons, the count positive and within 64 bits.
  predicate Sound(m: Counts) {
    forall k <- m :: PlainName(k) && 1 <= m[k] <= MAX_INT64
  }

  lemma {:induction false} TrimLeftLacks(s: string, c: char)
    requires c !in s
    ensures c !in TrimLeft(s)
  {
    if s != "" && IsSpace(s[0]) {
      TrimLeftLacks(s[1..], c);
    }
  }

  lemma TrimSpaceLacks(s: string, c: char)
    requires c !in s
    ensures c !in TrimSpace(s)
  {
    TrimLeftLacks(s, c);
    assert TrimSpace(s) <= TrimLeft(s);
  }

  lemma TrimSpaceTrims(s: string)
    ensures Trimmed(TrimSpace(s))
  {
    var t := TrimLeft(s);
    assert TrimRight(t) <= t;
  }

  lemma CountInRange(text: string)
    ensures 1 <= CountOf(text) <= MAX_INT64
  {
  }

  lemma PlainWord(s: string, i: nat)
    requires i <= |s| && ',' !in s && ':' !in s[..i]
    ensures PlainName(TrimSpace(s[..i]))
  {
    TrimSpaceTrims(s[..i]);
    TrimSpaceLacks(s[..i], ',');
    TrimSpaceLacks(s[..i], ':');
  }

  lemma AddItemSound(m: Counts, raw: string)
    requires Sound(m) && ',' !in raw
    ensures Sound(AddItem(m, raw))
  {
    var item := TrimSpace(raw);
    TrimSpaceTrims(raw);
    TrimSpaceLacks(raw, ',');
    var i := IndexOf(item, ':');
    if i >= 0 {
      PlainWord(item, i);
      CountInRange(item[i + 1..]);
      SoundUpdated(m, TrimSpace(item[..i]), CountOf(item[i + 1..]));
    } else {
      SoundUpdated(m, item, 1);
    }
  }

  lemma SoundUpdated(m: Counts, name: string, count: int)
    requires Sound(m) && PlainName(name) && 1 <= count <= MAX_INT64
    ensures Sound(m[name := count])
  {
  }

  lemma {:induction false} AddItemsSound(items: seq<string>)
    requires forall p <- items :: ',' !in p
    ensures Sound(AddItems(items))
  {
    if items != [] {
      AddItemsSound(items[..|items| - 1]);
      AddItemSound(AddItems(items[..|items| - 1]), items[|items| - 1]);
    }
  }

  lemma {:induction false} SplitLacks(s: string, c: char)
    ensures forall p <- Split(s, c) :: c !in p
  {
    var i := IndexOf(s, c);
    if i >= 0 {
      SplitLacks(s[i + 1..], c);
    }
  }

  // A count that is no positive number is taken for 1, and whatever follows a
  // second colon is ignored.
  lemma BadCountIsOne(m: Counts, name: string, text: string)
    requires Word(name) && ':' !in name && Word(text) && ':' !in text && (Atoi(text).None? || Atoi(text).value <= 0)
    ensures AddItem(m, name + ":" + text) == m[name := 1]
  {
    var item := name + ":" + text;
    assert name[0] in name && name[|name| - 1] in name && text[0] in text && text[|text| - 1] in text;
    assert item[0] == name[0] && item[|item| - 1] == text[|text| - 1];
    TrimSpaceFixes(item);
    TrimSpaceFixes(name);
    TrimSpaceFixes(text);
    FirstIndex(name, ':', text);
    assert item == name + [':'] + text;
  }

  // Printed and read back; nil when there is nothing to print.
  ghost predicate RoundTrips(a: Counts, names: seq<string>)
    requires Names(a, names)
  {
    ReadItems(Split(Join(Parts(a, names), ","), ',')) == if a == map[] then None else Some(a)
  }

  lemma AllNames(a: Counts, names: seq<string>)
    requires Enumerates(names, a.Keys)
    ensures Restricted(a, names) == a
  {
    assert forall k :: k in names <==> k in a;
  }

  lemma KeptRoundTrips(a: Counts, names: seq<string>)
    requires Names(a, names) && AllKept(a)
    ensures RoundTrips(a, names)
  {
    var parts := Parts(a, names);
    if names == [] {
      assert a == map[];
      assert Split(Join(parts, ","), ',') == [""];
      EmptyItem();
    } else {
      KeptItems(a, names);
      SplitJoin(parts, ',');
      AllNames(a, names);
      assert names[0] in a;
    }
  }

  lemma EmptyItem()
    ensures AddItems([""]) == map[]
  {
    assert [""][..0] == [];
    TrimSpaceFixes("");
  }

  // A sound map that is not kept has a nameless single, printed as nothing.
  lemma NamelessIsLost(a: Counts, names: seq<string>)
    requires Names(a, names) && Sound(a) && "" in a && a[""] == 1
    ensures !RoundTrips(a, names)
  {
    EmptyNameFirst(a, names);
    var rest, parts := names[1..], Parts(a, names);
    OthersKept(a, names);
    KeptItems(a, rest);
    assert parts[0] == "" && parts[1..] == Parts(a, rest);
    assert forall i :: 1 <= i < |parts| ==> parts[i] == parts[1..][i - 1];
    SplitJoin(parts, ',');
    assert parts == [""] + Parts(a, rest);
    SkipEmpty(Parts(a, rest));
    assert "" !in Restricted(a, rest);
  }

  lemma OthersKept(a: Counts, names: seq<string>)
    requires Names(a, names) && Sound(a) && names != [] && names[0] == ""
    ensures forall k <- names[1..] :: k in a && k != "" && Kept(k, a[k])
  {
    forall i | 1 <= i < |names|
      ensures names[i] != "" && names[i] in a
    {
      assert names[0] != names[i];
    }
  }

  lemma EmptyNameFirst(a: Counts, names: seq<string>)
    requires Names(a, names) && "" in a
    ensures names != [] && names[0] == ""
  {
    var k :| 0 <= k < |names| && names[k] == "";
    assert !Less(names[0], "");
  }

  lemma {:induction false} SkipEmpty(rest: seq<string>)
    ensures AddItems([""] + rest) == AddItems(rest)
  {
    var items := [""] + rest;
    if rest == [] {
      assert items == [""];
      EmptyItem();
    } else {
      var n := |rest| - 1;
      assert items[..n + 1] == [""] + rest[..n];
      SkipEmpty(rest[..n]);
    }
  }

  // Printing and reading back gives the same accelerators exactly when every
  // name is trimmed, without comma or colon, and every count is positive and
  // within 64 bits, save a nameless single.
  lemma RoundTripExactly(a: Counts, names: seq<string>)
    requires Names(a, names)
    ensures RoundTrips(a, names) <==> AllKept(a)
  {
    if AllKept(a) {
      KeptRoundTrips(a, names);
    } else {
      var text := Join(Parts(a, names), ",");
      SplitLacks(text, ',');
      AddItemsSound(Split(text, ','));
      if Sound(a) {
        NamelessIsLost(a, names);
      }
    }
  }
}
