// Renaming keys between camel, snake and Pascal case, for ASCII keys.
module KeyStyle {
  import opened Text

  datatype Style = Camel | Snake | Pascal

  predicate IsUpper(c: char) {
    'A' <= c <= 'Z'
  }

  predicate IsLower(c: char) {
    'a' <= c <= 'z'
  }

  predicate IsSeparator(c: char) {
    c == '_' || c == '-'
  }

  function ToLower(c: char): char {
    if IsUpper(c) then c - 'A' + 'a' else c
  }

  function ToUpper(c: char): char {
    if IsLower(c) then c - 'a' + 'A' else c
  }

  function Lower(s: string): (r: string)
    ensures |r| == |s| && forall i :: 0 <= i < |s| ==> r[i] == ToLower(s[i])
  {
    seq(|s|, i requires 0 <= i < |s| => ToLower(s[i]))
  }

  function UpperFirst(s: string): string {
    if s == "" then s else [ToUpper(s[0])] + s[1..]
  }

  /******* Splitting into words *******/

  // A word ends before an upper-case letter that follows a lower-case one, or
  // that follows an upper-case one and precedes a lower-case one.
  predicate Breaks(prev: char, rest: string)
    requires rest != ""
  {
    IsUpper(rest[0]) && (IsLower(prev) || (IsUpper(prev) && |rest| > 1 && IsLower(rest[1])))
  }

  function Flush(cur: string): seq<string> {
    if cur == "" then [] else [cur]
  }

  // The words still to come, after prev, with cur read of the current word.
  function Scan(prev: char, rest: string, cur: string): seq<string>
    decreases |rest|
  {
    if rest == "" then Flush(cur)
    else if IsSeparator(rest[0]) then Flush(cur) + Scan(rest[0], rest[1..], "")
    else if Breaks(prev, rest) then Flush(cur) + Scan(rest[0], rest[1..], [rest[0]])
    else Scan(rest[0], rest[1..], cur + [rest[0]])
  }

  // A separator stands for the start of the text: nothing breaks after it.
  function Words(s: string): seq<string> {
    var words := Scan('_', s, "");
    if words == [] then [s] else words
  }

  method SplitWords(s: string) returns (words: seq<string>)
    ensures words == Words(s)
  {
    words := [];
    var cur := "";
    assert s[0..] == s;
    for i := 0 to |s|
      invariant Scan('_', s, "") == words + Scan(if i == 0 then '_' else s[i - 1], s[i..], cur)
    {
      var r := s[i];
      assert s[i..][0] == r && s[i..][1..] == s[i + 1..];
      assert i + 1 < |s| ==> s[i..][1] == s[i + 1];
      ghost var before := if i == 0 then '_' else s[i - 1];
      assert Breaks(before, s[i..]) <==>
             IsUpper(r) && i > 0 && (IsLower(before) || (IsUpper(before) && i + 1 < |s| && IsLower(s[i + 1])));
      ghost var after, broken := Scan(r, s[i + 1..], ""), Scan(r, s[i + 1..], [r]);
      assert words + (Flush(cur) + after) == words + Flush(cur) + after;
      assert "" + [r] == [r];
      assert words + (Flush(cur) + broken) == words + Flush(cur) + broken;
      if IsSeparator(r) {
        if cur != "" {
          words := words + [cur];
          cur := "";
        }
        continue;
      }
      if IsUpper(r) && i > 0 {
        var prev := s[i - 1];
        var nextLower := i + 1 < |s| && IsLower(s[i + 1]);
        if IsLower(prev) || (IsUpper(prev) && nextLower) {
          if cur != "" {
            words := words + [cur];
            cur := "";
          }
        }
      }
      cur := cur + [r];
    }
    if cur != "" {
      words := words + [cur];
    }
    if words == [] {
      words := [s];
    }
  }

  /******* Joining *******/

  function Lowered(words: seq<string>): (r: seq<string>)
    ensures |r| == |words| && forall i :: 0 <= i < |words| ==> r[i] == Lower(words[i])
  {
    seq(|words|, i requires 0 <= i < |words| => Lower(words[i]))
  }

  // The words capitalised and run together.
  function Capitalised(words: seq<string>): string {
    if words == [] then "" else UpperFirst(words[0]) + Capitalised(words[1..])
  }

  function Joined(words: seq<string>, style: Style): string
    requires words != []
  {
    match style
    case Snake => Join(words, "_")
    case Pascal => Capitalised(words)
    case Camel => words[0] + Capitalised(words[1..])
  }

  function ToCase(key: string, style: Style): string {
    Joined(Lowered(Words(key)), style)
  }

  function Concat(words: seq<string>): string {
    if words == [] then "" else words[0] + Concat(words[1..])
  }

  function CapitalisedFrom(words: seq<string>, n: nat): (r: seq<string>)
    ensures |r| == |words|
    ensures forall i :: 0 <= i < |words| ==> r[i] == if i < n then words[i] else UpperFirst(words[i])
  {
    seq(|words|, i requires 0 <= i < |words| => if i < n then words[i] else UpperFirst(words[i]))
  }

  lemma {:induction false} ConcatCapitalised(words: seq<string>)
    ensures Concat(CapitalisedFrom(words, 0)) == Capitalised(words)
  {
    if words != [] {
      assert CapitalisedFrom(words, 0)[1..] == CapitalisedFrom(words[1..], 0);
      ConcatCapitalised(words[1..]);
    }
  }

  method ConvertCase(key: string, style: Style) returns (r: string)
    ensures r == ToCase(key, style)
  {
    var words := SplitWords(key);
    ghost var was := words;
    for i := 0 to |words|
      invariant |words| == |was|
      invariant forall k :: 0 <= k < |was| ==> words[k] == if k < i then Lower(was[k]) else was[k]
    {
      words := words[i := Lower(words[i])];
    }
    assert words == Lowered(was);
    if style == Snake {
      return Join(words, "_");
    }
    var start := if style == Pascal then 0 else 1;
    ghost var low := words;
    for i := start to |words|
      invariant |words| == |low|
      invariant forall k :: 0 <= k < |low| ==> words[k] == if start <= k < i then UpperFirst(low[k]) else low[k]
    {
      words := words[i := UpperFirst(words[i])];
    }
    assert words == CapitalisedFrom(low, start);
    if style == Pascal {
      ConcatCapitalised(low);
    } else {
      assert words[1..] == CapitalisedFrom(low[1..], 0);
      ConcatCapitalised(low[1..]);
    }
    r := Concat(words);
  }

  /******* Snake case is canonical *******/

  // A nonempty word with no separator and no upper-case letter.
  predicate Plain(w: string) {
    w != "" && forall c <- w :: !IsSeparator(c) && !IsUpper(c)
  }

  lemma {:induction false} PlainRun(prev: char, run: string, rest: string, cur: string)
    requires forall c <- run :: !IsSeparator(c) && !IsUpper(c)
    ensures Scan(prev, run + rest, cur) == Scan(if run == "" then prev else run[|run| - 1], rest, cur + run)
    decreases |run|
  {
    if run == "" {
      assert run + rest == rest && cur + run == cur;
    } else {
      assert (run + rest)[1..] == run[1..] + rest;
      assert run[0] in run;
      PlainRun(run[0], run[1..], rest, cur + [run[0]]);
      assert cur + [run[0]] + run[1..] == cur + run;
    }
  }

  // Plain words joined by underscores are split back into those words.
  lemma {:induction false} PlainWordsSplit(prev: char, ws: seq<string>)
    requires ws != [] && forall w <- ws :: Plain(w)
    ensures Scan(prev, Join(ws, "_"), "") == ws
    decreases |ws|
  {
    var w := ws[0];
    assert Plain(w);
    if |ws| == 1 {
      PlainRun(prev, w, "", "");
      assert w + "" == w && "" + w == w;
    } else {
      var rest := "_" + Join(ws[1..], "_");
      assert Join(ws, "_") == w + rest;
      PlainRun(prev, w, rest, "");
      assert rest[1..] == Join(ws[1..], "_") && "" + w == w;
      PlainWordsSplit('_', ws[1..]);
    }
  }

  predicate Solid(w: string) {
    w != "" && forall c <- w :: !IsSeparator(c)
  }

  lemma {:induction false} ScannedWordsAreSolid(prev: char, rest: string, cur: string)
    requires forall c <- cur :: !IsSeparator(c)
    ensures forall w <- Scan(prev, rest, cur) :: Solid(w)
    decreases |rest|
  {
    if rest != "" {
      var c := rest[0];
      ScannedWordsAreSolid(c, rest[1..], "");
      if !IsSeparator(c) {
        ScannedWordsAreSolid(c, rest[1..], [c]);
        ScannedWordsAreSolid(c, rest[1..], cur + [c]);
      }
    }
  }

  lemma {:induction false} NoWordsOnlySeparators(prev: char, rest: string, cur: string)
    requires Scan(prev, rest, cur) == []
    ensures cur == "" && forall c <- rest :: IsSeparator(c)
    decreases |rest|
  {
    if rest != "" {
      var next := if IsSeparator(rest[0]) then "" else if Breaks(prev, rest) then [rest[0]] else cur + [rest[0]];
      assert Scan(rest[0], rest[1..], next) == [];
      NoWordsOnlySeparators(rest[0], rest[1..], next);
      assert rest == [rest[0]] + rest[1..];
    }
  }

  lemma LowerSolidIsPlain(w: string)
    requires Solid(w)
    ensures Plain(Lower(w))
  {
    forall c | c in Lower(w)
      ensures !IsSeparator(c) && !IsUpper(c)
    {
      var i :| 0 <= i < |w| && Lower(w)[i] == c;
      assert w[i] in w;
    }
  }

  lemma LowerPlain(w: string)
    requires Plain(w)
    ensures Lower(w) == w
  {
    forall i | 0 <= i < |w|
      ensures Lower(w)[i] == w[i]
    {
      assert w[i] in w;
    }
  }

  lemma LoweredPlain(ws: seq<string>)
    requires forall w <- ws :: Plain(w)
    ensures Lowered(ws) == ws
  {
    forall i | 0 <= i < |ws|
      ensures Lowered(ws)[i] == ws[i]
    {
      LowerPlain(ws[i]);
    }
  }

  // The words of the snake form are the lower-case words of the key.
  lemma SnakeWords(key: string)
    ensures Lowered(Words(ToCase(key, Snake))) == Lowered(Words(key))
  {
    var scanned := Scan('_', key, "");
    if scanned == [] {
      NoWordsOnlySeparators('_', key, "");
      assert forall i :: 0 <= i < |key| ==> key[i] in key;
      assert Lower(key) == key;
      assert Lowered([key]) == [key];
    } else {
      ScannedWordsAreSolid('_', key, "");
      var ws := Lowered(scanned);
      forall w | w in ws
        ensures Plain(w)
      {
        var i :| 0 <= i < |scanned| && ws[i] == w;
        LowerSolidIsPlain(scanned[i]);
      }
      PlainWordsSplit('_', ws);
      LoweredPlain(ws);
    }
  }

  // Converting to snake case first changes nothing, whatever the key and style;
  // in particular snake case is idempotent.
  lemma SnakeCanonical(key: string, style: Style)
    ensures ToCase(ToCase(key, Snake), style) == ToCase(key, style)
  {
    SnakeWords(key);
  }

  // Dashes and underscores separate words alike.
  predicate SameButSeparators(a: string, b: string) {
    |a| == |b| && forall i :: 0 <= i < |a| ==> a[i] == b[i] || (a[i] in "-_" && b[i] in "-_")
  }

  lemma {:induction false} SeparatorsAlike(p: char, q: char, a: string, b: string, cur: string)
    requires SameButSeparators(a, b) && (p == q || (IsSeparator(p) && IsSeparator(q)))
    ensures Scan(p, a, cur) == Scan(q, b, cur)
    decreases |a|
  {
    if a != "" {
      var next := if IsSeparator(a[0]) then "" else if Breaks(p, a) then [a[0]] else cur + [a[0]];
      SeparatorsAlike(a[0], b[0], a[1..], b[1..], next);
    }
  }

  lemma DashIsUnderscore(a: string, b: string, style: Style)
    requires SameButSeparators(a, b) && exists i :: 0 <= i < |a| && !IsSeparator(a[i])
    ensures ToCase(a, style) == ToCase(b, style)
  {
    SeparatorsAlike('_', '_', a, b, "");
    var i :| 0 <= i < |a| && !IsSeparator(a[i]);
    assert a[i] in a;
    if Scan('_', a, "") == [] {
      NoWordsOnlySeparators('_', a, "");
    }
  }

  // A key of nothing but separators is left alone.
  lemma {:induction false} NoWords(prev: char, s: string)
    requires forall c <- s :: c in "-_"
    ensures Scan(prev, s, "") == []
    decreases |s|
  {
    if s != "" {
      assert s[0] in s;
      NoWords(s[0], s[1..]);
    }
  }

  lemma OnlySeparators(s: string, style: Style)
    requires forall c <- s :: c in "-_"
    ensures ToCase(s, style) == s
  {
    NoWords('_', s);
    assert forall i :: 0 <= i < |s| ==> s[i] in s;
    assert Lower(s) == s;
    assert Lowered([s]) == [s];
    assert s != "" ==> [s[0]] + s[1..] == s;
    assert Capitalised([s]) == UpperFirst(s) + "" == s;
    assert s + Capitalised([s][1..]) == s;
  }

  /******* When camel or Pascal case can be undone *******/

  predicate LowerWord(w: string) {
    w != "" && forall c <- w :: IsLower(c)
  }

  predicate LowerWords(ws: seq<string>) {
    forall w <- ws :: LowerWord(w)
  }

  // A capitalised word is read as one stretch; only the break before it depends
  // on what came before.
  lemma CapitalStep(prev: char, w: string, rest: string, cur: string)
    requires LowerWord(w) && (rest == "" || IsUpper(rest[0])) && cur != ""
    ensures var u := UpperFirst(w);
            var last := u[|u| - 1];
            && (|w| == 1 ==> IsUpper(last)) && (|w| > 1 ==> IsLower(last))
            && Scan(prev, u + rest, cur) ==
               if IsLower(prev) || (IsUpper(prev) && |w| > 1) then [cur] + Scan(last, rest, u) else Scan(last, rest, cur + u)
  {
    var u := UpperFirst(w);
    CapitalBreaks(prev, w, rest);
    RestOfCapital(w, rest, "");
    RestOfCapital(w, rest, cur);
    assert "" + [u[0]] == [u[0]] && "" + u == u;
  }

  lemma CapitalBreaks(prev: char, w: string, rest: string)
    requires LowerWord(w) && (rest == "" || IsUpper(rest[0]))
    ensures var text := UpperFirst(w) + rest;
            && text[0] == ToUpper(w[0]) && IsUpper(text[0]) && text[1..] == w[1..] + rest
            && (Breaks(prev, text) <==> IsLower(prev) || (IsUpper(prev) && |w| > 1))
  {
    var text := UpperFirst(w) + rest;
    assert w[0] in w;
    assert |w| > 1 ==> text[1] == w[1] && w[1] in w;
    assert |w| == 1 && rest != "" ==> text[1] == rest[0];
  }

  // After its first letter the word runs on to its end.
  lemma RestOfCapital(w: string, rest: string, cur: string)
    requires LowerWord(w)
    ensures var u := UpperFirst(w);
            var last := u[|u| - 1];
            && IsUpper(u[0]) && (|w| > 1 ==> IsLower(last))
            && Scan(u[0], w[1..] + rest, cur + [u[0]]) == Scan(last, rest, cur + u)
  {
    var u := UpperFirst(w);
    assert w[0] in w && w[|w| - 1] in w;
    assert forall c <- w[1..] :: c in w;
    PlainRun(u[0], w[1..], rest, cur + [u[0]]);
    assert cur + [u[0]] + w[1..] == cur + u;
  }

  // The words read from capitalised ws: a one-letter word is swallowed by a
  // one-letter capital right before it. single says the piece before is one.
  function Fused(single: bool, cur: string, ws: seq<string>): (r: seq<string>)
    ensures r != []
    decreases |ws|
  {
    if ws == [] then [cur]
    else if single && |ws[0]| == 1 then Fused(true, cur + ws[0], ws[1..])
    else [cur] + Fused(|ws[0]| == 1, ws[0], ws[1..])
  }

  lemma CapitalisedStart(ws: seq<string>)
    requires LowerWords(ws)
    ensures Capitalised(ws) == "" || IsUpper(Capitalised(ws)[0])
  {
    if ws != [] {
      assert LowerWord(ws[0]) && ws[0][0] in ws[0];
    }
  }

  lemma LowerUpperFirst(w: string)
    requires LowerWord(w)
    ensures Lower(UpperFirst(w)) == w
  {
    assert forall i :: 0 <= i < |w| ==> w[i] in w;
  }

  lemma LowerConcat(a: string, b: string)
    ensures Lower(a + b) == Lower(a) + Lower(b)
  {
  }

  lemma LoweredCons(w: string, ws: seq<string>)
    ensures Lowered([w] + ws) == [Lower(w)] + Lowered(ws)
  {
  }

  lemma {:induction false} CapitalsScanned(prev: char, ws: seq<string>, cur: string)
    requires LowerWords(ws) && cur != "" && (IsLower(prev) || IsUpper(prev))
    ensures Lowered(Scan(prev, Capitalised(ws), cur)) == Fused(IsUpper(prev), Lower(cur), ws)
    decreases |ws|
  {
    if ws != [] {
      var w, rest := ws[0], Capitalised(ws[1..]);
      var u := UpperFirst(w);
      assert LowerWord(w) && LowerWords(ws[1..]);
      CapitalisedStart(ws[1..]);
      CapitalStep(prev, w, rest, cur);
      LowerUpperFirst(w);
      var last := u[|u| - 1];
      if IsUpper(prev) && |w| == 1 {
        CapitalsScanned(last, ws[1..], cur + u);
        LowerConcat(cur, u);
      } else {
        CapitalsScanned(last, ws[1..], u);
        LoweredCons(cur, Scan(last, rest, u));
      }
    }
  }

  // Two one-letter words in a row, from word i on.
  predicate AdjacentSingles(ws: seq<string>, from: nat) {
    exists i :: from <= i < |ws| - 1 && |ws[i]| == 1 && |ws[i + 1]| == 1
  }

  lemma {:induction false} FusedLength(single: bool, cur: string, ws: seq<string>)
    ensures |Join(Fused(single, cur, ws), "_")| <= |Join([cur] + ws, "_")|
    decreases |ws|
  {
    if ws != [] {
      FusedLength(true, cur + ws[0], ws[1..]);
      FusedLength(|ws[0]| == 1, ws[0], ws[1..]);
      assert ([cur] + ws)[1..] == ws && [ws[0]] + ws[1..] == ws;
      JoinFirst(cur, ws[0], ws[1..]);
      JoinHead(cur, Fused(|ws[0]| == 1, ws[0], ws[1..]));
    }
  }

  lemma JoinHead(cur: string, ws: seq<string>)
    requires ws != []
    ensures Join([cur] + ws, "_") == cur + "_" + Join(ws, "_")
  {
    assert ([cur] + ws)[1..] == ws;
  }

  // Gluing the first two words loses one character.
  lemma JoinFirst(cur: string, w: string, ws: seq<string>)
    ensures |Join([cur + w] + ws, "_")| + 1 == |Join([cur] + ([w] + ws), "_")|
  {
    JoinHead(cur, [w] + ws);
    if ws != [] {
      JoinHead(cur + w, ws);
      JoinHead(w, ws);
    }
  }

  lemma SameTail(head: string, a: string, b: string)
    ensures head + a == head + b <==> a == b
  {
    assert (head + a)[|head|..] == a && (head + b)[|head|..] == b;
  }

  // Nothing is swallowed exactly when no one-letter word follows a one-letter capital.
  lemma {:induction false} FusedExactly(single: bool, cur: string, ws: seq<string>)
    ensures Join(Fused(single, cur, ws), "_") == Join([cur] + ws, "_")
       <==> !(single && ws != [] && |ws[0]| == 1) && !AdjacentSingles(ws, 0)
    decreases |ws|
  {
    if ws != [] {
      var w, rest := ws[0], ws[1..];
      assert ws == [w] + rest;
      if single && |w| == 1 {
        FusedLength(true, cur + w, rest);
        JoinFirst(cur, w, rest);
      } else {
        FusedExactly(|w| == 1, w, rest);
        JoinHead(cur, Fused(|w| == 1, w, rest));
        JoinHead(cur, ws);
        SameTail(cur + "_", Join(Fused(|w| == 1, w, rest), "_"), Join(ws, "_"));
        SinglesFromHead(ws);
      }
    }
  }

  lemma SinglesFromHead(ws: seq<string>)
    requires ws != []
    ensures AdjacentSingles(ws, 0) <==> (|ws| > 1 && |ws[0]| == 1 && |ws[1]| == 1) || AdjacentSingles(ws[1..], 0)
    ensures AdjacentSingles(ws, 1) <==> AdjacentSingles(ws[1..], 0)
  {
    if AdjacentSingles(ws, 0) {
      var i :| 0 <= i < |ws| - 1 && |ws[i]| == 1 && |ws[i + 1]| == 1;
      assert i > 0 ==> |ws[1..][i - 1]| == 1 && |ws[1..][i - 1 + 1]| == 1;
    }
    if AdjacentSingles(ws[1..], 0) {
      var i :| 0 <= i < |ws[1..]| - 1 && |ws[1..][i]| == 1 && |ws[1..][i + 1]| == 1;
      assert |ws[i + 1]| == 1 && |ws[i + 1 + 1]| == 1;
    }
  }

  lemma LowerWordsSplit(ws: seq<string>)
    requires ws != [] && LowerWords(ws)
    ensures Lowered(Words(Join(ws, "_"))) == ws
  {
    forall w | w in ws
      ensures Plain(w)
    {
      assert LowerWord(w);
    }
    PlainWordsSplit('_', ws);
    LoweredPlain(ws);
  }

  // The words of the camel form, and of the Pascal form.
  lemma CamelWords(ws: seq<string>)
    requires ws != [] && LowerWords(ws)
    ensures Lowered(Words(Joined(ws, Camel))) == Fused(false, ws[0], ws[1..])
  {
    var w, rest := ws[0], Capitalised(ws[1..]);
    assert LowerWord(w) && LowerWords(ws[1..]);
    FirstLower(w, rest);
    CapitalsScanned(w[|w| - 1], ws[1..], w);
  }

  lemma PascalWords(ws: seq<string>)
    requires ws != [] && LowerWords(ws)
    ensures Lowered(Words(Joined(ws, Pascal))) == Fused(|ws[0]| == 1, ws[0], ws[1..])
  {
    var w, rest := ws[0], Capitalised(ws[1..]);
    var u := UpperFirst(w);
    assert LowerWord(w) && LowerWords(ws[1..]);
    FirstCapital(w, rest);
    LowerUpperFirst(w);
    CapitalsScanned(u[|u| - 1], ws[1..], u);
  }

  lemma FirstLower(w: string, rest: string)
    requires LowerWord(w)
    ensures IsLower(w[|w| - 1]) && Lower(w) == w
    ensures Scan('_', w + rest, "") == Scan(w[|w| - 1], rest, w)
  {
    assert w[|w| - 1] in w && "" + w == w;
    PlainRun('_', w, rest, "");
    LowerPlain(w);
  }

  lemma FirstCapital(w: string, rest: string)
    requires LowerWord(w)
    ensures var u := UpperFirst(w);
            && (|w| == 1 ==> IsUpper(u[|u| - 1])) && (|w| > 1 ==> IsLower(u[|u| - 1]))
            && Scan('_', u + rest, "") == Scan(u[|u| - 1], rest, u)
  {
    var u := UpperFirst(w);
    RestOfCapital(w, rest, "");
    assert (u + rest)[0] == u[0] && (u + rest)[1..] == w[1..] + rest;
    assert "" + [u[0]] == [u[0]] && "" + u == u;
  }

  // A key of lower-case words joined by underscores comes back from camel case
  // exactly when no two one-letter words stand side by side after the first word.
  lemma CamelRoundTripExactly(ws: seq<string>)
    requires ws != [] && LowerWords(ws)
    ensures var key := Join(ws, "_"); ToCase(ToCase(key, Camel), Snake) == key <==> !AdjacentSingles(ws, 1)
  {
    LowerWordsSplit(ws);
    CamelWords(ws);
    FusedExactly(false, ws[0], ws[1..]);
    SinglesFromHead(ws);
    assert [ws[0]] + ws[1..] == ws;
  }

  // From Pascal case it comes back exactly when no two stand side by side at all.
  lemma PascalRoundTripExactly(ws: seq<string>)
    requires ws != [] && LowerWords(ws)
    ensures var key := Join(ws, "_"); ToCase(ToCase(key, Pascal), Snake) == key <==> !AdjacentSingles(ws, 0)
  {
    LowerWordsSplit(ws);
    PascalWords(ws);
    FusedExactly(|ws[0]| == 1, ws[0], ws[1..]);
    SinglesFromHead(ws);
    assert [ws[0]] + ws[1..] == ws;
  }
}
