// The string helpers the Go code takes from its standard library, for ASCII text.
module Text {

  datatype Option<+T> = None | Some(value: T)

  const MAX_INT64 := 0x7FFF_FFFF_FFFF_FFFF

  // Two's complement wrap-around of a 64-bit signed integer.
  function WrapInt64(n: int): int {
    (n + 0x8000_0000_0000_0000) % 0x1_0000_0000_0000_0000 - 0x8000_0000_0000_0000
  }

  /******* Searching, splitting, joining *******/

  // The index of the first c in s, or -1.
  function IndexOf(s: string, c: char): (r: int)
    ensures -1 <= r < |s|
    ensures r >= 0 ==> s[r] == c && c !in s[..r]
    ensures r == -1 <==> c !in s
  {
    if s == "" then -1
    else if s[0] == c then 0
    else
      var r := IndexOf(s[1..], c);
      assert s == [s[0]] + s[1..];
      if r < 0 then -1
      else
        assert s[..r + 1] == [s[0]] + s[1..][..r];
        r + 1
  }

  // strings.Split(s, c): the pieces between the occurrences of c; never empty.
  function Split(s: string, c: char): (parts: seq<string>)
    ensures parts != []
  {
    var i := IndexOf(s, c);
    if i < 0 then [s] else [s[..i]] + Split(s[i + 1..], c)
  }

  function Join(parts: seq<string>, sep: string): string {
    if parts == [] then ""
    else if |parts| == 1 then parts[0]
    else parts[0] + sep + Join(parts[1..], sep)
  }

  lemma FirstIndex(a: string, c: char, rest: string)
    requires c !in a
    ensures IndexOf(a + [c] + rest, c) == |a|
    ensures (a + [c] + rest)[..|a|] == a && (a + [c] + rest)[|a| + 1..] == rest
  {
    var s := a + [c] + rest;
    assert s[|a|] == c;
    assert forall i :: |a| < i <= |s| ==> s[..i][|a|] == c;
  }

  lemma SplitAt(a: string, c: char, rest: string)
    requires c !in a
    ensures Split(a + [c] + rest, c) == [a] + Split(rest, c)
  {
    FirstIndex(a, c, rest);
  }

  // Splitting undoes joining when no piece contains the separator.
  lemma {:induction false} SplitJoin(parts: seq<string>, c: char)
    requires parts != []
    requires forall p <- parts :: c !in p
    ensures Split(Join(parts, [c]), c) == parts
  {
    if |parts| > 1 {
      SplitJoin(parts[1..], c);
      SplitAt(parts[0], c, Join(parts[1..], [c]));
    }
  }

  predicate HasPrefix(s: string, prefix: string) {
    prefix <= s
  }

  predicate HasSuffix(s: string, suffix: string) {
    |suffix| <= |s| && s[|s| - |suffix|..] == suffix
  }

  /******* White space *******/

  predicate IsSpace(c: char) {
    c == ' ' || '\t' <= c <= '\r'
  }

  function TrimLeft(s: string): (r: string)
    ensures r != "" ==> !IsSpace(r[0])
    ensures |r| <= |s|
  {
    if s != "" && IsSpace(s[0]) then TrimLeft(s[1..]) else s
  }

  function TrimRight(s: string): (r: string)
    ensures r != "" ==> !IsSpace(r[|r| - 1])
    ensures r <= s
  {
    if s != "" && IsSpace(s[|s| - 1]) then TrimRight(s[..|s| - 1]) else s
  }

  function TrimSpace(s: string): string {
    TrimRight(TrimLeft(s))
  }

  predicate Trimmed(s: string) {
    s == "" || (!IsSpace(s[0]) && !IsSpace(s[|s| - 1]))
  }

  lemma TrimSpaceFixes(s: string)
    requires Trimmed(s)
    ensures TrimSpace(s) == s
  {
  }

  // strings.Fields: the maximal runs of non-space characters.
  function Fields(s: string): (parts: seq<string>)
    decreases |s|
  {
    var t := TrimLeft(s);
    if t == "" then []
    else
      var n := WordLength(t);
      [t[..n]] + Fields(t[n..])
  }

  function WordLength(s: string): (n: nat)
    ensures n <= |s|
    ensures s != "" && !IsSpace(s[0]) ==> n > 0
    ensures forall i :: 0 <= i < n ==> !IsSpace(s[i])
    ensures n < |s| ==> IsSpace(s[n])
  {
    if s == "" || IsSpace(s[0]) then 0 else 1 + WordLength(s[1..])
  }

  predicate Word(s: string) {
    s != "" && forall c <- s :: !IsSpace(c)
  }

  lemma FirstWord(p: string, rest: string)
    requires Word(p) && (rest == "" || IsSpace(rest[0]))
    ensures Fields(p + rest) == [p] + Fields(rest)
  {
    var s := p + rest;
    assert s[0] == p[0] && p[0] in p;
    var n := WordLength(s);
    forall i | 0 <= i < |p|
      ensures !IsSpace(s[i])
    {
      assert s[i] == p[i] && p[i] in p;
    }
    assert rest != "" ==> s[|p|] == rest[0];
    assert s[..n] == p && s[n..] == rest;
  }

  // Fields undoes joining words with a single space.
  lemma {:induction false} FieldsJoin(parts: seq<string>)
    requires forall p <- parts :: Word(p)
    ensures Fields(Join(parts, " ")) == parts
  {
    if |parts| == 1 {
      FirstWord(parts[0], "");
      assert parts[0] + "" == parts[0];
    } else if parts != [] {
      var rest := " " + Join(parts[1..], " ");
      FieldsJoin(parts[1..]);
      assert rest[1..] == Join(parts[1..], " ");
      FirstWord(parts[0], rest);
      assert Join(parts, " ") == parts[0] + rest;
    }
  }

  /******* Decimal numbers *******/

  predicate IsDigit(c: char) {
    '0' <= c <= '9'
  }

  predicate AllDigits(s: string) {
    forall c <- s :: IsDigit(c)
  }

  function DigitChar(n: nat): (c: char)
    requires n < 10
    ensures IsDigit(c)
  {
    '0' + n as char
  }

  // The decimal digits of n.
  function Itoa(n: nat): (s: string)
    ensures s != "" && AllDigits(s)
  {
    if n < 10 then [DigitChar(n)] else Itoa(n / 10) + [DigitChar(n % 10)]
  }

  // "%d" of any integer.
  function ShowInt(n: int): string {
    if n < 0 then "-" + Itoa(-n) else Itoa(n)
  }

  predicate Int64(n: int) {
    -MAX_INT64 - 1 <= n <= MAX_INT64
  }

  // The number a string of digits denotes.
  function DigitsValue(s: string): (n: nat)
    requires AllDigits(s)
  {
    if s == "" then 0
    else
      assert s[|s| - 1] in s;
      DigitsValue(s[..|s| - 1]) * 10 + (s[|s| - 1] - '0') as int
  }

  // strconv.Atoi: an optional sign, then decimal digits, within 64 bits.
  function Atoi(s: string): Option<int> {
    var negative := s != "" && s[0] == '-';
    var digits := if s != "" && (s[0] == '-' || s[0] == '+') then s[1..] else s;
    if digits == "" || !AllDigits(digits) then None
    else
      var n: int := DigitsValue(digits);
      if negative then (if n <= MAX_INT64 + 1 then Some(-n) else None)
      else (if n <= MAX_INT64 then Some(n) else None)
  }

  lemma {:induction false} DigitsValueOfItoa(n: nat)
    ensures DigitsValue(Itoa(n)) == n
  {
    if n >= 10 {
      DigitsValueOfItoa(n / 10);
      var s := Itoa(n);
      assert s[..|s| - 1] == Itoa(n / 10);
    }
  }

  // Reading a printed natural number gives it back.
  lemma AtoiOfItoa(n: nat)
    requires n <= MAX_INT64
    ensures Atoi(Itoa(n)) == Some(n)
  {
    DigitsValueOfItoa(n);
    assert Itoa(n)[0] in Itoa(n);
  }

  lemma AtoiSigned(n: nat)
    requires n <= MAX_INT64
    ensures Atoi("-" + Itoa(n)) == Some(-(n as int)) && Atoi("+" + Itoa(n)) == Some(n)
  {
    DigitsValueOfItoa(n);
    assert ("-" + Itoa(n))[1..] == Itoa(n) && ("+" + Itoa(n))[1..] == Itoa(n);
  }
}
