// Numeric ranges such as "8", "8+", "-8" and "4-8". Reading and printing a
// single number are parameters: read is strconv.ParseFloat, show is "%g".
module Ranges {
  import opened Text

  datatype Range = Range(min: Option<real>, max: Option<real>)

  predicate Matches(r: Option<Range>, v: real) {
    r.Some? ==>
      && (r.value.min.Some? ==> r.value.min.value <= v)
      && (r.value.max.Some? ==> v <= r.value.max.value)
  }

  function Show(r: Option<Range>, show: real -> string): string {
    match r
    case None => ""
    case Some(Range(Some(a), Some(b))) => if a == b then show(a) else show(a) + "-" + show(b)
    case Some(Range(Some(a), None)) => show(a) + "+"
    case Some(Range(None, Some(b))) => "-" + show(b)
    case Some(Range(None, None)) => ""
  }

  // One bound, unless the other side is open there.
  function Bound(absent: bool, text: string, read: string -> Option<real>): Option<Option<real>> {
    if absent then Some(None)
    else
      match read(TrimSpace(text))
      case None => None
      case Some(v) => Some(Some(v))
  }

  // None is a parse error; Some(None) the nil range of an empty string.
  function Parse(input: string, read: string -> Option<real>): Option<Option<Range>> {
    if input == "" then Some(None)
    else
      var t := TrimSpace(input);
      var lower := HasSuffix(t, "+");
      var upper := !lower && HasPrefix(t, "-");
      ParseBody(lower, upper, if lower then t[..|t| - 1] else if upper then t[1..] else t, read)
  }

  // What is left once a trailing "+" or a leading "-" is taken off.
  function ParseBody(lower: bool, upper: bool, s: string, read: string -> Option<real>): Option<Option<Range>> {
    var dash := IndexOf(s, '-');
    if dash < 0 then
      match read(TrimSpace(s))
      case None => None
      case Some(v) => Some(Some(Range(if upper then None else Some(v), if lower then None else Some(v))))
    else
      BothBounds(lower, upper, s[..dash], s[dash + 1..], read)
  }

  function BothBounds(lower: bool, upper: bool, left: string, right: string, read: string -> Option<real>): Option<Option<Range>> {
    match (Bound(lower || TrimSpace(right) == "", left, read), Bound(upper || TrimSpace(left) == "", right, read))
    case (Some(min), Some(max)) => Some(Some(Range(min, max)))
    case _ => None
  }

  method ParseRange(input: string, read: string -> Option<real>) returns (r: Option<Option<Range>>)
    ensures r == Parse(input, read)
  {
    if input == "" {
      return Some(None);
    }
    var s := TrimSpace(input);
    var lower, upper := false, false;
    if HasSuffix(s, "+") {
      lower, s := true, s[..|s| - 1];
    } else if HasPrefix(s, "-") {
      upper, s := true, s[1..];
    }
    var dash := IndexOf(s, '-');
    if dash < 0 {
      var v := read(TrimSpace(s));
      if v.None? {
        return None;
      }
      return Some(Some(Range(if upper then None else v, if lower then None else v)));
    }
    r := ParseBounds(lower, upper, s[..dash], s[dash + 1..], read);
  }

  method ParseBounds(lowerOpen: bool, upperOpen: bool, left: string, right: string, read: string -> Option<real>)
    returns (r: Option<Option<Range>>)
    ensures r == BothBounds(lowerOpen, upperOpen, left, right, read)
  {
    var lower, upper := lowerOpen, upperOpen;
    if TrimSpace(left) == "" {
      upper := true;
    }
    if TrimSpace(right) == "" {
      lower := true;
    }
    var min: Option<real>, max: Option<real> := None, None;
    if !lower {
      min := read(TrimSpace(left));
      if min.None? {
        return None;
      }
    }
    if !upper {
      max := read(TrimSpace(right));
      if max.None? {
        return None;
      }
    }
    return Some(Some(Range(min, max)));
  }

  // A printed number that does not get in the way of the range syntax.
  predicate Clean(text: string) {
    text != "" && Trimmed(text) && '-' !in text && text[|text| - 1] != '+'
  }

  predicate ReadsBack(v: Option<real>, read: string -> Option<real>, show: real -> string) {
    v.Some? ==> Clean(show(v.value)) && read(show(v.value)) == Some(v.value)
  }

  lemma SplitAtDash(a: string, b: string)
    requires '-' !in a
    ensures IndexOf(a + "-" + b, '-') == |a|
    ensures (a + "-" + b)[..|a|] == a && (a + "-" + b)[|a| + 1..] == b
  {
    SplitAt(a, '-', b);
    var s := a + "-" + b;
    assert s[|a|] == '-';
    assert forall i :: 0 <= i < |a| ==> s[i] == a[i];
  }

  lemma BothBoundsReadBack(a: string, b: string, read: string -> Option<real>)
    requires Clean(a) && Clean(b)
    ensures var x, y := read(a), read(b);
            Parse(a + "-" + b, read) == if x.Some? && y.Some? then Some(Some(Range(x, y))) else None
  {
    var s := a + "-" + b;
    assert s[0] == a[0] && s[|s| - 1] == b[|b| - 1];
    TrimSpaceFixes(s);
    TrimSpaceFixes(a);
    TrimSpaceFixes(b);
    SplitAtDash(a, b);
  }

  lemma OneBoundReadsBack(a: string, read: string -> Option<real>)
    requires Clean(a)
    ensures var x := read(a);
            && Parse(a, read) == (if x.Some? then Some(Some(Range(x, x))) else None)
            && Parse(a + "+", read) == (if x.Some? then Some(Some(Range(x, None))) else None)
            && Parse("-" + a, read) == (if x.Some? then Some(Some(Range(None, x))) else None)
  {
    TrimSpaceFixes(a);
    TrimSpaceFixes(a + "+");
    TrimSpaceFixes("-" + a);
    assert (a + "+")[..|a|] == a;
    assert ("-" + a)[1..] == a && ("-" + a)[|a|] == a[|a| - 1];
  }

  // Reading a printed range gives it back when its bounds print without a minus
  // sign; only a range without bounds, which prints as nothing, becomes nil.
  lemma RangeRoundTrip(r: Range, read: string -> Option<real>, show: real -> string)
    requires ReadsBack(r.min, read, show) && ReadsBack(r.max, read, show)
    ensures Parse(Show(Some(r), show), read) == Some(if r == Range(None, None) then None else Some(r))
  {
    match r {
      case Range(Some(a), Some(b)) =>
        if a == b {
          OneBoundReadsBack(show(a), read);
        } else {
          BothBoundsReadBack(show(a), show(b), read);
        }
      case Range(Some(a), None) => OneBoundReadsBack(show(a), read);
      case Range(None, Some(b)) => OneBoundReadsBack(show(b), read);
      case Range(None, None) =>
    }
  }

  // The case the task files use: natural numbers below a million print as digits.
  lemma NaturalRangeRoundTrip(min: Option<nat>, max: Option<nat>, read: string -> Option<real>, show: real -> string)
    requires min.Some? || max.Some?
    requires forall n: nat :: n < 1_000_000 ==> show(n as real) == Itoa(n)
    requires forall n: nat :: n < 1_000_000 ==> read(Itoa(n)) == Some(n as real)
    requires (min.Some? ==> min.value < 1_000_000) && (max.Some? ==> max.value < 1_000_000)
    ensures var r := Range(if min.Some? then Some(min.value as real) else None, if max.Some? then Some(max.value as real) else None);
            Parse(Show(Some(r), show), read) == Some(Some(r))
  {
    if min.Some? {
      DigitsAreClean(min.value);
    }
    if max.Some? {
      DigitsAreClean(max.value);
    }
    RangeRoundTrip(Range(if min.Some? then Some(min.value as real) else None,
                         if max.Some? then Some(max.value as real) else None), read, show);
  }

  lemma DigitsAreClean(n: nat)
    ensures Clean(Itoa(n))
  {
    var s := Itoa(n);
    assert s[0] in s && s[|s| - 1] in s;
  }

  // How a range is printed.
  lemma ShownForms(a: real, b: real, show: real -> string)
    ensures Show(Some(Range(Some(a), Some(a))), show) == show(a)
    ensures a != b ==> Show(Some(Range(Some(a), Some(b))), show) == show(a) + "-" + show(b)
    ensures Show(Some(Range(Some(a), None)), show) == show(a) + "+"
    ensures Show(Some(Range(None, Some(b))), show) == "-" + show(b)
    ensures Show(Some(Range(None, None)), show) == "" && Show(None, show) == ""
  {
  }

  // What the forms of a range mean, for numbers written without a sign.
  lemma OneNumberForms(a: string, read: string -> Option<real>, v: real)
    requires Clean(a) && read(a).Some?
    ensures Parse(a, read).Some? && (Matches(Parse(a, read).value, v) <==> v == read(a).value)
    ensures Parse(a + "+", read).Some? && (Matches(Parse(a + "+", read).value, v) <==> v >= read(a).value)
    ensures Parse("-" + a, read).Some? && (Matches(Parse("-" + a, read).value, v) <==> v <= read(a).value)
  {
    OneBoundReadsBack(a, read);
  }

  lemma TwoNumberForm(a: string, b: string, read: string -> Option<real>, v: real)
    requires Clean(a) && Clean(b) && read(a).Some? && read(b).Some?
    ensures var r := Parse(a + "-" + b, read); r.Some? && (Matches(r.value, v) <==> read(a).value <= v <= read(b).value)
    ensures Parse("", read).Some? && Matches(Parse("", read).value, v)
  {
    BothBoundsReadBack(a, b, read);
  }

  // A bound that cannot be read, or is missing after a dash, is an error.
  lemma RangeErrors(a: string, bad: string, read: string -> Option<real>)
    requires Clean(a) && Clean(bad) && read(bad) == None && read("") == None
    ensures Parse(bad, read) == None && Parse(bad + "+", read) == None && Parse("-" + bad, read) == None
    ensures Parse(a + "-" + bad, read) == None && Parse(bad + "-" + a, read) == None
  {
    OneBoundReadsBack(bad, read);
    BothBoundsReadBack(a, bad, read);
    BothBoundsReadBack(bad, a, read);
  }

  function Abs(v: real): real {
    if v < 0.0 then -v else v
  }

  // v prints as its magnitude, after a minus sign when it is negative, and both
  // are read back.
  predicate Signed(v: Option<real>, read: string -> Option<real>, show: real -> string) {
    v.Some? ==>
      var digits := show(Abs(v.value));
      && Clean(digits) && read(digits) == Some(Abs(v.value))
      && (v.value < 0.0 ==> show(v.value) == "-" + digits && read("-" + digits) == v)
  }

  // A minus sign in front is taken for an open lower end, and a second one is
  // then an error.
  lemma DoubleMinus(d: string, read: string -> Option<real>)
    requires Clean(d) && read("") == None
    ensures Parse("-" + ("-" + d), read) == None
  {
    var s := "-" + ("-" + d);
    assert s[|s| - 1] == d[|d| - 1];
    TrimSpaceFixes(s);
    TrimSpaceFixes("");
    assert s[1..] == "" + "-" + d;
    SplitAtDash("", d);
  }

  lemma MinusPlus(d: string, read: string -> Option<real>)
    requires Clean(d)
    ensures Parse("-" + d + "+", read) == Some(Some(Range(None, None)))
  {
    var s := "-" + d + "+";
    TrimSpaceFixes(s);
    TrimSpaceFixes(d);
    TrimSpaceFixes("");
    assert s[..|s| - 1] == "" + "-" + d;
    SplitAtDash("", d);
  }

  // With two bounds, what follows the second minus sign is ignored.
  lemma LeadingMinusBoth(d: string, b: string, read: string -> Option<real>)
    requires Clean(d) && b != "" && Trimmed(b) && b[|b| - 1] != '+'
    ensures Parse("-" + d + "-" + b, read) == (if read(d).Some? then Some(Some(Range(read(d), None))) else None)
  {
    var s := "-" + d + "-" + b;
    assert s[|s| - 1] == b[|b| - 1];
    TrimSpaceFixes(s);
    assert s[1..] == d + "-" + b;
    assert Parse(s, read) == ParseBody(false, true, d + "-" + b, read);
    FirstBoundOnly(d, b, read);
  }

  lemma FirstBoundOnly(d: string, b: string, read: string -> Option<real>)
    requires Clean(d) && b != "" && Trimmed(b)
    ensures ParseBody(false, true, d + "-" + b, read) == (if read(d).Some? then Some(Some(Range(read(d), None))) else None)
  {
    TrimSpaceFixes(d);
    TrimSpaceFixes(b);
    SplitAtDash(d, b);
  }

  // A second minus sign stays with the upper bound.
  lemma NegativeMaximumReadsBack(a: string, d: string, read: string -> Option<real>)
    requires Clean(a) && Clean(d)
    ensures var x, y := read(a), read("-" + d);
            Parse(a + "-" + ("-" + d), read) == if x.Some? && y.Some? then Some(Some(Range(x, y))) else None
  {
    var b := "-" + d;
    var s := a + "-" + b;
    assert s[0] == a[0] && s[|s| - 1] == d[|d| - 1];
    TrimSpaceFixes(s);
    TrimSpaceFixes(a);
    TrimSpaceFixes(b);
    SplitAtDash(a, b);
  }

  // The bound that is printed first is not negative.
  predicate StartsPositive(r: Range) {
    if r.min.Some? then r.min.value >= 0.0 else r.max.Some? ==> r.max.value >= 0.0
  }

  // A range with a bound comes back exactly when the bound printed first is not
  // negative.
  lemma RangeRoundTripExactly(r: Range, read: string -> Option<real>, show: real -> string)
    requires Signed(r.min, read, show) && Signed(r.max, read, show) && read("") == None
    requires r.min.Some? || r.max.Some?
    ensures Parse(Show(Some(r), show), read) == Some(Some(r)) <==> StartsPositive(r)
  {
    if StartsPositive(r) {
      if r.min.Some? && r.max.Some? && r.max.value < 0.0 {
        NegativeMaximumReadsBack(show(r.min.value), show(Abs(r.max.value)), read);
      } else {
        RangeRoundTrip(r, read, show);
      }
    } else {
      MinusIsLost(r, read, show);
    }
  }

  lemma MinusIsLost(r: Range, read: string -> Option<real>, show: real -> string)
    requires Signed(r.min, read, show) && Signed(r.max, read, show) && read("") == None && !StartsPositive(r)
    ensures Parse(Show(Some(r), show), read) != Some(Some(r))
  {
    match r {
      case Range(Some(a), Some(b)) =>
        if a == b {
          OneBoundReadsBack(show(Abs(a)), read);
        } else {
          LeadingMinusBoth(show(Abs(a)), show(b), read);
        }
      case Range(Some(a), None) => MinusPlus(show(Abs(a)), read);
      case Range(None, Some(b)) => DoubleMinus(show(Abs(b)), read);
      case Range(None, None) =>
    }
  }
}
