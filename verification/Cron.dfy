// Schedules of jobs: the field parser and the search for the next run time.
// Instants are counted from Go's zero time, so 0 is time.Time{} itself.
module Cron {
  import opened Text
  import opened Calendar
  import Arithmetic

  /******* Fields *******/

  datatype Unit = Minute | Hour | DayOfMonth | Month | DayOfWeek

  function Lo(u: Unit): int {
    if u == DayOfMonth || u == Month then 1 else 0
  }

  function Hi(u: Unit): int {
    match u
    case Minute => 59
    case Hour => 23
    case DayOfMonth => 31
    case Month => 12
    case DayOfWeek => 6
  }

  predicate InRange(u: Unit, v: int) {
    Lo(u) <= v <= Hi(u)
  }

  // Any is the nil slice, which every value matches; an empty list matches none.
  datatype Field = Any | Values(vals: seq<int>)

  predicate Contains(f: Field, v: int) {
    f.Any? || v in f.vals
  }

  datatype Bounds = Bounds(start: int, end: int, step: int)

  // One comma-separated part: "*", "a", "a-b", each with an optional "/step".
  function PartBounds(part: string): (r: Option<Bounds>)
    ensures r.Some? ==> 1 <= r.value.step <= MAX_INT64 && r.value.end <= MAX_INT64
  {
    var slash := IndexOf(part, '/');
    var step := if slash < 0 then Some(1) else Atoi(part[slash + 1..]);
    var body := if slash < 0 then part else part[..slash];
    if step.None? || step.value < 1 then None
    else if body == "*" then Some(Bounds(0, 59, step.value))
    else
      var dash := IndexOf(body, '-');
      if dash < 0 then
        match Atoi(body)
        case None => None
        case Some(v) => Some(Bounds(v, v, step.value))
      else
        match (Atoi(body[..dash]), Atoi(body[dash + 1..]))
        case (Some(a), Some(b)) => Some(Bounds(a, b, step.value))
        case _ => None
  }

  // The values v, v+step, ... up to end; None as soon as one is out of range.
  // The addition wraps at 64 bits.
  function Expand(u: Unit, v: int, end: int, step: int): Option<seq<int>>
    requires 1 <= step <= MAX_INT64
    decreases if v < 0 then 0 else if v <= Hi(u) then Hi(u) + 2 - v else 1
  {
    if v > end then Some([])
    else if !InRange(u, v) then None
    else
      match Expand(u, WrapInt64(v + step), end, step)
      case None => None
      case Some(rest) => Some([v] + rest)
  }

  function PartValues(u: Unit, part: string): Option<seq<int>> {
    match PartBounds(part)
    case None => None
    case Some(b) => Expand(u, b.start, b.end, b.step)
  }

  function PartsValues(u: Unit, parts: seq<string>): Option<seq<int>> {
    if parts == [] then Some([])
    else
      match (PartValues(u, parts[0]), PartsValues(u, parts[1..]))
      case (Some(a), Some(b)) => Some(a + b)
      case _ => None
  }

  function FieldOf(u: Unit, field: string): Option<Field> {
    if field == "*" then Some(Any)
    else
      match PartsValues(u, Split(field, ','))
      case None => None
      case Some(vals) => Some(Values(vals))
  }

  ghost function Prepend(vals: seq<int>, rest: Option<seq<int>>): Option<seq<int>> {
    if rest.None? then None else Some(vals + rest.value)
  }

  // Appends the values of one part to vals.
  method ParsePart(u: Unit, b: Bounds, vals: seq<int>) returns (r: Option<seq<int>>)
    requires 1 <= b.step <= MAX_INT64
    ensures r == Prepend(vals, Expand(u, b.start, b.end, b.step))
  {
    var out, v := vals, b.start;
    ghost var whole := Prepend(vals, Expand(u, v, b.end, b.step));
    while v <= b.end
      invariant whole == Prepend(out, Expand(u, v, b.end, b.step))
      decreases if v < 0 then 0 else if v <= Hi(u) then Hi(u) + 2 - v else 1
    {
      if !InRange(u, v) {
        return None;
      }
      PrependAssoc(out, [v], Expand(u, WrapInt64(v + b.step), b.end, b.step));
      out, v := out + [v], WrapInt64(v + b.step);
    }
    assert out + [] == out;
    return Some(out);
  }

  lemma PrependAssoc(a: seq<int>, b: seq<int>, rest: Option<seq<int>>)
    ensures Prepend(a, Prepend(b, rest)) == Prepend(a + b, rest)
  {
    if rest.Some? {
      assert a + (b + rest.value) == (a + b) + rest.value;
    }
  }

  method ParseField(u: Unit, field: string) returns (r: Option<Field>)
    ensures r == FieldOf(u, field)
  {
    if field == "*" {
      return Some(Any);
    }
    var vals: seq<int> := [];
    var parts := Split(field, ',');
    ghost var all := PartsValues(u, parts);
    assert all.Some? ==> [] + all.value == all.value;
    assert parts[0..] == parts;
    for i := 0 to |parts|
      invariant all == Prepend(vals, PartsValues(u, parts[i..]))
    {
      assert parts[i..][0] == parts[i] && parts[i..][1..] == parts[i + 1..];
      var b := PartBounds(parts[i]);
      if b.None? {
        return None;
      }
      var more := ParsePart(u, b.value, vals);
      if more.None? {
        return None;
      }
      PrependAssoc(vals, PartValues(u, parts[i]).value, PartsValues(u, parts[i + 1..]));
      vals := more.value;
    }
    assert vals + [] == vals;
    return Some(Values(vals));
  }

  /******* What a field means *******/

  predicate InProgression(x: int, start: int, end: int, step: int)
    requires step >= 1
  {
    start <= x <= end && (x - start) % step == 0
  }

  // v is one of the values part stands for.
  predicate Denotes(part: string, v: int) {
    match PartBounds(part)
    case None => false
    case Some(b) => InProgression(v, b.start, b.end, b.step)
  }

  // The progression is accepted when all its members are in range and stepping
  // past the last one does not overflow.
  predicate Accepted(u: Unit, start: int, end: int, step: int)
    requires step >= 1
  {
    start <= end ==>
      var last := end - (end - start) % step;
      Lo(u) <= start && last <= Hi(u) && last + step <= MAX_INT64
  }

  // Only the first member and the rest of the progression matter.
  lemma AcceptedStep(u: Unit, v: int, end: int, step: int)
    requires step >= 1 && v <= end
    ensures Accepted(u, v, end, step) <==> InRange(u, v) && v + step <= MAX_INT64 && Accepted(u, v + step, end, step)
  {
    Arithmetic.StepBack(end - v, step);
    if end < v + step {
      Arithmetic.QuotientUnique(end - v, step, 0, end - v);
    }
  }

  lemma {:induction false} ExpandAccepts(u: Unit, v: int, end: int, step: int)
    requires 1 <= step <= MAX_INT64 && end <= MAX_INT64
    ensures Expand(u, v, end, step).Some? <==> Accepted(u, v, end, step)
    decreases if v < 0 then 0 else if v <= Hi(u) then Hi(u) + 2 - v else 1
  {
    if v <= end {
      AcceptedStep(u, v, end, step);
      if InRange(u, v) {
        if v + step <= MAX_INT64 {
          assert WrapInt64(v + step) == v + step;
          ExpandAccepts(u, v + step, end, step);
        } else {
          assert WrapInt64(v + step) < 0;
        }
      }
    }
  }

  lemma NextMember(x: int, v: int, end: int, step: int)
    requires step >= 1 && v <= end
    ensures InProgression(x, v, end, step) <==> x == v || InProgression(x, v + step, end, step)
  {
    Arithmetic.StepBack(x - v, step);
  }

  lemma ExpandStep(u: Unit, v: int, end: int, step: int)
    requires 1 <= step <= MAX_INT64 && v <= end <= MAX_INT64
    requires Expand(u, v, end, step).Some?
    ensures InRange(u, v) && Expand(u, v + step, end, step).Some?
    ensures Expand(u, v, end, step).value == [v] + Expand(u, v + step, end, step).value
  {
    ExpandAccepts(u, v, end, step);
    AcceptedStep(u, v, end, step);
    assert WrapInt64(v + step) == v + step;
  }

  lemma {:induction false} ExpandMembers(u: Unit, v: int, end: int, step: int, x: int)
    requires 1 <= step <= MAX_INT64 && end <= MAX_INT64
    requires Expand(u, v, end, step).Some?
    ensures x in Expand(u, v, end, step).value <==> InProgression(x, v, end, step)
    ensures x in Expand(u, v, end, step).value ==> InRange(u, x)
    decreases if v < 0 then 0 else if v <= Hi(u) then Hi(u) + 2 - v else 1
  {
    if v <= end {
      ExpandStep(u, v, end, step);
      NextMember(x, v, end, step);
      ExpandMembers(u, v + step, end, step, x);
    }
  }

  predicate PartAccepted(u: Unit, part: string) {
    match PartBounds(part)
    case None => false
    case Some(b) => Accepted(u, b.start, b.end, b.step)
  }

  lemma PartMeaning(u: Unit, part: string, x: int)
    ensures PartValues(u, part).Some? <==> PartAccepted(u, part)
    ensures PartValues(u, part).Some? ==>
              && (x in PartValues(u, part).value <==> Denotes(part, x))
              && (Denotes(part, x) ==> InRange(u, x))
  {
    var b := PartBounds(part);
    if b.Some? {
      ExpandAccepts(u, b.value.start, b.value.end, b.value.step);
      if PartValues(u, part).Some? {
        ExpandMembers(u, b.value.start, b.value.end, b.value.step, x);
      }
    }
  }

  lemma {:induction false} PartsMeaning(u: Unit, parts: seq<string>, x: int)
    ensures PartsValues(u, parts).Some? <==> forall p <- parts :: PartAccepted(u, p)
    ensures PartsValues(u, parts).Some? ==>
              && (x in PartsValues(u, parts).value <==> exists p <- parts :: Denotes(p, x))
              && (x in PartsValues(u, parts).value ==> InRange(u, x))
  {
    if parts != [] {
      PartMeaning(u, parts[0], x);
      PartsMeaning(u, parts[1..], x);
      assert parts == [parts[0]] + parts[1..];
    }
  }

  // A field is accepted exactly when every part is; it then matches exactly the
  // values that some part denotes, and those are all in the unit's range.
  lemma FieldMeaning(u: Unit, field: string, x: int)
    requires field != "*"
    ensures FieldOf(u, field).Some? <==> forall p <- Split(field, ',') :: PartAccepted(u, p)
    ensures FieldOf(u, field).Some? ==>
              && (Contains(FieldOf(u, field).value, x) <==> exists p <- Split(field, ',') :: Denotes(p, x))
              && (Contains(FieldOf(u, field).value, x) ==> InRange(u, x))
  {
    PartsMeaning(u, Split(field, ','), x);
  }

  // "*/n" always counts from 0 to 59, whatever the field: only minutes take it as
  // cron users expect; hours and weekdays take it when it names 0 alone, days
  // and months never do.
  lemma StarStep(u: Unit, n: nat)
    requires 1 <= n <= MAX_INT64
    ensures FieldOf(u, "*/" + Itoa(n)).Some? <==>
              u == Minute || ((u == Hour || u == DayOfWeek) && n >= 60)
  {
    var field := "*/" + Itoa(n);
    StarBounds(n);
    assert PartAccepted(u, field) <==> Accepted(u, 0, 59, n);
    FieldMeaning(u, field, 0);
    if n >= 60 {
      Arithmetic.QuotientUnique(59, n, 0, 59);
    } else if n >= 30 {
      Arithmetic.QuotientUnique(59, n, 1, 59 - n);
    }
  }

  // Where it is taken it means the multiples of n up to 59.
  lemma StarMeaning(u: Unit, n: nat, x: int)
    requires 1 <= n <= MAX_INT64 && FieldOf(u, "*/" + Itoa(n)).Some?
    ensures Contains(FieldOf(u, "*/" + Itoa(n)).value, x) <==> 0 <= x <= 59 && x % n == 0
  {
    StarBounds(n);
    FieldMeaning(u, "*/" + Itoa(n), x);
    assert x - 0 == x;
    assert Denotes("*/" + Itoa(n), x) <==> 0 <= x <= 59 && x % n == 0;
    assert "*/" + Itoa(n) in Split("*/" + Itoa(n), ',');
  }

  lemma StarBounds(n: nat)
    requires 1 <= n <= MAX_INT64
    ensures var field := "*/" + Itoa(n); PartBounds(field) == Some(Bounds(0, 59, n)) && Split(field, ',') == [field]
  {
    var field := "*/" + Itoa(n);
    assert field[2..] == Itoa(n) && field[..1] == "*" && IndexOf(field, '/') == 1;
    AtoiOfItoa(n);
    NoCommaIn("*/", n);
  }

  lemma NoCommaIn(prefix: string, n: nat)
    requires ',' !in prefix
    ensures Split(prefix + Itoa(n), ',') == [prefix + Itoa(n)]
  {
    assert ',' !in Itoa(n);
  }

  function ItoaAll(vals: seq<nat>): seq<string> {
    if vals == [] then [] else [Itoa(vals[0])] + ItoaAll(vals[1..])
  }

  // The value list printed with commas is read back unchanged.
  lemma ValueListRoundTrip(u: Unit, vals: seq<nat>)
    requires vals != [] && forall v <- vals :: InRange(u, v)
    ensures FieldOf(u, Join(ItoaAll(vals), ",")) == Some(Values(vals))
  {
    PrintedParts(u, vals);
    SplitJoin(ItoaAll(vals), ',');
    var field := Join(ItoaAll(vals), ",");
    StarIsNoNumber(vals[0]);
    assert field == "*" ==> Split(field, ',') == ["*"];
    assert ItoaAll(vals)[0] == Itoa(vals[0]);
  }

  lemma StarIsNoNumber(n: nat)
    ensures Itoa(n) != "*"
  {
    assert '*' !in Itoa(n);
  }

  lemma SingleValue(u: Unit, v: nat)
    requires InRange(u, v)
    ensures Expand(u, v, v, 1) == Some([v])
  {
    assert WrapInt64(v + 1) == v + 1;
    assert Expand(u, v + 1, v, 1) == Some([]);
    assert [v as int] + [] == [v];
  }

  lemma {:induction false} PrintedParts(u: Unit, vals: seq<nat>)
    requires forall v <- vals :: InRange(u, v)
    ensures |ItoaAll(vals)| == |vals|
    ensures forall p <- ItoaAll(vals) :: ',' !in p
    ensures PartsValues(u, ItoaAll(vals)) == Some(vals)
  {
    if vals != [] {
      var v := vals[0];
      PrintedParts(u, vals[1..]);
      assert ',' !in Itoa(v) && '/' !in Itoa(v) && '-' !in Itoa(v) && '*' !in Itoa(v);
      assert InRange(u, v);
      AtoiOfItoa(v);
      assert PartBounds(Itoa(v)) == Some(Bounds(v, v, 1));
      SingleValue(u, v);
      assert PartValues(u, Itoa(v)) == Some([v]);
      assert [v] + vals[1..] == vals;
    }
  }

  /******* Schedules *******/

  datatype Schedule = Schedule(minute: Field, hour: Field, dom: Field, month: Field, dow: Field)

  // A printed range "a-b", with or without a step "/n".
  datatype Span = Span(a: nat, b: nat, step: Option<nat>)

  function SpanText(s: Span): string {
    match s.step
    case None => Itoa(s.a) + "-" + Itoa(s.b)
    case Some(n) => Itoa(s.a) + "-" + Itoa(s.b) + "/" + Itoa(n)
  }

  function StepOf(s: Span): nat {
    if s.step.None? then 1 else s.step.value
  }

  // Every (StepOf)th number from a up to b.
  predicate InSpan(x: int, s: Span) {
    s.a <= x <= s.b && StepOf(s) >= 1 && (x - s.a) % StepOf(s) == 0
  }

  // A range as a task would give it; one that ends before it starts is empty.
  predicate GoodSpan(u: Unit, s: Span) {
    && StepOf(s) >= 1 && s.a <= MAX_INT64 && s.b + StepOf(s) <= MAX_INT64
    && (s.a <= s.b ==> InRange(u, s.a) && InRange(u, s.b))
  }

  lemma NumberText(n: nat)
    ensures '-' !in Itoa(n) && '/' !in Itoa(n) && ',' !in Itoa(n) && '*' !in Itoa(n)
  {
  }

  lemma DashBetween(a: nat, b: nat)
    ensures var body := Itoa(a) + "-" + Itoa(b);
            && IndexOf(body, '-') == |Itoa(a)| && body[..|Itoa(a)|] == Itoa(a) && body[|Itoa(a)| + 1..] == Itoa(b)
            && body != "*" && '/' !in body && ',' !in body
  {
    NumberText(a);
    NumberText(b);
    FirstIndex(Itoa(a), '-', Itoa(b));
    assert (Itoa(a) + "-" + Itoa(b))[|Itoa(a)|] == '-';
  }

  lemma PlainBounds(a: nat, b: nat)
    requires a <= MAX_INT64 && b <= MAX_INT64
    ensures PartBounds(Itoa(a) + "-" + Itoa(b)) == Some(Bounds(a, b, 1))
  {
    DashBetween(a, b);
    AtoiOfItoa(a);
    AtoiOfItoa(b);
  }

  lemma SlashAfter(body: string, n: nat)
    requires '/' !in body
    ensures var part := body + "/" + Itoa(n);
            IndexOf(part, '/') == |body| && part[..|body|] == body && part[|body| + 1..] == Itoa(n)
  {
    FirstIndex(body, '/', Itoa(n));
  }

  lemma SteppedBounds(a: nat, b: nat, n: nat)
    requires a <= MAX_INT64 && b <= MAX_INT64 && 1 <= n <= MAX_INT64
    ensures PartBounds(Itoa(a) + "-" + Itoa(b) + "/" + Itoa(n)) == Some(Bounds(a, b, n))
  {
    DashBetween(a, b);
    SlashAfter(Itoa(a) + "-" + Itoa(b), n);
    AtoiOfItoa(a);
    AtoiOfItoa(b);
    AtoiOfItoa(n);
  }

  lemma SpanBounds(s: Span)
    requires StepOf(s) >= 1 && s.a <= MAX_INT64 && s.b <= MAX_INT64 && StepOf(s) <= MAX_INT64
    ensures PartBounds(SpanText(s)) == Some(Bounds(s.a, s.b, StepOf(s)))
  {
    match s.step {
      case None => PlainBounds(s.a, s.b);
      case Some(n) => SteppedBounds(s.a, s.b, n);
    }
  }

  lemma SpanHasNoComma(s: Span)
    ensures ',' !in SpanText(s)
  {
    NumberText(s.a);
    NumberText(s.b);
    if s.step.Some? {
      NumberText(s.step.value);
    }
  }

  lemma RemainderFits(x: nat, m: int)
    requires m >= 1
    ensures 0 <= x % m <= x
  {
    if x < m {
      Arithmetic.QuotientUnique(x, m, 0, x);
    }
  }

  lemma SpanAccepted(u: Unit, s: Span)
    requires GoodSpan(u, s)
    ensures PartAccepted(u, SpanText(s))
    ensures forall x :: Denotes(SpanText(s), x) <==> InSpan(x, s)
  {
    SpanBounds(s);
    if s.a <= s.b {
      RemainderFits(s.b - s.a, StepOf(s));
    }
    assert Accepted(u, s.a, s.b, StepOf(s));
  }

  function SpanTexts(spans: seq<Span>): (r: seq<string>)
    ensures |r| == |spans| && forall i :: 0 <= i < |spans| ==> r[i] == SpanText(spans[i])
  {
    seq(|spans|, i requires 0 <= i < |spans| => SpanText(spans[i]))
  }

  // A printed list of ranges is accepted and matches exactly the union of them.
  lemma SpansMeaning(u: Unit, spans: seq<Span>, x: int)
    requires spans != [] && forall s <- spans :: GoodSpan(u, s)
    ensures var f := FieldOf(u, Join(SpanTexts(spans), ","));
            f.Some? && (Contains(f.value, x) <==> exists s <- spans :: InSpan(x, s))
  {
    var texts := SpanTexts(spans);
    var field := Join(texts, ",");
    forall i | 0 <= i < |spans|
      ensures ',' !in texts[i] && PartAccepted(u, texts[i])
      ensures forall y :: Denotes(texts[i], y) <==> InSpan(y, spans[i])
    {
      assert spans[i] in spans;
      SpanBounds(spans[i]);
      SpanHasNoComma(spans[i]);
      SpanAccepted(u, spans[i]);
    }
    SplitJoin(texts, ',');
    NotStar(texts);
    FieldMeaning(u, field, x);
    if s :| s in spans && InSpan(x, s) {
      var i :| 0 <= i < |spans| && spans[i] == s;
      assert Denotes(texts[i], x) && texts[i] in texts;
    }
  }

  lemma NotStar(texts: seq<string>)
    requires texts != [] && Split(Join(texts, ","), ',') == texts && PartBounds(texts[0]).Some?
    ensures texts[0] != "*" ==> Join(texts, ",") != "*"
  {
    assert Split("*", ',') == ["*"];
  }

  lemma SingleBounds(v: nat)
    requires v <= MAX_INT64
    ensures PartBounds(Itoa(v)) == Some(Bounds(v, v, 1)) && Split(Itoa(v), ',') == [Itoa(v)] && Itoa(v) != "*"
  {
    NumberText(v);
    AtoiOfItoa(v);
    StarIsNoNumber(v);
  }

  lemma SteppedNumberBounds(v: nat, n: nat)
    requires v <= MAX_INT64 && 1 <= n <= MAX_INT64
    ensures var text := Itoa(v) + "/" + Itoa(n);
            PartBounds(text) == Some(Bounds(v, v, n)) && ',' !in text && text != "*"
  {
    var text := Itoa(v) + "/" + Itoa(n);
    NumberText(v);
    NumberText(n);
    SlashAfter(Itoa(v), n);
    AtoiOfItoa(v);
    AtoiOfItoa(n);
    StarIsNoNumber(v);
    assert text[|Itoa(v)|] == '/';
  }

  // A single number with a step is that number alone.
  lemma SteppedNumber(u: Unit, v: nat, n: nat, x: int)
    requires InRange(u, v) && 1 <= n && v + n <= MAX_INT64
    ensures var f := FieldOf(u, Itoa(v) + "/" + Itoa(n)); f.Some? && (Contains(f.value, x) <==> x == v)
  {
    SteppedNumberBounds(v, n);
    SinglePart(u, Itoa(v) + "/" + Itoa(n), v, n, x);
  }

  lemma SinglePart(u: Unit, text: string, v: int, n: int, x: int)
    requires InRange(u, v) && 1 <= n && v + n <= MAX_INT64
    requires PartBounds(text) == Some(Bounds(v, v, n)) && ',' !in text && text != "*"
    ensures var f := FieldOf(u, text); f.Some? && (Contains(f.value, x) <==> x == v)
  {
    assert Split(text, ',') == [text];
    assert Accepted(u, v, v, n);
    FieldMeaning(u, text, x);
  }

  // The numbers each field takes.
  lemma UnitRanges(u: Unit, v: nat)
    requires v < MAX_INT64
    ensures u == Minute ==> (FieldOf(u, Itoa(v)).Some? <==> v <= 59)
    ensures u == Hour ==> (FieldOf(u, Itoa(v)).Some? <==> v <= 23)
    ensures u == DayOfMonth ==> (FieldOf(u, Itoa(v)).Some? <==> 1 <= v <= 31)
    ensures u == Month ==> (FieldOf(u, Itoa(v)).Some? <==> 1 <= v <= 12)
    ensures u == DayOfWeek ==> (FieldOf(u, Itoa(v)).Some? <==> v <= 6)
  {
    SingleBounds(v);
    assert PartAccepted(u, Itoa(v)) <==> Accepted(u, v, v, 1);
    FieldMeaning(u, Itoa(v), 0);
  }

  // A parsed specification: cron fields, or "@every" with its duration.
  datatype Plan = Every(duration: int) | Fields5(sched: Schedule)

  const UNITS := [Minute, Hour, DayOfMonth, Month, DayOfWeek]

  function ExpandMacro(spec: string): string {
    if spec == "@minutely" then "* * * * *"
    else if spec == "@hourly" then "0 * * * *"
    else if spec == "@daily" || spec == "@midnight" then "0 0 * * *"
    else if spec == "@weekly" then "0 0 * * 0"
    else if spec == "@monthly" then "0 0 1 * *"
    else spec
  }

  // The duration parser of "@every" is a parameter.
  function PlanOf(spec: string, duration: string -> Option<int>): Option<Plan> {
    if spec == "" then None
    else if HasPrefix(spec, "@every ") then
      match duration(TrimSpace(spec[7..]))
      case None => None
      case Some(d) => Some(Every(d))
    else
      var fs := Fields(ExpandMacro(spec));
      if |fs| != 5 then None
      else
        match (FieldOf(Minute, fs[0]), FieldOf(Hour, fs[1]), FieldOf(DayOfMonth, fs[2]),
               FieldOf(Month, fs[3]), FieldOf(DayOfWeek, fs[4]))
        case (Some(mi), Some(h), Some(d), Some(mo), Some(w)) => Some(Fields5(Schedule(mi, h, d, mo, w)))
        case _ => None
  }

  method ParseSchedule(spec: string, duration: string -> Option<int>) returns (r: Option<Plan>)
    ensures r == PlanOf(spec, duration)
  {
    if spec == "" {
      return None;
    }
    if HasPrefix(spec, "@every ") {
      var d := duration(TrimSpace(spec[7..]));
      return if d.None? then None else Some(Every(d.value));
    }
    var fs := Fields(ExpandMacro(spec));
    if |fs| != 5 {
      return None;
    }
    var s := Schedule(Any, Any, Any, Any, Any);
    for i := 0 to 5
      invariant i >= 1 ==> FieldOf(Minute, fs[0]) == Some(s.minute)
      invariant i >= 2 ==> FieldOf(Hour, fs[1]) == Some(s.hour)
      invariant i >= 3 ==> FieldOf(DayOfMonth, fs[2]) == Some(s.dom)
      invariant i >= 4 ==> FieldOf(Month, fs[3]) == Some(s.month)
      invariant i >= 5 ==> FieldOf(DayOfWeek, fs[4]) == Some(s.dow)
    {
      var vals := ParseField(UNITS[i], fs[i]);
      if vals.None? {
        return None;
      }
      match i {
        case 0 => s := s.(minute := vals.value);
        case 1 => s := s.(hour := vals.value);
        case 2 => s := s.(dom := vals.value);
        case 3 => s := s.(month := vals.value);
        case _ => s := s.(dow := vals.value);
      }
    }
    return Some(Fields5(s));
  }

  // Five words separated by spaces are the minute, the hour, the day of the month,
  // the month and the day of the week.
  lemma FieldsInOrder(minute: string, hour: string, dom: string, month: string, dow: string, duration: string -> Option<int>)
    requires Word(minute) && Word(hour) && Word(dom) && Word(month) && Word(dow) && minute[0] != '@'
    ensures var plan := PlanOf(Join([minute, hour, dom, month, dow], " "), duration);
            && (plan.Some? <==> FieldOf(Minute, minute).Some? && FieldOf(Hour, hour).Some? && FieldOf(DayOfMonth, dom).Some?
                                && FieldOf(Month, month).Some? && FieldOf(DayOfWeek, dow).Some?)
            && (plan.Some? ==>
                  && plan.value.Fields5?
                  && Some(plan.value.sched.minute) == FieldOf(Minute, minute)
                  && Some(plan.value.sched.hour) == FieldOf(Hour, hour)
                  && Some(plan.value.sched.dom) == FieldOf(DayOfMonth, dom)
                  && Some(plan.value.sched.month) == FieldOf(Month, month)
                  && Some(plan.value.sched.dow) == FieldOf(DayOfWeek, dow))
  {
    var fs := [minute, hour, dom, month, dow];
    FieldsJoin(fs);
    StartsWithFirst(fs);
    NoMacro(Join(fs, " "));
  }

  // Any other number of words is refused.
  lemma FiveOrNothing(fs: seq<string>, duration: string -> Option<int>)
    requires |fs| != 5 && forall f <- fs :: Word(f)
    requires fs != [] ==> fs[0] != "" && fs[0][0] != '@'
    ensures PlanOf(Join(fs, " "), duration) == None
  {
    if fs != [] {
      FieldsJoin(fs);
      NoMacro(Join(fs, " "));
    }
  }

  // "@every" is followed by a duration, with any space around it.
  lemma EveryDuration(text: string, duration: string -> Option<int>)
    ensures var d := duration(TrimSpace(text));
            PlanOf("@every " + text, duration) == if d.Some? then Some(Every(d.value)) else None
  {
    var spec := "@every " + text;
    assert spec[..7] == "@every " && spec[7..] == text;
  }

  lemma StartsWithFirst(fs: seq<string>)
    requires |fs| > 1 && fs[0] != ""
    ensures Join(fs, " ") != "" && Join(fs, " ")[0] == fs[0][0]
  {
  }

  lemma NoMacro(spec: string)
    requires spec != "" && spec[0] != '@'
    ensures ExpandMacro(spec) == spec && !HasPrefix(spec, "@every ")
  {
    assert "@minutely"[0] == "@hourly"[0] == "@daily"[0] == "@midnight"[0] == '@';
    assert "@weekly"[0] == "@monthly"[0] == "@every "[0] == '@';
  }

  /******* Matching and searching *******/

  // t counts minutes.
  predicate Match(s: Schedule, t: nat) {
    var date := DateOf(t / 1440);
    && Contains(s.minute, t % 60)
    && Contains(s.hour, t / 60 % 24)
    && Contains(s.month, date.month)
    && Contains(s.dow, WeekdayOf(t / 1440))
    && Contains(s.dom, date.day)
  }

  /******* The macros *******/

  lemma FieldOfZeroAndOne(u: Unit)
    requires u != Month
    ensures u != DayOfMonth ==> FieldOf(u, "0") == Some(Values([0]))
    ensures FieldOf(u, "1") == Some(Values([1])) && FieldOf(u, "*") == Some(Any)
  {
    NumberReadsBack(u, 1, "1");
    if u != DayOfMonth {
      NumberReadsBack(u, 0, "0");
    }
  }

  lemma NumberReadsBack(u: Unit, v: nat, text: string)
    requires InRange(u, v) && text == Itoa(v)
    ensures FieldOf(u, text) == Some(Values([v]))
  {
    ValueListRoundTrip(u, [v]);
    assert ItoaAll([v])[1..] == [];
    assert Join(ItoaAll([v]), ",") == Itoa(v);
  }

  // The text of five fields.
  function Spaced(minute: string, hour: string, dom: string, month: string, dow: string): string {
    Join([minute, hour, dom, month, dow], " ")
  }

  lemma SpacedText(minute: string, hour: string, dom: string, month: string, dow: string)
    ensures Spaced(minute, hour, dom, month, dow) == minute + " " + hour + " " + dom + " " + month + " " + dow
  {
    var fs := [minute, hour, dom, month, dow];
    assert fs[1..] == [hour, dom, month, dow] && fs[1..][1..] == [dom, month, dow];
    assert fs[1..][1..][1..] == [month, dow] && fs[1..][1..][1..][1..] == [dow];
    assert Join([month, dow], " ") == month + " " + dow;
    assert Join([dom, month, dow], " ") == dom + " " + (month + " " + dow);
    assert Join([hour, dom, month, dow], " ") == hour + " " + (dom + " " + (month + " " + dow));
    var rest := dom + " " + (month + " " + dow);
    assert rest == dom + " " + month + " " + dow;
    assert minute + " " + (hour + " " + rest) == minute + " " + hour + " " + rest;
    assert minute + " " + hour + " " + rest == minute + " " + hour + " " + dom + " " + month + " " + dow;
  }

  lemma NotEvery(spec: string)
    requires |spec| > 1 && spec[1] != 'e'
    ensures !HasPrefix(spec, "@every ")
  {
    assert "@every "[1] == 'e';
  }

  lemma SameAsExpanded(spec: string, minute: string, hour: string, dom: string, dow: string, duration: string -> Option<int>)
    requires spec != "" && !HasPrefix(spec, "@every ") && ExpandMacro(spec) == Spaced(minute, hour, dom, "*", dow)
    requires minute != "" && minute[0] != '@'
    ensures PlanOf(spec, duration) == PlanOf(Spaced(minute, hour, dom, "*", dow), duration)
  {
    StartsWithFirst([minute, hour, dom, "*", dow]);
    NoMacro(Spaced(minute, hour, dom, "*", dow));
  }

  // What a macro stands for, by its five fields.
  lemma MacroFields(spec: string, minute: string, hour: string, dom: string, dow: string, duration: string -> Option<int>)
    requires |spec| > 1 && spec[1] != 'e' && ExpandMacro(spec) == Spaced(minute, hour, dom, "*", dow)
    requires minute in {"0", "*"} && hour in {"0", "*"} && dom in {"1", "*"} && dow in {"0", "*"}
    ensures PlanOf(spec, duration) ==
              Some(Fields5(Schedule(if minute == "0" then Values([0]) else Any, if hour == "0" then Values([0]) else Any,
                                    if dom == "1" then Values([1]) else Any, Any, if dow == "0" then Values([0]) else Any)))
  {
    NotEvery(spec);
    SameAsExpanded(spec, minute, hour, dom, dow, duration);
    FieldsInOrder(minute, hour, dom, "*", dow, duration);
    assert FieldOf(Month, "*") == Some(Any);
    FieldOfZeroAndOne(Minute);
    FieldOfZeroAndOne(Hour);
    FieldOfZeroAndOne(DayOfMonth);
    FieldOfZeroAndOne(DayOfWeek);
  }

  predicate RunsAt(spec: string, t: nat, duration: string -> Option<int>) {
    var plan := PlanOf(spec, duration);
    plan.Some? && plan.value.Fields5? && Match(plan.value.sched, t)
  }

  // The minutes at which each macro runs.
  lemma Minutely(t: nat, duration: string -> Option<int>)
    ensures RunsAt("@minutely", t, duration)
  {
    SpacedText("*", "*", "*", "*", "*");
    assert "@minutely"[1] == 'm';
    MacroFields("@minutely", "*", "*", "*", "*", duration);
  }

  lemma Hourly(t: nat, duration: string -> Option<int>)
    ensures RunsAt("@hourly", t, duration) <==> t % 60 == 0
  {
    SpacedText("0", "*", "*", "*", "*");
    assert "@hourly"[1] == 'h';
    MacroFields("@hourly", "0", "*", "*", "*", duration);
  }

  lemma Daily(t: nat, duration: string -> Option<int>)
    ensures RunsAt("@daily", t, duration) <==> t % 60 == 0 && t / 60 % 24 == 0
  {
    SpacedText("0", "0", "*", "*", "*");
    assert "@daily"[1] == 'd';
    MacroFields("@daily", "0", "0", "*", "*", duration);
  }

  lemma Midnight(t: nat, duration: string -> Option<int>)
    ensures RunsAt("@midnight", t, duration) <==> t % 60 == 0 && t / 60 % 24 == 0
  {
    SpacedText("0", "0", "*", "*", "*");
    assert "@midnight"[1] == 'm';
    MacroFields("@midnight", "0", "0", "*", "*", duration);
  }

  lemma Weekly(t: nat, duration: string -> Option<int>)
    ensures RunsAt("@weekly", t, duration) <==> t % 60 == 0 && t / 60 % 24 == 0 && WeekdayOf(t / 1440) == 0
  {
    SpacedText("0", "0", "*", "*", "0");
    assert "@weekly"[1] == 'w';
    MacroFields("@weekly", "0", "0", "*", "0", duration);
  }

  lemma Monthly(t: nat, duration: string -> Option<int>)
    ensures RunsAt("@monthly", t, duration) <==> t % 60 == 0 && t / 60 % 24 == 0 && DateOf(t / 1440).day == 1
  {
    SpacedText("0", "0", "1", "*", "*");
    assert "@monthly"[1] == 'm';
    MacroFields("@monthly", "0", "0", "1", "*", duration);
  }

  const HORIZON: nat := 5 * 365 * 24 * 60

  function Search(s: Schedule, candidate: nat, tries: nat): nat
    decreases tries
  {
    if tries == 0 then 0
    else if Match(s, candidate) then candidate
    else Search(s, candidate + 1, tries - 1)
  }

  // The next run after an instant given in seconds, in minutes; 0 is "never".
  function NextMinute(s: Schedule, from: nat): nat {
    var horizon := HORIZON;
    Search(s, from / 60 + 1, horizon)
  }

  method Next(s: Schedule, from: nat) returns (r: nat)
    ensures r == NextMinute(s, from)
  {
    var candidate := from / 60 + 1;
    var horizon := HORIZON;
    for i := 0 to horizon
      invariant candidate == from / 60 + 1 + i
      invariant NextMinute(s, from) == Search(s, candidate, horizon - i)
    {
      if Match(s, candidate) {
        return candidate;
      }
      candidate := candidate + 1;
    }
    return 0;
  }

  lemma {:induction false} SearchIsLeast(s: Schedule, candidate: nat, tries: nat)
    requires candidate > 0
    ensures var r := Search(s, candidate, tries);
            && (r == 0 <==> forall t: nat :: candidate <= t < candidate + tries ==> !Match(s, t))
            && (r != 0 ==> candidate <= r < candidate + tries && Match(s, r))
            && (forall t: nat :: candidate <= t < r ==> !Match(s, t))
    decreases tries
  {
    if tries > 0 && !Match(s, candidate) {
      SearchIsLeast(s, candidate + 1, tries - 1);
    }
  }

  // The result is the first matching minute after from, or 0 exactly when none
  // of the following 2628000 minutes matches.
  lemma NextIsLeast(s: Schedule, from: nat)
    ensures var r := NextMinute(s, from);
            && (r == 0 <==> forall t: nat :: from / 60 < t <= from / 60 + HORIZON ==> !Match(s, t))
            && (r != 0 ==> from < r * 60 && r <= from / 60 + HORIZON && Match(s, r))
            && (forall t: nat :: from / 60 < t < r ==> !Match(s, t))
  {
    var horizon := HORIZON;
    SearchIsLeast(s, from / 60 + 1, horizon);
  }

  // Later starts never give an earlier run, and every start before the next run
  // gives that same run.
  lemma NextMonotone(s: Schedule, from1: nat, from2: nat)
    requires from1 <= from2
    requires NextMinute(s, from1) != 0
    ensures NextMinute(s, from2) != 0 ==> NextMinute(s, from1) <= NextMinute(s, from2)
    ensures from2 < NextMinute(s, from1) * 60 ==> NextMinute(s, from2) == NextMinute(s, from1)
  {
    NextIsLeast(s, from1);
    NextIsLeast(s, from2);
  }
}
