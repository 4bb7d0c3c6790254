// Names of virtual instance types, such as "4CPU--16GB--H100:1".
module InstanceType {
  import opened Text

  datatype Shape = Shape(cpus: int, memGiB: int, gpu: string, gpuCount: int)

  const CPU := "CPU"
  const GB := "GB"
  const DASHES := "--"

  function TypeName(cpus: int, memGiB: int, gpu: string, gpuCount: int): string {
    var base := (ShowInt(cpus) + CPU) + DASHES + (ShowInt(memGiB) + GB);
    if gpuCount > 0 && gpu != "" then base + DASHES + (gpu + ":" + ShowInt(gpuCount)) else base
  }

  // strconv.Atoi with its error ignored: 0 for no number, the nearest 64-bit
  // number when out of range.
  function AtoiOrZero(s: string): int {
    var negative := s != "" && s[0] == '-';
    var digits := if s != "" && (s[0] == '-' || s[0] == '+') then s[1..] else s;
    if digits == "" || !AllDigits(digits) then 0
    else if negative then (if DigitsValue(digits) <= MAX_INT64 + 1 then -(DigitsValue(digits) as int) else -MAX_INT64 - 1)
    else if DigitsValue(digits) <= MAX_INT64 then DigitsValue(digits) else MAX_INT64
  }

  predicate DashesAt(s: string, i: int) {
    0 <= i < |s| - 1 && s[i] == '-' && s[i + 1] == '-'
  }

  predicate NoDashes(s: string) {
    forall i :: 0 <= i < |s| ==> !DashesAt(s, i)
  }

  // The index of the first "--" from i on, or -1.
  function IndexOfDashes(s: string, i: nat): (r: int)
    ensures r >= 0 ==> i <= r && DashesAt(s, r)
    ensures forall k :: i <= k && (r >= 0 ==> k < r) ==> !DashesAt(s, k)
    ensures -1 <= r
    decreases |s| - i
  {
    if i >= |s| then -1 else if DashesAt(s, i) then i else IndexOfDashes(s, i + 1)
  }

  // strings.Split(s, "--").
  function SplitDashes(s: string): (parts: seq<string>)
    ensures parts != []
  {
    var i := IndexOfDashes(s, 0);
    if i < 0 then [s] else [s[..i]] + SplitDashes(s[i + 2..])
  }

  function TrimSuffix(s: string, suffix: string): string {
    if HasSuffix(s, suffix) then s[..|s| - |suffix|] else s
  }

  // One part of the name, on top of what was read before it.
  function ReadPart(sh: Shape, raw: string): Shape {
    var part := TrimSpace(raw);
    if HasSuffix(part, CPU) then sh.(cpus := AtoiOrZero(TrimSuffix(part, CPU)))
    else if HasSuffix(part, GB) then sh.(memGiB := AtoiOrZero(TrimSuffix(part, GB)))
    else
      var i := IndexOf(part, ':');
      if i > 0 then sh.(gpu := part[..i], gpuCount := AtoiOrZero(part[i + 1..]))
      else if part != "" then sh.(gpu := part, gpuCount := 1)
      else sh
  }

  function ReadParts(parts: seq<string>): Shape {
    if parts == [] then Shape(0, 0, "", 0) else ReadPart(ReadParts(parts[..|parts| - 1]), parts[|parts| - 1])
  }

  method ParseInstanceType(instanceType: string) returns (cpus: int, memGiB: int, gpu: string, gpuCount: int)
    ensures Shape(cpus, memGiB, gpu, gpuCount) == ReadParts(SplitDashes(instanceType))
  {
    cpus, memGiB, gpu, gpuCount := 0, 0, "", 0;
    var parts := SplitDashes(instanceType);
    for k := 0 to |parts|
      invariant Shape(cpus, memGiB, gpu, gpuCount) == ReadParts(parts[..k])
    {
      assert parts[..k + 1][..k] == parts[..k];
      var part := TrimSpace(parts[k]);
      var i := IndexOf(part, ':');
      if HasSuffix(part, CPU) {
        cpus := AtoiOrZero(TrimSuffix(part, CPU));
      } else if HasSuffix(part, GB) {
        memGiB := AtoiOrZero(TrimSuffix(part, GB));
      } else if i > 0 {
        gpu := part[..i];
        gpuCount := AtoiOrZero(part[i + 1..]);
      } else if part != "" {
        gpu, gpuCount := part, 1;
      }
    }
    assert parts[..|parts|] == parts;
  }

  /******* The round trip *******/

  // A description that its name keeps: no GPU at all, or some of a kind whose
  // name is not empty and has no colon, no double dash and no leading space.
  predicate Kept(gpu: string, gpuCount: int) {
    if gpuCount == 0 then gpu == ""
    else gpuCount > 0 && gpu != "" && ':' !in gpu && NoDashes(gpu) && !IsSpace(gpu[0]) && gpuCount <= MAX_INT64
  }

  predicate Dashless(a: string) {
    NoDashes(a) && a != "" && a[|a| - 1] != '-'
  }

  lemma SplitDashesAt(a: string, rest: string)
    requires Dashless(a)
    ensures SplitDashes(a + DASHES + rest) == [a] + SplitDashes(rest)
  {
    var s := a + DASHES + rest;
    assert DashesAt(s, |a|);
    forall k | 0 <= k < |a|
      ensures !DashesAt(s, k)
    {
      assert !DashesAt(a, k);
    }
    assert IndexOfDashes(s, 0) == |a|;
    assert s[..|a|] == a && s[|a| + 2..] == rest;
  }

  lemma DigitsPlain(n: nat)
    ensures '-' !in Itoa(n) && ':' !in Itoa(n) && Itoa(n) != "" && IsDigit(Itoa(n)[0]) && IsDigit(Itoa(n)[|Itoa(n)| - 1])
  {
    var s := Itoa(n);
    assert s[0] in s && s[|s| - 1] in s;
  }

  // A printed number has at most a leading minus sign.
  lemma NumberText(n: int)
    ensures var s := ShowInt(n);
            s != "" && !IsSpace(s[0]) && s[0] != ':' && '-' !in s[1..] && IsDigit(s[|s| - 1])
  {
    if n < 0 {
      DigitsPlain(-n);
      assert ShowInt(n)[1..] == Itoa(-n);
    } else {
      DigitsPlain(n);
    }
  }

  lemma NumberReadsBack(n: int)
    requires Int64(n)
    ensures AtoiOrZero(ShowInt(n)) == n
  {
    if n < 0 {
      DigitsValueOfItoa(-n);
      assert ShowInt(n)[1..] == Itoa(-n);
    } else {
      DigitsValueOfItoa(n);
      DigitsPlain(n);
    }
  }

  lemma SuffixEnd(s: string, suffix: string)
    requires s != "" && suffix != "" && s[|s| - 1] != suffix[|suffix| - 1]
    ensures !HasSuffix(s, suffix)
  {
    assert |suffix| <= |s| ==> s[|s| - |suffix|..][|suffix| - 1] == s[|s| - 1];
  }

  // Reading the CPU and memory parts.
  lemma CpuPart(sh: Shape, n: int)
    requires Int64(n)
    ensures ReadPart(sh, ShowInt(n) + CPU) == sh.(cpus := n)
  {
    NumberText(n);
    NumberReadsBack(n);
    CpuText(sh, ShowInt(n));
  }

  lemma CpuText(sh: Shape, digits: string)
    requires digits != "" && !IsSpace(digits[0])
    ensures ReadPart(sh, digits + CPU) == sh.(cpus := AtoiOrZero(digits))
  {
    var part := digits + CPU;
    assert part[0] == digits[0] && part[|part| - 1] == 'U';
    TrimSpaceFixes(part);
    assert part[|part| - 3..] == CPU && part[..|part| - 3] == digits;
  }

  lemma MemoryPart(sh: Shape, n: int)
    requires Int64(n)
    ensures ReadPart(sh, ShowInt(n) + GB) == sh.(memGiB := n)
  {
    NumberText(n);
    NumberReadsBack(n);
    MemoryText(sh, ShowInt(n));
  }

  lemma MemoryText(sh: Shape, digits: string)
    requires digits != "" && !IsSpace(digits[0])
    ensures ReadPart(sh, digits + GB) == sh.(memGiB := AtoiOrZero(digits))
  {
    var part := digits + GB;
    assert part[0] == digits[0] && part[|part| - 1] == 'B';
    TrimSpaceFixes(part);
    SuffixEnd(part, CPU);
    assert part[|part| - 2..] == GB && part[..|part| - 2] == digits;
  }

  lemma GpuText(gpu: string, count: string)
    requires gpu != "" && !IsSpace(gpu[0]) && count != "" && IsDigit(count[|count| - 1])
    ensures var part := gpu + ":" + count;
            TrimSpace(part) == part && !HasSuffix(part, CPU) && !HasSuffix(part, GB)
  {
    var part := gpu + ":" + count;
    assert part[0] == gpu[0] && part[|part| - 1] == count[|count| - 1];
    TrimSpaceFixes(part);
    SuffixEnd(part, CPU);
    SuffixEnd(part, GB);
  }

  lemma {:induction false} FirstColon(a: string, b: string)
    requires b != "" && b[0] == ':'
    ensures IndexOf(a + b, ':') == if ':' in a then IndexOf(a, ':') else |a|
  {
    if a == "" {
      assert a + b == b;
    } else {
      assert (a + b)[1..] == a[1..] + b && a == [a[0]] + a[1..];
      FirstColon(a[1..], b);
    }
  }

  // Reading the GPU part: a colon in the name cuts it short, or makes the whole
  // part the name.
  lemma GpuPart(sh: Shape, gpu: string, count: string)
    requires gpu != "" && !IsSpace(gpu[0]) && count != "" && IsDigit(count[|count| - 1])
    ensures var r := ReadPart(sh, gpu + ":" + count);
            if ':' in gpu then r.gpu != gpu else r == sh.(gpu := gpu, gpuCount := AtoiOrZero(count))
  {
    var part := gpu + ":" + count;
    GpuText(gpu, count);
    FirstColon(gpu, ":" + count);
    assert part == gpu + (":" + count);
    var i := IndexOf(part, ':');
    assert |part[..i]| == i;
    assert part[..|gpu|] == gpu && part[|gpu| + 1..] == count;
  }

  // Reading the GPU part back.
  lemma GpuRoundTrip(sh: Shape, gpu: string, n: nat)
    requires gpu != "" && !IsSpace(gpu[0])
    ensures ReadPart(sh, gpu + ":" + Itoa(n)) == sh.(gpu := gpu, gpuCount := n) <==> ':' !in gpu && n <= MAX_INT64
  {
    DigitsPlain(n);
    GpuPart(sh, gpu, Itoa(n));
    NumberClamped(n);
  }

  lemma NumberClamped(n: nat)
    ensures AtoiOrZero(Itoa(n)) == n <==> n <= MAX_INT64
  {
    DigitsValueOfItoa(n);
    DigitsPlain(n);
  }

  lemma NamePartsPlain(a: string, b: string)
    requires Dashless(a) && Dashless(b)
    ensures SplitDashes(a + DASHES + b) == [a, b]
  {
    SplitDashesAt(a, b);
  }

  lemma NamePartsGpu(a: string, b: string, c: string)
    requires Dashless(a) && Dashless(b)
    ensures SplitDashes(a + DASHES + b + DASHES + c) == [a, b] + SplitDashes(c)
  {
    var rest := b + DASHES + c;
    assert a + DASHES + b + DASHES + c == a + DASHES + rest;
    SplitDashesAt(b, c);
    SplitDashesAt(a, rest);
    assert [a] + ([b] + SplitDashes(c)) == [a, b] + SplitDashes(c);
  }

  // No GPU name that is read has a double dash or a leading space.
  predicate Readable(gpu: string) {
    NoDashes(gpu) && (gpu != "" ==> !IsSpace(gpu[0]))
  }

  lemma {:induction false} TrimLeftNoDashes(s: string)
    requires NoDashes(s)
    ensures NoDashes(TrimLeft(s))
  {
    if s != "" && IsSpace(s[0]) {
      assert forall i :: DashesAt(s[1..], i) ==> DashesAt(s, i + 1);
      TrimLeftNoDashes(s[1..]);
    }
  }

  lemma TrimmedIsReadable(s: string)
    requires NoDashes(s)
    ensures NoDashes(TrimSpace(s)) && (TrimSpace(s) != "" ==> !IsSpace(TrimSpace(s)[0]))
  {
    TrimLeftNoDashes(s);
    var t := TrimLeft(s);
    assert forall i :: DashesAt(TrimRight(t), i) ==> DashesAt(t, i);
  }

  lemma {:induction false} PartsHaveNoDashes(s: string)
    ensures forall p <- SplitDashes(s) :: NoDashes(p)
  {
    var i := IndexOfDashes(s, 0);
    if i >= 0 {
      PartsHaveNoDashes(s[i + 2..]);
      forall k | 0 <= k < i
        ensures !DashesAt(s[..i], k)
      {
        assert !DashesAt(s, k);
      }
    }
  }

  lemma ReadPartIsReadable(sh: Shape, raw: string)
    requires Readable(sh.gpu) && NoDashes(raw)
    ensures Readable(ReadPart(sh, raw).gpu)
  {
    TrimmedIsReadable(raw);
    PrefixReadable(TrimSpace(raw), IndexOf(TrimSpace(raw), ':'));
  }

  lemma PrefixReadable(s: string, i: int)
    requires Readable(s) && i <= |s|
    ensures i > 0 ==> Readable(s[..i])
  {
    if i > 0 {
      assert forall k :: DashesAt(s[..i], k) ==> DashesAt(s, k);
    }
  }

  lemma {:induction false} ReadGpuIsReadable(parts: seq<string>)
    requires forall p <- parts :: NoDashes(p)
    ensures Readable(ReadParts(parts).gpu)
  {
    if parts != [] {
      ReadGpuIsReadable(parts[..|parts| - 1]);
      ReadPartIsReadable(ReadParts(parts[..|parts| - 1]), parts[|parts| - 1]);
    }
  }

  lemma ReadTwo(a: string, b: string, sh: Shape)
    requires ReadPart(ReadPart(Shape(0, 0, "", 0), a), b) == sh
    ensures ReadParts([a, b]) == sh
  {
    assert [a][..0] == [] && [a, b][..1] == [a];
    assert ReadParts([a]) == ReadPart(ReadParts([]), a);
  }

  lemma ReadMore(parts: seq<string>, c: string)
    ensures ReadParts(parts + [c]) == ReadPart(ReadParts(parts), c)
  {
    assert (parts + [c])[..|parts|] == parts;
  }

  lemma WholeGpuPart(gpu: string, n: nat)
    requires NoDashes(gpu)
    ensures SplitDashes(gpu + ":" + Itoa(n)) == [gpu + ":" + Itoa(n)]
  {
    DigitsPlain(n);
    var s := gpu + ":" + Itoa(n);
    forall i | 0 <= i < |s|
      ensures !DashesAt(s, i)
    {
      assert |gpu| <= i < |s| - 1 ==> s[i + 1] in Itoa(n);
      assert i < |gpu| - 1 ==> !DashesAt(gpu, i);
    }
  }

  lemma NoDashInParts(n: int)
    ensures Dashless(ShowInt(n) + CPU) && Dashless(ShowInt(n) + GB)
  {
    NumberText(n);
    DashlessWith(ShowInt(n), CPU);
    DashlessWith(ShowInt(n), GB);
  }

  lemma DashlessWith(digits: string, unit: string)
    requires digits != "" && '-' !in digits[1..] && unit != "" && '-' !in unit
    ensures Dashless(digits + unit)
  {
    var s := digits + unit;
    assert s[|s| - 1] == unit[|unit| - 1] && unit[|unit| - 1] in unit;
    forall i | 0 <= i < |s|
      ensures !DashesAt(s, i)
    {
      if i + 1 < |digits| {
        assert s[i + 1] == digits[1..][i];
      } else if i + 1 < |s| {
        assert s[i + 1] == unit[i + 1 - |digits|];
      }
    }
  }

  // What is read of the CPU and memory parts.
  lemma BaseReadsBack(a: string, b: string, cpus: int, memGiB: int)
    requires Int64(cpus) && Int64(memGiB)
    requires a == ShowInt(cpus) + CPU && b == ShowInt(memGiB) + GB
    ensures ReadParts([a, b]) == Shape(cpus, memGiB, "", 0)
  {
    CpuPart(Shape(0, 0, "", 0), cpus);
    MemoryPart(Shape(cpus, 0, "", 0), memGiB);
    ReadTwo(a, b, Shape(cpus, memGiB, "", 0));
  }

  lemma GpuNameReadsBack(a: string, b: string, gpu: string, n: nat)
    requires Dashless(a) && Dashless(b) && gpu != ""
    ensures var base := ReadParts([a, b]);
            ReadParts([a, b] + SplitDashes(gpu + ":" + Itoa(n))) == base.(gpu := gpu, gpuCount := n)
            <==> ':' !in gpu && NoDashes(gpu) && !IsSpace(gpu[0]) && n <= MAX_INT64
  {
    var c := gpu + ":" + Itoa(n);
    if Readable(gpu) {
      WholeGpuPart(gpu, n);
      ReadMore([a, b], c);
      GpuRoundTrip(ReadParts([a, b]), gpu, n);
    } else {
      PartsHaveNoDashes(c);
      ReadGpuIsReadable([a, b] + SplitDashes(c));
    }
  }

  // Parsing a printed name gives its four parts back exactly when they are kept.
  lemma TypeNameRoundTripExactly(cpus: int, memGiB: int, gpu: string, gpuCount: int)
    requires Int64(cpus) && Int64(memGiB)
    ensures ReadParts(SplitDashes(TypeName(cpus, memGiB, gpu, gpuCount))) == Shape(cpus, memGiB, gpu, gpuCount)
       <==> Kept(gpu, gpuCount)
  {
    var a, b := ShowInt(cpus) + CPU, ShowInt(memGiB) + GB;
    BaseReadsBack(a, b, cpus, memGiB);
    NoDashInParts(cpus);
    NoDashInParts(memGiB);
    if gpuCount > 0 && gpu != "" {
      NamePartsGpu(a, b, gpu + ":" + Itoa(gpuCount));
      GpuNameReadsBack(a, b, gpu, gpuCount);
    } else {
      NamePartsPlain(a, b);
    }
  }

  // What is no number is read as 0, and a number beyond 64 bits as the nearest.
  lemma BadNumbers(text: string, n: nat)
    ensures (forall c <- text :: !IsDigit(c)) ==> AtoiOrZero(text) == 0
    ensures n > MAX_INT64 ==> AtoiOrZero(Itoa(n)) == MAX_INT64
  {
    DigitsValueOfItoa(n);
    DigitsPlain(n);
    if forall c <- text :: !IsDigit(c) {
      var digits := if text != "" && (text[0] == '-' || text[0] == '+') then text[1..] else text;
      assert digits != "" ==> digits[0] in text && digits[0] in digits;
    }
  }

  // A GPU named without a count is read as one.
  lemma BareGpuIsOne(cpus: int, memGiB: int, gpu: string)
    requires Int64(cpus) && Int64(memGiB)
    requires gpu != "" && Trimmed(gpu) && NoDashes(gpu) && ':' !in gpu && !HasSuffix(gpu, CPU) && !HasSuffix(gpu, GB)
    ensures ReadParts(SplitDashes(ShowInt(cpus) + "CPU--" + ShowInt(memGiB) + "GB--" + gpu)) == Shape(cpus, memGiB, gpu, 1)
  {
    var a, b := ShowInt(cpus) + CPU, ShowInt(memGiB) + GB;
    NoDashInParts(cpus);
    NoDashInParts(memGiB);
    BaseReadsBack(a, b, cpus, memGiB);
    BareName(a, b, gpu);
    SameName(ShowInt(cpus), ShowInt(memGiB), gpu);
  }

  lemma SameName(c: string, m: string, gpu: string)
    ensures c + "CPU--" + m + "GB--" + gpu == (c + CPU) + DASHES + (m + GB) + DASHES + gpu
  {
  }

  lemma BareName(a: string, b: string, gpu: string)
    requires Dashless(a) && Dashless(b)
    requires gpu != "" && Trimmed(gpu) && NoDashes(gpu) && ':' !in gpu && !HasSuffix(gpu, CPU) && !HasSuffix(gpu, GB)
    ensures ReadParts(SplitDashes(a + DASHES + b + DASHES + gpu)) == ReadParts([a, b]).(gpu := gpu, gpuCount := 1)
  {
    NamePartsGpu(a, b, gpu);
    assert SplitDashes(gpu) == [gpu];
    ReadMore([a, b], gpu);
    BarePart(ReadParts([a, b]), gpu);
  }

  lemma BarePart(sh: Shape, gpu: string)
    requires gpu != "" && Trimmed(gpu) && ':' !in gpu && !HasSuffix(gpu, CPU) && !HasSuffix(gpu, GB)
    ensures ReadPart(sh, gpu) == sh.(gpu := gpu, gpuCount := 1)
  {
    TrimSpaceFixes(gpu);
  }
}
