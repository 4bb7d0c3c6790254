// A writer that cuts a stream of bytes into lines, however it is chunked.
module LineWriter {
  import opened Text

  const NEWLINE := '\n'

  function TrimCR(s: string): (r: string)
    ensures r <= s && (r != "" ==> r[|r| - 1] != '\r')
    ensures forall i :: |r| <= i < |s| ==> s[i] == '\r'
  {
    if s != "" && s[|s| - 1] == '\r' then TrimCR(s[..|s| - 1]) else s
  }

  // What is forwarded of one line.
  function Line(s: string): seq<string> {
    if TrimCR(s) == "" then [] else [TrimCR(s)]
  }

  datatype State = State(buf: string, emitted: seq<string>)

  // One byte at a time: a newline closes the line.
  function Put(st: State, c: char): State {
    if c == NEWLINE then State("", st.emitted + Line(st.buf)) else State(st.buf + [c], st.emitted)
  }

  function After(st: State, text: string): State
    decreases |text|
  {
    if text == "" then st else After(Put(st, text[0]), text[1..])
  }

  class Writer {
    const streaming: bool
    var buf: string
    var emitted: seq<string>

    predicate Valid()
      reads this
    {
      NEWLINE !in buf
    }

    constructor (streaming: bool)
      ensures Valid() && this.streaming == streaming && buf == "" && emitted == []
    {
      this.streaming := streaming;
      buf, emitted := "", [];
    }

    // Without a stream to forward to, the lines are dropped.
    method Write(p: string) returns (n: nat)
      requires Valid()
      modifies this
      ensures Valid() && n == |p|
      ensures var st := After(State(old(buf), old(emitted)), p);
              buf == st.buf && emitted == if streaming then st.emitted else old(emitted)
    {
      ghost var st := After(State(old(buf), old(emitted)), p);
      AfterPlain(State("", emitted), buf);
      AfterAppend(State("", emitted), buf, p);
      assert "" + buf == buf;
      buf := buf + p;
      ghost var lines := emitted;
      while true
        invariant After(State("", lines), buf) == st
        invariant emitted == if streaming then lines else old(emitted)
        decreases |buf|
      {
        var i := IndexOf(buf, NEWLINE);
        if i < 0 {
          break;
        }
        var line := TrimCR(buf[..i]);
        FirstLine(lines, buf, i);
        lines := lines + Line(buf[..i]);
        buf := buf[i + 1..];
        if streaming && line != "" {
          emitted := emitted + [line];
        }
      }
      AfterPlain(State("", lines), buf);
      assert "" + buf == buf;
      return |p|;
    }
  }

  lemma {:induction false} AfterAppend(st: State, a: string, b: string)
    ensures After(st, a + b) == After(After(st, a), b)
    decreases |a|
  {
    if a == "" {
      assert a + b == b;
    } else {
      assert (a + b)[0] == a[0] && (a + b)[1..] == a[1..] + b;
      AfterAppend(Put(st, a[0]), a[1..], b);
    }
  }

  lemma {:induction false} AfterPlain(st: State, run: string)
    requires NEWLINE !in run
    ensures After(st, run) == State(st.buf + run, st.emitted)
    decreases |run|
  {
    if run == "" {
      assert st.buf + run == st.buf;
    } else {
      AfterPlain(Put(st, run[0]), run[1..]);
      assert st.buf + [run[0]] + run[1..] == st.buf + run;
    }
  }

  lemma ClosedLine(st: State, rest: string)
    ensures After(st, [NEWLINE] + rest) == After(State("", st.emitted + Line(st.buf)), rest)
  {
    assert ([NEWLINE] + rest)[1..] == rest;
  }

  lemma FirstLine(lines: seq<string>, text: string, i: nat)
    requires i < |text| && text[i] == NEWLINE && NEWLINE !in text[..i]
    ensures After(State("", lines), text) == After(State("", lines + Line(text[..i])), text[i + 1..])
  {
    var line, rest := text[..i], text[i + 1..];
    assert text == line + ([NEWLINE] + rest);
    AfterAppend(State("", lines), line, [NEWLINE] + rest);
    AfterPlain(State("", lines), line);
    assert "" + line == line;
    ClosedLine(State(line, lines), rest);
  }

  /******* Whole streams *******/

  // Some lines, each closed by a newline, and then an unfinished one.
  function Closed(lines: seq<string>, tail: string): string {
    if lines == [] then tail else lines[0] + [NEWLINE] + Closed(lines[1..], tail)
  }

  function Forwarded(lines: seq<string>): seq<string> {
    if lines == [] then [] else Line(lines[0]) + Forwarded(lines[1..])
  }

  // A text of closed lines and an unfinished one forwards the former in order,
  // trimmed and without the empty ones, and holds back the latter.
  lemma {:induction false} LinesOfText(before: seq<string>, lines: seq<string>, tail: string)
    requires NEWLINE !in tail && forall l <- lines :: NEWLINE !in l
    ensures After(State("", before), Closed(lines, tail)) == State(tail, before + Forwarded(lines))
    decreases |lines|
  {
    if lines == [] {
      AfterPlain(State("", before), tail);
      assert "" + tail == tail && before + [] == before;
    } else {
      var text := Closed(lines, tail);
      var n := |lines[0]|;
      assert text[..n] == lines[0] && text[n] == NEWLINE && text[n + 1..] == Closed(lines[1..], tail);
      FirstLine(before, text, n);
      LinesOfText(before + Line(lines[0]), lines[1..], tail);
      assert before + (Line(lines[0]) + Forwarded(lines[1..])) == before + Line(lines[0]) + Forwarded(lines[1..]);
    }
  }

  function Concat(chunks: seq<string>): string {
    if chunks == [] then "" else chunks[0] + Concat(chunks[1..])
  }

  function Writes(st: State, chunks: seq<string>): State
    decreases |chunks|
  {
    if chunks == [] then st else Writes(After(st, chunks[0]), chunks[1..])
  }

  method WriteAll(chunks: seq<string>) returns (buf: string, emitted: seq<string>)
    ensures State(buf, emitted) == Writes(State("", []), chunks)
  {
    var w := new Writer(true);
    assert chunks[0..] == chunks;
    for i := 0 to |chunks|
      invariant fresh(w) && w.Valid() && w.streaming
      invariant Writes(State(w.buf, w.emitted), chunks[i..]) == Writes(State("", []), chunks)
    {
      assert chunks[i..][0] == chunks[i] && chunks[i..][1..] == chunks[i + 1..];
      var n := w.Write(chunks[i]);
    }
    return w.buf, w.emitted;
  }

  lemma {:induction false} WritesConcatenate(st: State, chunks: seq<string>)
    ensures Writes(st, chunks) == After(st, Concat(chunks))
    decreases |chunks|
  {
    if chunks != [] {
      WritesConcatenate(After(st, chunks[0]), chunks[1..]);
      AfterAppend(st, chunks[0], Concat(chunks[1..]));
    }
  }

  // However a stream is cut into writes, its closed lines are forwarded and the
  // text after its last newline is held.
  lemma ChunkInvariance(lines: seq<string>, tail: string, chunks: seq<string>)
    requires NEWLINE !in tail && forall l <- lines :: NEWLINE !in l
    requires Concat(chunks) == Closed(lines, tail)
    ensures Writes(State("", []), chunks) == State(tail, Forwarded(lines))
  {
    WritesConcatenate(State("", []), chunks);
    LinesOfText([], lines, tail);
    assert [] + Forwarded(lines) == Forwarded(lines);
  }

  // Every stream is of that shape.
  lemma {:induction false} EveryText(text: string) returns (lines: seq<string>, tail: string)
    ensures text == Closed(lines, tail) && NEWLINE !in tail && forall l <- lines :: NEWLINE !in l
    decreases |text|
  {
    var i := IndexOf(text, NEWLINE);
    if i < 0 {
      lines, tail := [], text;
    } else {
      lines, tail := EveryText(text[i + 1..]);
      lines := [text[..i]] + lines;
    }
  }

  /******* Single lines *******/

  // A line is forwarded without the carriage returns at its end, n of them, and
  // not at all when nothing else is left.
  lemma {:induction false} CarriageReturns(line: string, n: nat)
    requires line == "" || line[|line| - 1] != '\r'
    ensures TrimCR(line + seq(n, i => '\r')) == line
    ensures Line(line + seq(n, i => '\r')) == if line == "" then [] else [line]
  {
    var s := line + seq(n, i => '\r');
    if n > 0 {
      assert s[..|s| - 1] == line + seq(n - 1, i => '\r');
      CarriageReturns(line, n - 1);
    } else {
      assert s == line;
    }
  }
}
