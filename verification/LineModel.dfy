/** Docker log lines: a byte-at-a-time splitter as the specification of the incremental
    one, and what both emit for a byte string however it is cut into Writes. */
module LineModel {
  import opened Base

  const NEWLINE: Byte := 10
  const CARRIAGE_RETURN: Byte := 13
  const SPACE: Byte := 32

  /** maxDockerLogLineSize. */
  const LIMIT: nat := 0x10_0000

  /** A line as it is emitted: its content before the truncation suffix, and the mark. */
  datatype Line = Line(content: seq<Byte>, truncated: bool)

  // ----- one line -----

  function TrimRightCR(s: seq<Byte>): (r: seq<Byte>)
    ensures r <= s && (r == [] || r[|r| - 1] != CARRIAGE_RETURN)
    ensures forall i :: |r| <= i < |s| ==> s[i] == CARRIAGE_RETURN
  {
    if s != [] && s[|s| - 1] == CARRIAGE_RETURN then TrimRightCR(s[..|s| - 1]) else s
  }

  /** The white space outside ASCII that UTF-8 encodes in three bytes. */
  predicate IsWideSpace(a: Byte, b: Byte, c: Byte) {
    || (a == 0xE1 && b == 0x9A && c == 0x80)
    || (a == 0xE2 && b == 0x80 && (0x80 <= c <= 0x8A || c == 0xA8 || c == 0xA9 || c == 0xAF))
    || (a == 0xE2 && b == 0x81 && c == 0x9F)
    || (a == 0xE3 && b == 0x80 && c == 0x80)
  }

  /** `bytes.TrimSpace` leaves nothing. */
  predicate IsBlank(s: seq<Byte>) {
    || s == []
    || ((9 <= s[0] <= 13 || s[0] == SPACE) && IsBlank(s[1..]))
    || (|s| >= 2 && s[0] == 0xC2 && (s[1] == 0x85 || s[1] == 0xA0) && IsBlank(s[2..]))
    || (|s| >= 3 && IsWideSpace(s[0], s[1], s[2]) && IsBlank(s[3..]))
  }

  /** The encodings of one white-space character. */
  predicate IsSpaceCharacter(c: seq<Byte>) {
    || (|c| == 1 && (9 <= c[0] <= 13 || c[0] == SPACE))
    || (|c| == 2 && c[0] == 0xC2 && (c[1] == 0x85 || c[1] == 0xA0))
    || (|c| == 3 && IsWideSpace(c[0], c[1], c[2]))
  }

  /** They are the encodings of the white-space code points, and no others. */
  lemma SpaceByCodePoint(c: seq<Byte>)
    ensures IsSpaceCharacter(c) <==> exists u: nat | u < 0x11_0000 :: IsSpaceCode(u) && c == Utf8(u)
  {
    if IsSpaceCharacter(c) {
      var u := CodeOfSpace(c);
    }
    forall u: nat | u < 0x11_0000 && IsSpaceCode(u) ensures IsSpaceCharacter(Utf8(u)) {
      SpaceOfCode(u);
    }
  }

  lemma CodeOfSpace(c: seq<Byte>) returns (u: nat)
    requires IsSpaceCharacter(c)
    ensures u < 0x11_0000 && IsSpaceCode(u) && c == Utf8(u)
  {
    u := if |c| == 1 then c[0]
         else if |c| == 2 then c[1]
         else ((c[0] as int - 0xE0) * 64 + (c[1] as int - 0x80)) * 64 + (c[2] as int - 0x80);
  }

  lemma SpaceOfCode(u: nat)
    requires u < 0x11_0000 && IsSpaceCode(u)
    ensures IsSpaceCharacter(Utf8(u))
  {
  }

  ghost predicate AllSpaces(chars: seq<seq<Byte>>) {
    forall c :: c in chars ==> IsSpaceCharacter(c)
  }

  /** Blank is: nothing but white-space characters, one after the other. */
  lemma {:induction false} BlankMeansSpaces(s: seq<Byte>)
    ensures IsBlank(s) <==> exists chars: seq<seq<Byte>> :: AllSpaces(chars) && Concat(chars) == s
  {
    if IsBlank(s) {
      var chars := SpacesOf(s);
    }
    forall chars: seq<seq<Byte>> | AllSpaces(chars) && Concat(chars) == s ensures IsBlank(s) {
      SpacesAreBlank(chars);
    }
  }

  lemma {:induction false} SpacesOf(s: seq<Byte>) returns (chars: seq<seq<Byte>>)
    requires IsBlank(s)
    ensures AllSpaces(chars) && Concat(chars) == s
    decreases |s|
  {
    chars := [];
    if s != [] {
      var n := if s[0] < 0x80 then 1 else if s[0] == 0xC2 then 2 else 3;
      var rest := SpacesOf(s[n..]);
      chars := [s[..n]] + rest;
      assert chars[1..] == rest;
    }
  }

  lemma {:induction false} SpacesAreBlank(chars: seq<seq<Byte>>)
    requires AllSpaces(chars)
    ensures IsBlank(Concat(chars))
  {
    if chars != [] {
      SpacesAreBlank(chars[1..]);
      assert chars[0] in chars;
      assert Concat(chars)[|chars[0]|..] == Concat(chars[1..]);
    }
  }

  function Emit(buffer: seq<Byte>, truncated: bool): seq<Line> {
    if IsBlank(TrimRightCR(buffer)) then [] else [Line(TrimRightCR(buffer), truncated)]
  }

  // ----- byte at a time -----

  datatype Pending = Pending(buffer: seq<Byte>, truncated: bool)

  const EMPTY: Pending := Pending([], false)

  predicate Fits(p: Pending) {
    |p.buffer| <= LIMIT && (p.truncated ==> |p.buffer| == LIMIT)
  }

  /** A byte, and whether it is the first of its Write. */
  datatype Input = Input(byte: Byte, first: bool)

  datatype Result = Result(pending: Pending, lines: seq<Line>)

  /** A full buffer counts as truncated as soon as another Write begins. */
  function Cut(p: Pending, first: bool): Pending {
    if first && |p.buffer| >= LIMIT then p.(truncated := true) else p
  }

  function FeedByte(p: Pending, x: Input): Result {
    var q := Cut(p, x.first);
    if x.byte == NEWLINE then Result(EMPTY, Emit(q.buffer, q.truncated))
    else if q.truncated then Result(q, [])
    else if |q.buffer| < LIMIT then Result(q.(buffer := q.buffer + [x.byte]), [])
    else Result(q.(truncated := true), [])
  }

  function Feed(p: Pending, xs: seq<Input>): Result
    decreases |xs|
  {
    if xs == [] then Result(p, [])
    else
      var r := FeedByte(p, xs[0]);
      var rest := Feed(r.pending, xs[1..]);
      Result(rest.pending, r.lines + rest.lines)
  }

  lemma {:induction false} FeedConcat(p: Pending, xs: seq<Input>, ys: seq<Input>)
    ensures var r := Feed(p, xs); var rest := Feed(r.pending, ys);
            Feed(p, xs + ys) == Result(rest.pending, r.lines + rest.lines)
    decreases |xs|
  {
    if xs == [] {
      assert xs + ys == ys;
    } else {
      assert (xs + ys)[1..] == xs[1..] + ys;
      FeedConcat(FeedByte(p, xs[0]).pending, xs[1..], ys);
    }
  }

  /** The bytes of one Write. */
  function Marked(chunk: seq<Byte>): seq<Input> {
    seq(|chunk|, i requires 0 <= i < |chunk| => Input(chunk[i], i == 0))
  }

  function Unmarked(bytes: seq<Byte>): seq<Input> {
    seq(|bytes|, i requires 0 <= i < |bytes| => Input(bytes[i], false))
  }

  function MarkAll(chunks: seq<seq<Byte>>): seq<Input> {
    if chunks == [] then [] else Marked(chunks[0]) + MarkAll(chunks[1..])
  }

  function Flush(p: Pending): seq<Line> {
    if p.buffer == [] then [] else Emit(p.buffer, p.truncated)
  }

  /** What the handler sees of the given Writes followed by a Flush. */
  function Output(chunks: seq<seq<Byte>>): seq<Line> {
    var r := Feed(EMPTY, MarkAll(chunks));
    r.lines + Flush(r.pending)
  }

  // ----- the lines of a byte string -----

  function BytesOf(xs: seq<Input>): seq<Byte> {
    seq(|xs|, i requires 0 <= i < |xs| => xs[i].byte)
  }

  /** Where the first newline is, or the length. */
  function LineEnd(s: seq<Byte>): (n: nat)
    ensures n <= |s|
  {
    if s == [] || s[0] == NEWLINE then 0 else 1 + LineEnd(s[1..])
  }

  lemma {:induction false} LineEndIsFirst(s: seq<Byte>)
    ensures NEWLINE !in s[..LineEnd(s)]
    ensures LineEnd(s) < |s| ==> s[LineEnd(s)] == NEWLINE
  {
    if s != [] && s[0] != NEWLINE {
      LineEndIsFirst(s[1..]);
      assert s[..LineEnd(s)] == [s[0]] + s[1..][..LineEnd(s[1..])];
    }
  }

  /** The newline-separated lines; what follows the last newline is a line if not empty. */
  function SplitLines(s: seq<Byte>): seq<seq<Byte>> {
    var n := LineEnd(s);
    if n == |s| then (if s == [] then [] else [s]) else [s[..n]] + SplitLines(s[n + 1..])
  }

  /** For each of those lines, whether its newline is the first byte of a Write. */
  function LateNewlines(xs: seq<Input>): seq<bool> {
    var n := LineEnd(BytesOf(xs));
    if n == |xs| then (if xs == [] then [] else [false]) else [xs[n].first] + LateNewlines(xs[n + 1..])
  }

  function Cap(line: seq<Byte>): seq<Byte> {
    if |line| > LIMIT then line[..LIMIT] else line
  }

  /** The mark falls on lines longer than the limit, and on those of exactly the limit
      whose newline came late. */
  function EmitLine(line: seq<Byte>, late: bool): seq<Line> {
    Emit(Cap(line), |line| > LIMIT || (|line| == LIMIT && late))
  }

  function EmitLines(lines: seq<seq<Byte>>, late: seq<bool>): seq<Line>
    requires |lines| == |late|
  {
    if lines == [] then [] else EmitLine(lines[0], late[0]) + EmitLines(lines[1..], late[1..])
  }

  // ----- proofs -----

  lemma {:induction false} MarkAllBytes(chunks: seq<seq<Byte>>)
    ensures BytesOf(MarkAll(chunks)) == Concat(chunks)
  {
    if chunks != [] {
      MarkAllBytes(chunks[1..]);
      assert BytesOf(MarkAll(chunks)) == BytesOf(Marked(chunks[0])) + BytesOf(MarkAll(chunks[1..]));
      assert BytesOf(Marked(chunks[0])) == chunks[0];
    }
  }

  lemma {:induction false} LateNewlinesLength(xs: seq<Input>)
    ensures |LateNewlines(xs)| == |SplitLines(BytesOf(xs))|
    decreases |xs|
  {
    hide LineEnd;
    var n := LineEnd(BytesOf(xs));
    if n < |xs| {
      var rest := xs[n + 1..];
      assert BytesOf(xs)[n + 1..] == BytesOf(rest);
      LateNewlinesLength(rest);
      assert |LateNewlines(xs)| == 1 + |LateNewlines(rest)|;
      assert |SplitLines(BytesOf(xs))| == 1 + |SplitLines(BytesOf(rest))|;
    }
  }

  /** Bytes without a newline only pile up, to the limit. */
  lemma {:induction false} FeedWithoutNewline(line: seq<Byte>, xs: seq<Input>)
    requires NEWLINE !in BytesOf(xs)
    ensures Feed(Pending(Cap(line), |line| > LIMIT), xs)
         == Result(Pending(Cap(line + BytesOf(xs)), |line| + |xs| > LIMIT), [])
    decreases |xs|
  {
    if xs == [] {
      assert line + BytesOf(xs) == line;
    } else {
      var p := Pending(Cap(line), |line| > LIMIT);
      assert BytesOf(xs)[0] == xs[0].byte;
      var line' := line + [xs[0].byte];
      assert FeedByte(p, xs[0]) == Result(Pending(Cap(line'), |line'| > LIMIT), []);
      assert BytesOf(xs[1..]) == BytesOf(xs)[1..];
      FeedWithoutNewline(line', xs[1..]);
      assert line' + BytesOf(xs[1..]) == line + BytesOf(xs);
    }
  }

  lemma FeedLastLine(xs: seq<Input>)
    requires NEWLINE !in BytesOf(xs)
    ensures var r := Feed(EMPTY, xs);
            r.lines + Flush(r.pending) == if xs == [] then [] else EmitLine(BytesOf(xs), false)
  {
    hide Feed;
    FeedWithoutNewline([], xs);
    assert [] + BytesOf(xs) == BytesOf(xs) && Cap([]) == [];
    assert |BytesOf(xs)| == |xs|;
  }

  lemma FeedOneLine(line: seq<Input>, end: Input, rest: seq<Input>)
    requires NEWLINE !in BytesOf(line) && end.byte == NEWLINE
    ensures Feed(EMPTY, line + [end] + rest)
         == Result(Feed(EMPTY, rest).pending, EmitLine(BytesOf(line), end.first) + Feed(EMPTY, rest).lines)
  {
    FeedWithoutNewline([], line);
    assert [] + BytesOf(line) == BytesOf(line) && Cap([]) == [];
    assert |BytesOf(line)| == |line|;
    var p := Feed(EMPTY, line).pending;
    FeedConcat(EMPTY, line, [end] + rest);
    assert line + [end] + rest == line + ([end] + rest);
    assert FeedByte(p, end) == Result(EMPTY, EmitLine(BytesOf(line), end.first));
    assert ([end] + rest)[1..] == rest;
  }

  /** The splitter fed byte by byte emits the newline-separated lines. */
  lemma {:induction false} FeedSplitsLines(xs: seq<Input>)
    ensures |LateNewlines(xs)| == |SplitLines(BytesOf(xs))|
    ensures var r := Feed(EMPTY, xs);
            r.lines + Flush(r.pending) == EmitLines(SplitLines(BytesOf(xs)), LateNewlines(xs))
    decreases |xs|
  {
    hide Feed, EmitLine, Flush, LineEnd;
    LateNewlinesLength(xs);
    var bytes := BytesOf(xs);
    var n := LineEnd(bytes);
    LineEndIsFirst(bytes);
    assert bytes[..|xs|] == bytes;
    if n == |xs| {
      FeedLastLine(xs);
      EmitOneLine(bytes, false);
    } else {
      var rest := xs[n + 1..];
      assert xs == xs[..n] + [xs[n]] + rest;
      assert BytesOf(xs[..n]) == bytes[..n] && bytes[n + 1..] == BytesOf(rest);
      FeedOneLine(xs[..n], xs[n], rest);
      FeedSplitsLines(rest);
      EmitFirstLine(bytes[..n], SplitLines(BytesOf(rest)), xs[n].first, LateNewlines(rest));
    }
  }

  lemma EmitOneLine(line: seq<Byte>, late: bool)
    ensures EmitLines([line], [late]) == EmitLine(line, late)
  {
    EmitFirstLine(line, [], late, []);
    assert [line] + [] == [line] && [late] + [] == [late];
  }

  lemma EmitFirstLine(line: seq<Byte>, lines: seq<seq<Byte>>, late: bool, lates: seq<bool>)
    requires |lines| == |lates|
    ensures EmitLines([line] + lines, [late] + lates) == EmitLine(line, late) + EmitLines(lines, lates)
  {
    assert ([line] + lines)[1..] == lines && ([late] + lates)[1..] == lates;
  }

  // ----- theorems -----

  /** For every cut of the input into Writes, what the handler sees is the lines of the
      whole input, each capped, trimmed and dropped if blank, marked as `EmitLine` says. */
  lemma OutputIsLines(chunks: seq<seq<Byte>>)
    ensures |LateNewlines(MarkAll(chunks))| == |SplitLines(Concat(chunks))|
    ensures Output(chunks) == EmitLines(SplitLines(Concat(chunks)), LateNewlines(MarkAll(chunks)))
  {
    MarkAllBytes(chunks);
    FeedSplitsLines(MarkAll(chunks));
  }

  /** The lines are what they are called: no newline inside, and joined they give the
      input back, but for the newline at its end if it has one. */
  function Join(lines: seq<seq<Byte>>): seq<Byte> {
    if lines == [] then [] else lines[0] + [NEWLINE] + Join(lines[1..])
  }

  lemma {:induction false} SplitLinesJoin(s: seq<Byte>)
    ensures forall line :: line in SplitLines(s) ==> NEWLINE !in line
    ensures Join(SplitLines(s)) == if s == [] || s[|s| - 1] == NEWLINE then s else s + [NEWLINE]
    decreases |s|
  {
    hide LineEnd;
    var n := LineEnd(s);
    LineEndIsFirst(s);
    if n < |s| {
      SplitLinesJoin(s[n + 1..]);
      assert s == s[..n] + [NEWLINE] + s[n + 1..];
    } else if s != [] {
      assert s == s[..n];
    }
  }

  /** Byte `p` of the input is the first of a Write. */
  predicate OpensAWrite(chunks: seq<seq<Byte>>, p: nat) {
    exists k :: 0 <= k < |chunks| && chunks[k] != [] && |Concat(chunks[..k])| == p
  }

  lemma {:induction false} FirstOpensAWrite(chunks: seq<seq<Byte>>, p: nat)
    ensures (p < |MarkAll(chunks)| && MarkAll(chunks)[p].first) <==> OpensAWrite(chunks, p)
  {
    if chunks != [] {
      var n, rest := |chunks[0]|, chunks[1..];
      assert chunks[..0] == [];
      if p < n {
        forall k | 0 < k < |chunks| ensures |Concat(chunks[..k])| >= n { assert chunks[..k][0] == chunks[0]; }
      } else {
        FirstOpensAWrite(rest, p - n);
        assert |MarkAll(chunks)| == n + |MarkAll(rest)|;
        forall k | 0 < k < |chunks| ensures |Concat(chunks[..k])| == n + |Concat(rest[..k - 1])| {
          assert chunks[..k][1..] == rest[..k - 1];
        }
        forall k | 0 <= k < |rest| ensures rest[k] == chunks[k + 1] { }
        if OpensAWrite(rest, p - n) {
          var k :| 0 <= k < |rest| && rest[k] != [] && |Concat(rest[..k])| == p - n;
          assert chunks[k + 1] != [] && |Concat(chunks[..k + 1])| == p;
        }
        if OpensAWrite(chunks, p) {
          var k :| 0 <= k < |chunks| && chunks[k] != [] && |Concat(chunks[..k])| == p;
          if k > 0 {
            assert rest[k - 1] != [] && |Concat(rest[..k - 1])| == p - n;
          }
        }
      }
    }
  }

  /** Where in the input the newline of line `i` is, or would be. */
  function NewlineOf(lines: seq<seq<Byte>>, i: nat): nat
    requires i < |lines|
  {
    |lines[i]| + if i == 0 then 0 else NewlineOf(lines, i - 1) + 1
  }

  lemma {:induction false} NewlineOfShift(line: seq<Byte>, lines: seq<seq<Byte>>, i: nat)
    requires i < |lines|
    ensures NewlineOf([line] + lines, i + 1) == |line| + 1 + NewlineOf(lines, i)
  {
    if i > 0 {
      NewlineOfShift(line, lines, i - 1);
    }
  }

  lemma {:induction false} LateIsFirst(xs: seq<Input>, i: nat)
    requires i < |LateNewlines(xs)|
    ensures |LateNewlines(xs)| == |SplitLines(BytesOf(xs))|
    ensures var p := NewlineOf(SplitLines(BytesOf(xs)), i);
            LateNewlines(xs)[i] <==> p < |xs| && xs[p].first
    decreases |xs|
  {
    hide LineEnd;
    LateNewlinesLength(xs);
    var bytes := BytesOf(xs);
    var n := LineEnd(bytes);
    SplitLengths(bytes);
    if n < |xs| {
      var rest := xs[n + 1..];
      assert bytes[n + 1..] == BytesOf(rest);
      assert LateNewlines(xs) == [xs[n].first] + LateNewlines(rest);
      if i > 0 {
        LateIsFirst(rest, i - 1);
        NewlineOfShift(bytes[..n], SplitLines(BytesOf(rest)), i - 1);
      }
    }
  }

  /** At most 1 MiB of a line is looked at. */
  function Head(line: seq<Byte>): seq<Byte> {
    line[..Min(|line|, 0x10_0000)]
  }

  predicate Dropped(line: seq<Byte>) {
    IsBlank(TrimRightCR(Head(line)))
  }

  /** What the handler gets of a line. */
  predicate Shows(out: Line, line: seq<Byte>, late: bool) {
    && out.content == TrimRightCR(Head(line))
    && (out.truncated <==> |line| > 0x10_0000 || (|line| == 0x10_0000 && late))
  }

  lemma EmitLineShows(line: seq<Byte>, late: bool)
    ensures if Dropped(line) then EmitLine(line, late) == []
            else |EmitLine(line, late)| == 1 && Shows(EmitLine(line, late)[0], line, late)
  {
    assert Head(line) == Cap(line);
  }

  /** Of the first `n` lines those at `at`, and no others, are shown, in order. */
  ghost predicate ShowsFirst(out: seq<Line>, lines: seq<seq<Byte>>, late: seq<bool>, at: seq<nat>, n: nat)
    requires |lines| == |late| && n <= |lines|
  {
    && |out| == |at|
    && (forall j, k :: 0 <= j < k < |at| ==> at[j] < at[k])
    && (forall k :: 0 <= k < |at| ==> at[k] < n && Shows(out[k], lines[at[k]], late[at[k]]))
    && (forall k :: 0 <= k < |at| ==> !Dropped(lines[at[k]]))
    && (forall i :: 0 <= i < n && !Dropped(lines[i]) ==> i in at)
  }

  lemma ShowsOneMore(out: seq<Line>, lines: seq<seq<Byte>>, late: seq<bool>, at: seq<nat>, n: nat, last: Line)
    requires |lines| == |late| && n < |lines| && ShowsFirst(out, lines, late, at, n)
    ensures Dropped(lines[n]) ==> ShowsFirst(out, lines, late, at, n + 1)
    ensures !Dropped(lines[n]) && Shows(last, lines[n], late[n]) ==>
              ShowsFirst(out + [last], lines, late, at + [n], n + 1)
  {
    hide Dropped, Shows;
    if !Dropped(lines[n]) {
      assert (at + [n])[|at|] == n;
      forall i | i in at ensures i in at + [n] { }
    }
  }

  lemma {:induction false} EmitLinesSnoc(lines: seq<seq<Byte>>, late: seq<bool>, line: seq<Byte>, l: bool)
    requires |lines| == |late|
    ensures EmitLines(lines + [line], late + [l]) == EmitLines(lines, late) + EmitLine(line, l)
  {
    hide EmitLine;
    if lines == [] {
      assert [] + [line] == [line] && [] + [l] == [l];
      EmitOneLine(line, l);
    } else {
      assert (lines + [line])[1..] == lines[1..] + [line] && (late + [l])[1..] == late[1..] + [l];
      EmitLinesSnoc(lines[1..], late[1..], line, l);
    }
  }

  lemma {:induction false} EmittedLines(lines: seq<seq<Byte>>, late: seq<bool>, n: nat) returns (at: seq<nat>)
    requires |lines| == |late| && n <= |lines|
    ensures ShowsFirst(EmitLines(lines[..n], late[..n]), lines, late, at, n)
  {
    hide Dropped, Shows, EmitLine;
    at := [];
    if n > 0 {
      var m := n - 1;
      at := EmittedLines(lines, late, m);
      hide ShowsFirst;
      TakeOneMore(lines, m);
      TakeOneMore(late, m);
      EmitLinesSnoc(lines[..m], late[..m], lines[m], late[m]);
      EmitLineShows(lines[m], late[m]);
      var out, last := EmitLines(lines[..m], late[..m]), EmitLine(lines[m], late[m]);
      if Dropped(lines[m]) {
        assert out + last == out;
        ShowsOneMore(out, lines, late, at, m, Line([], false));
      } else {
        assert last == [last[0]];
        ShowsOneMore(out, lines, late, at, m, last[0]);
        at := at + [m];
      }
    }
  }

  /** The output, line by line.  For every cut of the input into Writes the handler gets the
      lines of the input that are not blank, once each and in order.  What it gets of a line
      is its first 1 MiB without carriage returns at the end, marked as truncated exactly
      when the line is longer, or just as long with a newline that opens a Write. */
  lemma OutputLineByLine(chunks: seq<seq<Byte>>) returns (at: seq<nat>)
    ensures var out, lines := Output(chunks), SplitLines(Concat(chunks));
            && |out| == |at| && (forall j, k :: 0 <= j < k < |at| ==> at[j] < at[k])
            && (forall i :: 0 <= i < |lines| ==> (i in at <==> !Dropped(lines[i])))
            && (forall k :: 0 <= k < |at| ==> at[k] < |lines|)
            && forall k :: 0 <= k < |at| ==>
                 Shows(out[k], lines[at[k]], OpensAWrite(chunks, NewlineOf(lines, at[k])))
  {
    hide Dropped, Shows, EmitLines, SplitLines, LateNewlines, Output, OpensAWrite;
    OutputIsLines(chunks);
    MarkAllBytes(chunks);
    var lines, late := SplitLines(Concat(chunks)), LateNewlines(MarkAll(chunks));
    at := EmittedLines(lines, late, |lines|);
    assert lines[..|lines|] == lines && late[..|late|] == late;
    forall k | 0 <= k < |at| ensures late[at[k]] <==> OpensAWrite(chunks, NewlineOf(lines, at[k])) {
      LateIsFirst(MarkAll(chunks), at[k]);
      FirstOpensAWrite(chunks, NewlineOf(lines, at[k]));
    }
  }

  /** An ordinary line in one Write: unmarked, or cut at 1 MiB and marked. */
  lemma OneLineInOneWrite(line: seq<Byte>)
    requires 10 !in line
    ensures var c := line[..Min(|line|, 0x10_0000)];
            Output([line + [10]]) == if IsBlank(TrimRightCR(c)) then [] else [Line(TrimRightCR(c), |line| > 0x10_0000)]
  {
    hide IsBlank, TrimRightCR, LineEnd, Feed, EmitLine, Flush;
    var xs := Marked(line + [10]);
    var xline, end := xs[..|line|], xs[|line|];
    SingleChunk(line + [10]);
    assert BytesOf(xline) == line;
    assert xs == xline + [end] + [];
    FeedOneLine(xline, end, []);
    NothingFed();
    OrdinaryLine(line, end.first);
  }

  lemma NothingFed()
    ensures Feed(EMPTY, []) == Result(EMPTY, []) && Flush(EMPTY) == []
  {
  }

  lemma OrdinaryLine(line: seq<Byte>, late: bool)
    requires late ==> line == []
    ensures var c := line[..Min(|line|, 0x10_0000)];
            EmitLine(line, late) == if IsBlank(TrimRightCR(c)) then [] else [Line(TrimRightCR(c), |line| > 0x10_0000)]
  {
    assert line[..|line|] == line;
  }

  function Contents(lines: seq<Line>): seq<seq<Byte>> {
    seq(|lines|, i requires 0 <= i < |lines| => lines[i].content)
  }

  lemma ContentsConcat(a: seq<Line>, b: seq<Line>)
    ensures Contents(a + b) == Contents(a) + Contents(b)
  {
  }

  lemma EmitLineContents(line: seq<Byte>, late: bool, late': bool)
    ensures Contents(EmitLine(line, late)) == Contents(EmitLine(line, late'))
    ensures |line| != LIMIT || IsBlank(TrimRightCR(line)) ==> EmitLine(line, late) == EmitLine(line, late')
  {
  }

  lemma {:induction false} EmitLinesContents(lines: seq<seq<Byte>>, late: seq<bool>, late': seq<bool>)
    requires |lines| == |late| == |late'|
    ensures Contents(EmitLines(lines, late)) == Contents(EmitLines(lines, late'))
    ensures (forall i :: 0 <= i < |lines| ==>
              late[i] == late'[i] || |lines[i]| != LIMIT || IsBlank(TrimRightCR(lines[i]))) ==>
              EmitLines(lines, late) == EmitLines(lines, late')
  {
    hide EmitLine, Contents, IsBlank, TrimRightCR;
    if lines != [] {
      var ls, l, l' := lines[1..], late[1..], late'[1..];
      EmitLinesContents(ls, l, l');
      EmitLineContents(lines[0], late[0], late'[0]);
      ContentsConcat(EmitLine(lines[0], late[0]), EmitLines(ls, l));
      ContentsConcat(EmitLine(lines[0], late'[0]), EmitLines(ls, l'));
    }
  }

  /** Chunk independence: the contents never depend on how the input was cut into Writes. */
  lemma ChunksDoNotMatter(a: seq<seq<Byte>>, b: seq<seq<Byte>>)
    requires Concat(a) == Concat(b)
    ensures Contents(Output(a)) == Contents(Output(b))
    ensures (forall i :: !ExactLine(Concat(a), i)) ==> Output(a) == Output(b)
  {
    hide EmitLines, SplitLines, LateNewlines, IsBlank, TrimRightCR;
    var s := Concat(a);
    OutputIsLines(a);
    OutputIsLines(b);
    MarkAllBytes(a);
    MarkAllBytes(b);
    var lines, la, lb := SplitLines(s), LateNewlines(MarkAll(a)), LateNewlines(MarkAll(b));
    EmitLinesContents(lines, la, lb);
    if forall i :: !ExactLine(s, i) {
      forall i | 0 <= i < |lines| && la[i] != lb[i]
        ensures |lines[i]| != LIMIT || IsBlank(TrimRightCR(lines[i]))
      {
        assert !ExactLine(s, i);
        if la[i] { LateIsTerminated(MarkAll(a), i); } else { LateIsTerminated(MarkAll(b), i); }
      }
    }
  }

  predicate IsTerminated(s: seq<Byte>, i: nat) {
    i + 1 < |SplitLines(s)| || (s != [] && s[|s| - 1] == NEWLINE)
  }

  /** Line `i` ends in a newline, has exactly the limit and is not dropped as blank. */
  predicate ExactLine(s: seq<Byte>, i: nat) {
    i < |SplitLines(s)| && |SplitLines(s)[i]| == LIMIT && !IsBlank(TrimRightCR(SplitLines(s)[i])) && IsTerminated(s, i)
  }

  lemma {:induction false} LateIsTerminated(xs: seq<Input>, i: nat)
    requires i < |LateNewlines(xs)| && LateNewlines(xs)[i]
    ensures IsTerminated(BytesOf(xs), i)
    decreases |xs|
  {
    hide LineEnd;
    var bytes := BytesOf(xs);
    var n := LineEnd(bytes);
    LineEndIsFirst(bytes);
    var rest := xs[n + 1..];
    assert bytes[n + 1..] == BytesOf(rest);
    LateNewlinesLength(rest);
    if i > 0 {
      LateIsTerminated(rest, i - 1);
    } else if rest != [] {
      SplitLengths(bytes);
      assert SplitLines(BytesOf(rest)) != [];
    }
  }

  /** A whole line of `s`, newline excluded, starts at `at`. */
  predicate LineAt(s: seq<Byte>, at: nat, line: seq<Byte>) {
    && at + |line| < |s| && s[at..at + |line|] == line && s[at + |line|] == NEWLINE
    && (at == 0 || s[at - 1] == NEWLINE)
  }

  lemma ShiftLine(s: seq<Byte>, n: nat, at: nat, line: seq<Byte>)
    requires n < |s| && s[n] == NEWLINE && LineAt(s[n + 1..], at, line)
    ensures LineAt(s, n + 1 + at, line)
  {
    assert s[n + 1 + at..n + 1 + at + |line|] == s[n + 1..][at..at + |line|];
  }

  lemma {:induction false} LineInContext(s: seq<Byte>, i: nat) returns (at: nat)
    requires i < |SplitLines(s)| && IsTerminated(s, i)
    ensures LineAt(s, at, SplitLines(s)[i]) && NEWLINE !in SplitLines(s)[i]
    decreases i
  {
    hide SplitLines, LineEnd, LineAt;
    var n := LineEnd(s);
    SplitOne(s, i);
    LineEndIsFirst(s);
    if i == 0 {
      at := 0;
      FirstLineAt(s, n);
    } else {
      var line, rest := SplitLines(s)[i], s[n + 1..];
      assert line == SplitLines(rest)[i - 1];
      at := LineInContext(rest, i - 1);
      ShiftLine(s, n, at, line);
      at := n + 1 + at;
    }
  }

  lemma FirstLineAt(s: seq<Byte>, n: nat)
    requires n < |s| && s[n] == NEWLINE
    ensures LineAt(s, 0, s[..n])
  {
  }

  lemma SplitOne(s: seq<Byte>, i: nat)
    requires i < |SplitLines(s)| && IsTerminated(s, i)
    ensures var n := LineEnd(s); n < |s| && SplitLines(s) == [s[..n]] + SplitLines(s[n + 1..])
    ensures i > 0 ==> IsTerminated(s[LineEnd(s) + 1..], i - 1)
  {
    hide SplitLines, LineEnd;
    if s != [] && s[|s| - 1] == NEWLINE { NewlineLast(s); }
    SplitLengths(s);
    NothingToSplit();
    var rest := s[LineEnd(s) + 1..];
    assert rest != [] ==> rest[|rest| - 1] == s[|s| - 1];
  }

  lemma NothingToSplit()
    ensures SplitLines([]) == []
  {
  }

  lemma NewlineLast(s: seq<Byte>)
    requires s != [] && s[|s| - 1] == NEWLINE
    ensures LineEnd(s) < |s|
  {
    LineEndIsFirst(s);
    assert s[..|s|] == s && NEWLINE in s;
  }

  lemma SplitLengths(s: seq<Byte>)
    ensures var n := LineEnd(s);
            n == |s| ==> |SplitLines(s)| <= 1
    ensures var n := LineEnd(s);
            n < |s| ==> SplitLines(s) == [s[..n]] + SplitLines(s[n + 1..])
  {
    hide LineEnd;
  }

  lemma FeedEndsEmpty(xs: seq<Input>)
    requires xs == [] || xs[|xs| - 1].byte == NEWLINE
    ensures Feed(EMPTY, xs).pending == EMPTY
  {
    if xs != [] {
      var init, last := xs[..|xs| - 1], xs[|xs| - 1];
      assert xs == init + [last];
      FeedConcat(EMPTY, init, [last]);
      assert [last][1..] == [];
    }
  }

  /** After whole lines, a line and its newline, the output splits at that line. */
  lemma OutputAround(pre: seq<Input>, line: seq<Input>, end: Input, post: seq<Input>, chunks: seq<seq<Byte>>)
    requires pre == [] || pre[|pre| - 1].byte == NEWLINE
    requires NEWLINE !in BytesOf(line) && end.byte == NEWLINE
    requires MarkAll(chunks) == pre + (line + [end] + post)
    ensures Output(chunks) == Feed(EMPTY, pre).lines + EmitLine(BytesOf(line), end.first)
                              + (Feed(EMPTY, post).lines + Flush(Feed(EMPTY, post).pending))
  {
    hide Feed, EmitLine, Flush;
    FeedEndsEmpty(pre);
    FeedConcat(EMPTY, pre, line + [end] + post);
    FeedOneLine(line, end, post);
  }

  /** A terminated line of exactly the limit is marked exactly when its newline opens a
      Write, so the same bytes have two outputs. */
  lemma ExactLineDependsOnChunks(s: seq<Byte>, i: nat) returns (chunks: seq<seq<Byte>>)
    requires ExactLine(s, i)
    ensures Concat(chunks) == s && Output(chunks) != Output([s])
  {
    hide Feed, Flush, IsBlank, TrimRightCR;
    var line := SplitLines(s)[i];
    var at := LineInContext(s, i);
    var end := at + LIMIT;
    chunks := [s[..end], s[end..]];
    TwoChunks(s[..end], s[end..]);
    SingleChunk(s);
    var xpre, xline, tail := Marked(s)[..at], Marked(s)[at..end], Unmarked(s[end + 1..]);
    assert BytesOf(xline) == line;
    MarkedSplit(s, at, end);
    OutputAround(xpre, xline, Input(NEWLINE, false), tail, [s]);
    OutputAround(xpre, xline, Input(NEWLINE, true), tail, chunks);
    var k := |Feed(EMPTY, xpre).lines|;
    assert Output([s])[k] == Line(TrimRightCR(line), false) && Output(chunks)[k] == Line(TrimRightCR(line), true);
  }

  lemma MarkedSplit(s: seq<Byte>, at: nat, end: nat)
    requires at <= end < |s| && end > 0 && s[end] == NEWLINE
    ensures var xpre, xline, tail := Marked(s)[..at], Marked(s)[at..end], Unmarked(s[end + 1..]);
            && Marked(s) == xpre + (xline + [Input(NEWLINE, false)] + tail)
            && Marked(s[..end]) + Marked(s[end..]) == xpre + (xline + [Input(NEWLINE, true)] + tail)
  {
  }

  /** The output is the same for every cut into Writes exactly when there is no such line. */
  lemma OutputIsChunkFree(s: seq<Byte>)
    ensures (forall chunks: seq<seq<Byte>> :: Concat(chunks) == s ==> Output(chunks) == Output([s]))
       <==> (forall i :: !ExactLine(s, i))
  {
    hide ExactLine, Output;
    SingleChunk(s);
    if forall i :: !ExactLine(s, i) {
      forall chunks: seq<seq<Byte>> | Concat(chunks) == s ensures Output(chunks) == Output([s]) {
        ChunksDoNotMatter(chunks, [s]);
      }
    } else {
      var i :| ExactLine(s, i);
      var chunks := ExactLineDependsOnChunks(s, i);
    }
  }

  lemma TwoChunks(a: seq<Byte>, b: seq<Byte>)
    ensures Concat([a, b]) == a + b && MarkAll([a, b]) == Marked(a) + Marked(b)
  {
    assert [a, b][1..] == [b];
    SingleChunk(b);
  }

  lemma SingleChunk(chunk: seq<Byte>)
    ensures MarkAll([chunk]) == Marked(chunk) && Concat([chunk]) == chunk
  {
    assert [chunk][1..] == [];
  }
}
