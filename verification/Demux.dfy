/** The demultiplexer of Docker's log stream: eight-byte headers, each followed by a
    payload for stdout or stderr; a stream without such a header is plain text. */
module Demux {
  import opened Base
  import opened LineModel
  import opened LineWriters

  const MAX_FRAME: nat := 0x40_0000

  datatype Target = Stdout | Stderr
  datatype Write = Write(target: Target, chunk: seq<Byte>)

  /** The Writes made, and whether the copy ended without an error. */
  datatype Copy = Copy(writes: seq<Write>, ok: bool)

  predicate LooksLikeMuxHeader(h: seq<Byte>) {
    |h| == 8 && (h[0] == 1 || h[0] == 2) && h[1] == 0 && h[2] == 0 && h[3] == 0
  }

  function Uint32(b: seq<Byte>): (n: nat)
    requires |b| == 4
  {
    ((b[0] as int * 256 + b[1]) * 256 + b[2]) * 256 + b[3]
  }

  /** Big-endian. */
  lemma Uint32IsBigEndian(b: seq<Byte>)
    requires |b| == 4
    ensures Uint32(b) == b[0] as int * 0x100_0000 + b[1] as int * 0x1_0000 + b[2] as int * 0x100 + b[3]
  {
  }

  function TargetOf(streamType: Byte): Target {
    if streamType == 2 then Stderr else Stdout
  }

  /** From a header on: whole frames are written, a broken one ends the copy.  `failed` says
      that reading stopped with an error after `src`, and not at the end of the stream. */
  function CopyFrames(src: seq<Byte>, failed: bool): Copy
    requires |src| >= 8
    decreases |src|
  {
    var end := 8 + Uint32(src[4..8]);
    if end - 8 > MAX_FRAME then Copy([], false)
    else if end > |src| then Copy([], !failed)
    else
      var first := Write(TargetOf(src[0]), src[8..end]);
      if |src| - end < 8 then Copy([first], !failed)
      else
        var rest := CopyFrames(src[end..], failed);
        Copy([first] + rest.writes, rest.ok)
  }

  /** What is written for a source: too short a stream and one that does not open with
      a mux header are passed to stdout as they are, in Writes of any size.  Less than a
      header before a read error is dropped. */
  ghost predicate Copies(src: seq<Byte>, failed: bool, c: Copy) {
    if |src| >= 8 && LooksLikeMuxHeader(src[..8]) then c == CopyFrames(src, failed)
    else if |src| < 8 && failed then c == Copy([], false)
    else c.ok == !failed && ChunksFor(c.writes, Stderr) == [] && Concat(ChunksFor(c.writes, Stdout)) == src
  }

  /** Unless at least eight bytes are there, the first a 1 or a 2 and the next three 0, all
      that was read goes to stdout; but less than eight bytes before a read error do not. */
  lemma PlainGoesToStdout(src: seq<Byte>, failed: bool, c: Copy)
    requires Copies(src, failed, c)
    requires !(|src| >= 8 && (src[0] == 1 || src[0] == 2) && src[1] == 0 && src[2] == 0 && src[3] == 0)
    ensures ChunksFor(c.writes, Stderr) == [] && c.ok == !failed
    ensures Concat(ChunksFor(c.writes, Stdout)) == if |src| < 8 && failed then [] else src
  {
  }

  /** And with them the frames are read. */
  lemma HeaderOpensFrames(src: seq<Byte>, failed: bool, c: Copy)
    requires Copies(src, failed, c)
    requires |src| >= 8 && (src[0] == 1 || src[0] == 2) && src[1] == 0 && src[2] == 0 && src[3] == 0
    ensures c == CopyFrames(src, failed)
  {
    assert src[..8][0] == src[0] && src[..8][1] == src[1] && src[..8][2] == src[2] && src[..8][3] == src[3];
  }

  function ChunksFor(writes: seq<Write>, target: Target): seq<seq<Byte>> {
    if writes == [] then []
    else (if writes[0].target == target then [writes[0].chunk] else []) + ChunksFor(writes[1..], target)
  }

  lemma {:induction false} ChunksForConcat(a: seq<Write>, b: seq<Write>, target: Target)
    ensures ChunksFor(a + b, target) == ChunksFor(a, target) + ChunksFor(b, target)
  {
    if a == [] {
      assert a + b == b;
    } else {
      assert (a + b)[1..] == a[1..] + b;
      ChunksForConcat(a[1..], b, target);
    }
  }

  // ----- the copy loop -----

  /** Reads what is there; the source ends after `src`, or fails there.  The two writers
      are different objects. */
  method CopyDockerLogs(src: seq<Byte>, failed: bool, stdout: LineWriter, stderr: LineWriter)
      returns (ok: bool, ghost writes: seq<Write>)
    requires stdout != stderr && stdout.Valid() && stderr.Valid()
    modifies stdout, stderr
    ensures stdout.Valid() && stderr.Valid() && Copies(src, failed, Copy(writes, ok))
    ensures stdout.written == old(stdout.written) + ChunksFor(writes, Stdout) && stdout.flushed == old(stdout.flushed)
    ensures stderr.written == old(stderr.written) + ChunksFor(writes, Stderr) && stderr.flushed == old(stderr.flushed)
  {
    writes := [];
    if |src| < 8 {
      if failed {
        return false, writes;
      }
      if |src| > 0 {
        stdout.Write(src);
        writes := [Write(Stdout, src)];
        OneWrite(Write(Stdout, src));
        assert Concat([src]) == src by { SingleChunk(src); }
      }
      return true, writes;
    }
    var header := src[..8];
    if !LooksLikeMuxHeader(header) {
      writes := PassThrough(src, stdout);
      return !failed, writes;
    }
    ok, writes := CopyMux(src, failed, stdout, stderr);
  }

  /** The frames of a stream that opens with a mux header. */
  method CopyMux(src: seq<Byte>, failed: bool, stdout: LineWriter, stderr: LineWriter)
      returns (ok: bool, ghost writes: seq<Write>)
    requires |src| >= 8 && stdout != stderr && stdout.Valid() && stderr.Valid()
    modifies stdout, stderr
    ensures stdout.Valid() && stderr.Valid() && CopyFrames(src, failed) == Copy(writes, ok)
    ensures stdout.written == old(stdout.written) + ChunksFor(writes, Stdout) && stdout.flushed == old(stdout.flushed)
    ensures stderr.written == old(stderr.written) + ChunksFor(writes, Stderr) && stderr.flushed == old(stderr.flushed)
  {
    hide LineWriter.Valid, CopyFrames, ChunksFor, Uint32;
    writes := [];
    NoWritesFor();
    var rest, header := src, src[..8];
    while true
      invariant |rest| >= 8 && header == rest[..8]
      invariant stdout.Valid() && stderr.Valid()
      invariant CopyFrames(src, failed) == Copy(writes + CopyFrames(rest, failed).writes, CopyFrames(rest, failed).ok)
      invariant stdout.written == old(stdout.written) + ChunksFor(writes, Stdout)
                && stdout.flushed == old(stdout.flushed)
      invariant stderr.written == old(stderr.written) + ChunksFor(writes, Stderr)
                && stderr.flushed == old(stderr.flushed)
      decreases |rest|
    {
      var streamType, size := header[0], Uint32(header[4..8]);
      assert header[4..8] == rest[4..8];
      CopyFramesStep(rest, failed);
      if size > MAX_FRAME {
        return false, writes;
      }
      if |rest| < 8 + size {
        return !failed, writes;
      }
      var payload := rest[8..8 + size];
      WriteFrame(streamType, payload, stdout, stderr);
      AppendWrite(writes, Write(TargetOf(streamType), payload));
      writes := writes + [Write(TargetOf(streamType), payload)];
      rest := rest[8 + size..];
      if |rest| < 8 {
        return !failed, writes;
      }
      header := rest[..8];
    }
  }

  method WriteFrame(streamType: Byte, payload: seq<Byte>, stdout: LineWriter, stderr: LineWriter)
    requires stdout != stderr && stdout.Valid() && stderr.Valid()
    modifies stdout, stderr
    ensures stdout.Valid() && stderr.Valid() && stdout.flushed == old(stdout.flushed)
            && stderr.flushed == old(stderr.flushed)
    ensures stdout.written == old(stdout.written) + if TargetOf(streamType) == Stdout then [payload] else []
    ensures stderr.written == old(stderr.written) + if TargetOf(streamType) == Stderr then [payload] else []
  {
    hide LineWriter.Valid;
    match streamType
    case 1 => stdout.Write(payload);
    case 2 => stderr.Write(payload);
    case _ => stdout.Write(payload);
  }

  lemma NoWritesFor()
    ensures forall t :: ChunksFor([], t) == []
  {
  }

  lemma AppendWrite(writes: seq<Write>, w: Write)
    ensures forall t :: ChunksFor(writes + [w], t) == ChunksFor(writes, t) + if t == w.target then [w.chunk] else []
  {
    forall t ensures ChunksFor(writes + [w], t) == ChunksFor(writes, t) + if t == w.target then [w.chunk] else [] {
      ChunksForConcat(writes, [w], t);
      OneWrite(w);
    }
  }

  lemma CopyFramesStep(src: seq<Byte>, failed: bool)
    requires |src| >= 8
    ensures var end := 8 + Uint32(src[4..8]);
            && (end - 8 > MAX_FRAME ==> CopyFrames(src, failed) == Copy([], false))
            && (end - 8 <= MAX_FRAME && end > |src| ==> CopyFrames(src, failed) == Copy([], !failed))
            && (end - 8 <= MAX_FRAME && end <= |src| ==>
                  var first := Write(TargetOf(src[0]), src[8..end]);
                  if |src| - end < 8 then CopyFrames(src, failed) == Copy([first], !failed)
                  else
                    var c := CopyFrames(src[end..], failed);
                    CopyFrames(src, failed) == Copy([first] + c.writes, c.ok))
  {
  }

  lemma OneWrite(w: Write)
    ensures ChunksFor([w], w.target) == [w.chunk]
    ensures forall t :: t != w.target ==> ChunksFor([w], t) == []
  {
    assert [w][1..] == [];
  }

  /** `io.Copy`: all of it, in pieces of any size. */
  method PassThrough(src: seq<Byte>, stdout: LineWriter) returns (ghost writes: seq<Write>)
    requires stdout.Valid()
    modifies stdout
    ensures stdout.Valid() && stdout.flushed == old(stdout.flushed)
    ensures stdout.written == old(stdout.written) + ChunksFor(writes, Stdout)
    ensures ChunksFor(writes, Stderr) == [] && Concat(ChunksFor(writes, Stdout)) == src
  {
    hide LineWriter.Valid;
    writes := [];
    var rest := src;
    while |rest| > 0
      invariant stdout.Valid() && stdout.flushed == old(stdout.flushed)
      invariant stdout.written == old(stdout.written) + ChunksFor(writes, Stdout)
      invariant ChunksFor(writes, Stderr) == [] && Concat(ChunksFor(writes, Stdout)) + rest == src
    {
      var n: nat :| 1 <= n <= |rest|;
      var w := Write(Stdout, rest[..n]);
      OneWrite(w);
      ChunksForConcat(writes, [w], Stdout);
      ChunksForConcat(writes, [w], Stderr);
      ConcatAppend(ChunksFor(writes, Stdout), [rest[..n]]);
      SingleChunk(rest[..n]);
      stdout.Write(rest[..n]);
      writes := writes + [w];
      rest := rest[n..];
    }
  }

  // ----- frames -----

  datatype Frame = Frame(streamType: Byte, pad: seq<Byte>, payload: seq<Byte>)

  function PutUint32(n: nat): (b: seq<Byte>)
    requires n < 0x1_0000_0000
    ensures |b| == 4 && Uint32(b) == n
  {
    var n1 := n / 256;
    var n2 := n1 / 256;
    [n2 / 256, n2 % 256, n1 % 256, n % 256]
  }

  predicate GoodFrame(f: Frame) {
    |f.pad| == 3 && |f.payload| <= 4 * 1024 * 1024
  }

  function Encode(f: Frame): seq<Byte>
    requires GoodFrame(f)
  {
    [f.streamType] + f.pad + PutUint32(|f.payload|) + f.payload
  }

  function EncodeAll(frames: seq<Frame>): seq<Byte>
    requires forall f :: f in frames ==> GoodFrame(f)
  {
    if frames == [] then [] else Encode(frames[0]) + EncodeAll(frames[1..])
  }

  /** The frames that end at or before byte `n`. */
  function WholeFrames(frames: seq<Frame>, n: int): (k: nat)
    requires forall f :: f in frames ==> GoodFrame(f)
    ensures k <= |frames|
  {
    if frames == [] || |Encode(frames[0])| > n then 0 else 1 + WholeFrames(frames[1..], n - |Encode(frames[0])|)
  }

  function WritesOf(frames: seq<Frame>): seq<Write> {
    seq(|frames|, i requires 0 <= i < |frames| => Write(TargetOf(frames[i].streamType), frames[i].payload))
  }

  lemma EncodedHeader(f: Frame, tail: seq<Byte>)
    requires GoodFrame(f)
    ensures var src := Encode(f) + tail;
            && |Encode(f)| == 8 + |f.payload| && src[0] == f.streamType && src[1..4] == f.pad
            && Uint32(src[4..8]) == |f.payload|
            && src[8..8 + |f.payload|] == f.payload && src[8 + |f.payload|..] == tail
  {
    var src := Encode(f) + tail;
    assert src[4..8] == PutUint32(|f.payload|);
  }

  /** From a header on, a stream cut at any byte gives exactly the frames wholly before the cut. */
  lemma {:induction false} CopyFramesOfCut(frames: seq<Frame>, n: nat, failed: bool)
    requires forall f :: f in frames ==> GoodFrame(f)
    requires 8 <= n <= |EncodeAll(frames)|
    ensures CopyFrames(EncodeAll(frames)[..n], failed) == Copy(WritesOf(frames[..WholeFrames(frames, n)]), !failed)
    decreases |frames|
  {
    hide Encode, Uint32;
    var f, rest := frames[0], EncodeAll(frames[1..]);
    var src, size := EncodeAll(frames)[..n], |Encode(f)|;
    EncodedHeader(f, rest);
    assert src[4..8] == EncodeAll(frames)[4..8];
    if size <= n {
      var k := WholeFrames(frames[1..], n - size);
      assert src[8..size] == f.payload;
      assert src[size..] == rest[..n - size];
      assert frames[..1 + k] == [f] + frames[1..][..k];
      assert WritesOf(frames[..1 + k]) == [Write(TargetOf(f.streamType), f.payload)] + WritesOf(frames[1..][..k]);
      if n - size >= 8 {
        CopyFramesOfCut(frames[1..], n - size, failed);
      } else {
        NoWholeFrame(frames[1..], n - size);
      }
    }
  }

  lemma NoWholeFrame(frames: seq<Frame>, n: int)
    requires (forall f :: f in frames ==> GoodFrame(f)) && n < 8
    ensures WholeFrames(frames, n) == 0
  {
    if frames != [] { EncodedHeader(frames[0], []); }
  }

  predicate OpensMux(frames: seq<Frame>) {
    frames != [] && (frames[0].streamType == 1 || frames[0].streamType == 2) && frames[0].pad == [0, 0, 0]
  }

  /** Cutting an encoding: before byte 8 the piece itself goes to stdout, from byte 8 on
      exactly the frames wholly before the cut are delivered.  If the cut is a read error, it
      is reported, and less than a header is dropped. */
  lemma DecodeOfCut(frames: seq<Frame>, n: nat, failed: bool, c: Copy)
    requires OpensMux(frames) && (forall f :: f in frames ==> GoodFrame(f)) && n <= |EncodeAll(frames)|
    requires Copies(EncodeAll(frames)[..n], failed, c)
    ensures n >= 8 ==> c == Copy(WritesOf(frames[..WholeFrames(frames, n)]), !failed)
    ensures n < 8 ==> c.ok == !failed && ChunksFor(c.writes, Stderr) == []
                      && Concat(ChunksFor(c.writes, Stdout)) == if failed then [] else EncodeAll(frames)[..n]
  {
    if n >= 8 {
      var src := EncodeAll(frames)[..n];
      EncodedHeader(frames[0], EncodeAll(frames[1..]));
      assert src[1..4] == EncodeAll(frames)[1..4] == [0, 0, 0];
      assert src[1] == src[1..4][0] && src[2] == src[1..4][1] && src[3] == src[1..4][2];
      CopyFramesOfCut(frames, n, failed);
    }
  }

  lemma {:induction false} AllFramesWhole(frames: seq<Frame>)
    requires forall f :: f in frames ==> GoodFrame(f)
    ensures WholeFrames(frames, |EncodeAll(frames)|) == |frames|
  {
    if frames != [] { AllFramesWhole(frames[1..]); }
  }

  /** Round trip: every frame arrives, whole and in order. */
  lemma DecodeOfEncode(frames: seq<Frame>, failed: bool, c: Copy)
    requires OpensMux(frames) && (forall f :: f in frames ==> GoodFrame(f)) && Copies(EncodeAll(frames), failed, c)
    ensures c == Copy(WritesOf(frames), !failed)
  {
    var all := EncodeAll(frames);
    assert all[..|all|] == all;
    AllFramesWhole(frames);
    EncodedHeader(frames[0], EncodeAll(frames[1..]));
    DecodeOfCut(frames, |all|, failed, c);
    assert frames[..|frames|] == frames;
  }

  /** The payloads of the frames for stderr, which are those of stream type 2, or of the others. */
  function Payloads(frames: seq<Frame>, stderr: bool): seq<seq<Byte>> {
    if frames == [] then []
    else (if (frames[0].streamType == 2) == stderr then [frames[0].payload] else []) + Payloads(frames[1..], stderr)
  }

  lemma {:induction false} PayloadsOfWrites(frames: seq<Frame>)
    ensures ChunksFor(WritesOf(frames), Stderr) == Payloads(frames, true)
    ensures ChunksFor(WritesOf(frames), Stdout) == Payloads(frames, false)
  {
    if frames != [] {
      PayloadsOfWrites(frames[1..]);
      assert WritesOf(frames)[1..] == WritesOf(frames[1..]);
    }
  }

  /** Each frame reaches its writer: stderr gets the payloads of stream type 2, stdout those
      of every other, whole and in order. */
  lemma FramesReachTheirWriters(frames: seq<Frame>, failed: bool, c: Copy)
    requires OpensMux(frames) && (forall f :: f in frames ==> GoodFrame(f)) && Copies(EncodeAll(frames), failed, c)
    ensures ChunksFor(c.writes, Stderr) == Payloads(frames, true)
    ensures ChunksFor(c.writes, Stdout) == Payloads(frames, false)
    ensures c.ok == !failed
  {
    DecodeOfEncode(frames, failed, c);
    PayloadsOfWrites(frames);
  }

  lemma CopyFramesOne(f: Frame, tail: seq<Byte>, failed: bool)
    requires GoodFrame(f) && |tail| >= 8
    ensures var c := CopyFrames(tail, failed);
            CopyFrames(Encode(f) + tail, failed) == Copy([Write(TargetOf(f.streamType), f.payload)] + c.writes, c.ok)
  {
    hide Encode, Uint32, CopyFrames;
    EncodedHeader(f, tail);
    CopyFramesStep(Encode(f) + tail, failed);
  }

  lemma WritesOfCons(frames: seq<Frame>)
    requires frames != []
    ensures WritesOf(frames) == [Write(TargetOf(frames[0].streamType), frames[0].payload)] + WritesOf(frames[1..])
  {
  }

  lemma BadHeader(header: seq<Byte>, tail: seq<Byte>, failed: bool)
    requires |header| == 8 && Uint32(header[4..8]) > MAX_FRAME
    ensures CopyFrames(header + tail, failed) == Copy([], false)
  {
    HeaderSlice(header, tail);
  }

  lemma HeaderSlice(header: seq<Byte>, tail: seq<Byte>)
    requires |header| == 8
    ensures (header + tail)[4..8] == header[4..8]
  {
    assert (header + tail)[..8] == header;
    assert (header + tail)[4..8] == (header + tail)[..8][4..8];
  }

  /** An oversized frame ends the copy with an error, after the frames before it. */
  lemma {:induction false} OversizedFrame(frames: seq<Frame>, header: seq<Byte>, tail: seq<Byte>, failed: bool)
    requires (forall f :: f in frames ==> GoodFrame(f)) && |header| == 8 && Uint32(header[4..8]) > 4 * 1024 * 1024
    ensures CopyFrames(EncodeAll(frames) + (header + tail), failed) == Copy(WritesOf(frames), false)
    decreases |frames|
  {
    hide Encode, Uint32, PutUint32, CopyFrames, WritesOf;
    var bad := header + tail;
    if frames == [] {
      assert EncodeAll(frames) + bad == bad;
      BadHeader(header, tail, failed);
      NoWritesOf();
    } else {
      var rest := EncodeAll(frames[1..]) + bad;
      assert EncodeAll(frames) + bad == Encode(frames[0]) + rest;
      CopyFramesOne(frames[0], rest, failed);
      OversizedFrame(frames[1..], header, tail, failed);
      WritesOfCons(frames);
    }
  }

  lemma NoWritesOf()
    ensures WritesOf([]) == []
  {
  }

  /** Composed with the splitter, the lines of stdout and stderr do not depend on how
      their bytes were put into frames. */
  lemma FramingDoesNotMatter(a: seq<Frame>, b: seq<Frame>, failed: bool, ca: Copy, cb: Copy, t: Target)
    requires OpensMux(a) && (forall f :: f in a ==> GoodFrame(f)) && Copies(EncodeAll(a), failed, ca)
    requires OpensMux(b) && (forall f :: f in b ==> GoodFrame(f)) && Copies(EncodeAll(b), failed, cb)
    requires Concat(ChunksFor(WritesOf(a), t)) == Concat(ChunksFor(WritesOf(b), t))
    ensures Contents(Output(ChunksFor(ca.writes, t))) == Contents(Output(ChunksFor(cb.writes, t)))
    ensures (forall i :: !ExactLine(Concat(ChunksFor(WritesOf(a), t)), i)) ==>
              Output(ChunksFor(ca.writes, t)) == Output(ChunksFor(cb.writes, t))
  {
    DecodeOfEncode(a, failed, ca);
    DecodeOfEncode(b, failed, cb);
    ChunksDoNotMatter(ChunksFor(WritesOf(a), t), ChunksFor(WritesOf(b), t));
  }
}
