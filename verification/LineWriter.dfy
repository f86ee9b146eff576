/** The incremental line splitter, in place.  Every Write is proved to do to the buffer
    and to the handler what LineModel.dfy's byte-at-a-time splitter does. */
module LineWriters {
  import opened Base
  import opened M = LineModel

  // ----- steps of the byte-at-a-time splitter, a stretch at a time -----

  lemma SkipToEnd(p: Pending, xs: seq<Input>)
    requires p.truncated && Fits(p) && NEWLINE !in BytesOf(xs)
    ensures Feed(p, xs) == Result(p, [])
  {
    var line := p.buffer + [0];
    assert Cap(line) == p.buffer;
    FeedWithoutNewline(line, xs);
    assert Cap(line + BytesOf(xs)) == p.buffer;
  }

  lemma SkipLine(p: Pending, head: seq<Input>, end: Input, rest: seq<Input>)
    requires p.truncated && Fits(p) && NEWLINE !in BytesOf(head) && end.byte == NEWLINE
    ensures Feed(p, head + [end] + rest)
            == Result(Feed(EMPTY, rest).pending, Emit(p.buffer, true) + Feed(EMPTY, rest).lines)
  {
    SkipToEnd(p, head);
    FeedConcat(p, head, [end] + rest);
    assert head + [end] + rest == head + ([end] + rest);
    assert ([end] + rest)[1..] == rest;
  }

  lemma FinishLine(p: Pending, head: seq<Input>, end: Input, rest: seq<Input>)
    requires !p.truncated && NEWLINE !in BytesOf(head) && end.byte == NEWLINE
    requires |p.buffer| + |head| <= LIMIT && (end.first ==> |p.buffer| + |head| < LIMIT)
    ensures Feed(p, head + [end] + rest)
         == Result(Feed(EMPTY, rest).pending, Emit(p.buffer + BytesOf(head), false) + Feed(EMPTY, rest).lines)
  {
    FeedWithoutNewline(p.buffer, head);
    FeedConcat(p, head, [end] + rest);
    assert head + [end] + rest == head + ([end] + rest);
    assert ([end] + rest)[1..] == rest;
  }

  lemma TakeAll(p: Pending, xs: seq<Input>)
    requires !p.truncated && NEWLINE !in BytesOf(xs) && |p.buffer| + |xs| <= LIMIT
    ensures Feed(p, xs) == Result(Pending(p.buffer + BytesOf(xs), false), [])
  {
    FeedWithoutNewline(p.buffer, xs);
  }

  /** A full buffer takes no more: the next byte, not a newline, marks it truncated. */
  lemma Overflow(p: Pending, head: seq<Input>, rest: seq<Input>)
    requires !p.truncated && NEWLINE !in BytesOf(head) && |p.buffer| + |head| == LIMIT
    requires rest != [] && rest[0].byte != NEWLINE
    ensures Feed(p, head + rest) == Feed(Pending(p.buffer + BytesOf(head), true), rest)
  {
    TakeAll(p, head);
    FeedConcat(p, head, rest);
  }

  lemma CutMarks(p: Pending, xs: seq<Input>)
    requires |p.buffer| >= LIMIT && xs != [] && xs[0].first
    ensures Feed(p, xs) == Feed(p.(truncated := true), xs)
  {
  }

  /** The next `n` bytes of a Write, and the byte after them. */
  lemma MarkedStretch(p: seq<Byte>, i: nat, n: nat)
    requires i + n <= |p| && NEWLINE !in p[i..i + n]
    ensures |Marked(p)| == |p| && forall k :: 0 <= k < |p| ==> Marked(p)[k] == Input(p[k], k == 0)
    ensures NEWLINE !in BytesOf(Marked(p)[i..i + n]) && BytesOf(Marked(p)[i..i + n]) == p[i..i + n]
    ensures Marked(p)[i..] == Marked(p)[i..i + n] + Marked(p)[i + n..]
    ensures i + n < |p| ==> Marked(p)[i..] == Marked(p)[i..i + n] + [Marked(p)[i + n]] + Marked(p)[i + n + 1..]
  {
    assert BytesOf(Marked(p)[i..i + n]) == p[i..i + n];
  }

  // ----- part-way through a Write of `p`, `i` bytes taken -----

  /** Feeding the rest of `p` to `now` completes the feed of all of it to `before`. */
  ghost predicate Midway(p: seq<Byte>, i: nat, before: Pending, emitted0: seq<Line>, now: Pending, emitted: seq<Line>) {
    && i <= |p| && Fits(now) && (i > 0 ==> now.truncated || now.buffer == [])
    && var goal := Feed(before, Marked(p)); var r := Feed(now, Marked(p)[i..]);
    goal.pending == r.pending && emitted0 + goal.lines == emitted + r.lines
  }

  lemma MidwayStart(p: seq<Byte>, before: Pending, emitted: seq<Line>)
    requires Fits(before)
    ensures Midway(p, 0, before, emitted, before, emitted)
  {
    assert Marked(p)[0..] == Marked(p);
  }

  lemma MidwayEnd(p: seq<Byte>, before: Pending, emitted0: seq<Line>, now: Pending, emitted: seq<Line>)
    requires Midway(p, |p|, before, emitted0, now, emitted)
    ensures var goal := Feed(before, Marked(p)); goal.pending == now && emitted == emitted0 + goal.lines
  {
    assert Marked(p)[|p|..] == [];
  }

  lemma MidwaySkip(p: seq<Byte>, i: nat, n: nat, before: Pending, emitted0: seq<Line>, now: Pending, emitted: seq<Line>)
    requires Midway(p, i, before, emitted0, now, emitted) && now.truncated
    requires i + n <= |p| && NEWLINE !in p[i..i + n]
    ensures i + n == |p| ==> Midway(p, |p|, before, emitted0, now, emitted)
    ensures i + n < |p| && p[i + n] == NEWLINE ==>
              Midway(p, i + n + 1, before, emitted0, EMPTY, emitted + Emit(now.buffer, true))
  {
    hide Feed, Emit;
    MarkedStretch(p, i, n);
    var xs := Marked(p);
    if i + n == |p| {
      SkipToEnd(now, xs[i..]);
      SkipToEnd(now, xs[|p|..]);
    } else if p[i + n] == NEWLINE {
      SkipLine(now, xs[i..i + n], xs[i + n], xs[i + n + 1..]);
    }
  }

  lemma MidwayCut(p: seq<Byte>, i: nat, before: Pending, emitted0: seq<Line>, now: Pending, emitted: seq<Line>)
    requires Midway(p, i, before, emitted0, now, emitted) && i < |p| && !now.truncated && |now.buffer| >= LIMIT
    ensures Midway(p, i, before, emitted0, now.(truncated := true), emitted)
  {
    hide Feed;
    CutMarks(now, Marked(p)[i..]);
  }

  lemma MidwayLine(p: seq<Byte>, i: nat, n: nat, before: Pending, emitted0: seq<Line>, now: Pending, emitted: seq<Line>)
    requires Midway(p, i, before, emitted0, now, emitted) && !now.truncated && |now.buffer| < LIMIT
    requires i + n < |p| && NEWLINE !in p[i..i + n] && p[i + n] == NEWLINE && |now.buffer| + n <= LIMIT
    ensures Midway(p, i + n + 1, before, emitted0, EMPTY, emitted + Emit(now.buffer + p[i..i + n], false))
  {
    hide Feed, Emit;
    MarkedStretch(p, i, n);
    var xs := Marked(p);
    FinishLine(now, xs[i..i + n], xs[i + n], xs[i + n + 1..]);
  }

  lemma MidwayTail(p: seq<Byte>, i: nat, before: Pending, emitted0: seq<Line>, now: Pending, emitted: seq<Line>)
    requires Midway(p, i, before, emitted0, now, emitted) && !now.truncated
    requires NEWLINE !in p[i..] && |now.buffer| + |p[i..]| <= LIMIT
    ensures var goal := Feed(before, Marked(p));
            && goal.pending == Pending(now.buffer + p[i..], false)
            && emitted == emitted0 + goal.lines
  {
    hide Feed;
    assert p[i..] == p[i..i + (|p| - i)];
    MarkedStretch(p, i, |p| - i);
    var xs := Marked(p);
    assert xs[i..i + (|p| - i)] == xs[i..];
    TakeAll(now, xs[i..]);
  }

  lemma MidwayOverflow(p: seq<Byte>, i: nat, n: nat, before: Pending, emitted0: seq<Line>, now: Pending,
                       emitted: seq<Line>)
    requires Midway(p, i, before, emitted0, now, emitted) && !now.truncated && |now.buffer| + n == LIMIT
    requires i + n < |p| && NEWLINE !in p[i..i + n] && p[i + n] != NEWLINE
    ensures Midway(p, i + n, before, emitted0, Pending(now.buffer + p[i..i + n], true), emitted)
  {
    hide Feed;
    MarkedStretch(p, i, n);
    var xs := Marked(p);
    Overflow(now, xs[i..i + n], xs[i + n..]);
  }

  class LineWriter {
    var buffer: seq<Byte>
    var truncated: bool
    var emitted: seq<Line>            // what the handler has been given

    ghost var written: seq<seq<Byte>> // Writes since the last Flush
    ghost var flushed: seq<Line>      // emitted up to the last Flush

    ghost function State(): Pending
      reads this
    {
      Pending(buffer, truncated)
    }

    ghost predicate Valid()
      reads this
    {
      && Fits(State())
      && var r := Feed(EMPTY, MarkAll(written));
      r.pending == State() && emitted == flushed + r.lines
    }

    constructor ()
      ensures Valid() && emitted == [] && written == [] && flushed == []
    {
      buffer, truncated, emitted := [], false, [];
      written, flushed := [], [];
    }

    method EmitLine(line: seq<Byte>, mark: bool)
      modifies this`emitted
      ensures emitted == old(emitted) + if IsBlank(line) then [] else [Line(line, mark)]
    {
      if IsBlank(line) {
        return;
      }
      emitted := emitted + [Line(line, mark)];
    }

    /** A Write feeds its bytes; how the loop takes them is not visible. */
    method Take(p: seq<Byte>)
      requires Fits(State())
      modifies this`buffer, this`truncated, this`emitted
      ensures Fits(State())
      ensures var r := Feed(old(State()), Marked(p));
              State() == r.pending && emitted == old(emitted) + r.lines
    {
      hide Feed, IsBlank, TrimRightCR, Marked, LineEnd, Midway;
      ghost var i, st, e := 0, State(), emitted;
      var remaining := p;
      MidwayStart(p, st, e);
      while |remaining| > 0
        invariant i <= |p| && remaining == p[i..] && Fits(State())
        invariant Midway(p, i, st, e, State(), emitted)
        decreases |remaining|, if truncated then 0 else 1
      {
        var idx := LineEnd(remaining);
        LineEndIsFirst(remaining);
        assert remaining[..idx] == p[i..i + idx];
        if truncated {
          MidwaySkip(p, i, idx, st, e, State(), emitted);
          if idx == |remaining| {
            MidwayEnd(p, st, e, State(), emitted);
            return;
          }
          EmitLine(TrimRightCR(buffer), true);
          buffer, truncated := [], false;
          remaining, i := remaining[idx + 1..], i + idx + 1;
          continue;
        }
        var available := LIMIT - |buffer|;
        if available <= 0 {
          MidwayCut(p, i, st, e, State(), emitted);
          truncated := true;
          continue;
        }
        if idx < |remaining| && idx <= available {
          MidwayLine(p, i, idx, st, e, State(), emitted);
          buffer := buffer + remaining[..idx];
          EmitLine(TrimRightCR(buffer), false);
          buffer := [];
          remaining, i := remaining[idx + 1..], i + idx + 1;
          continue;
        }
        if |remaining| <= available {
          assert remaining == remaining[..idx];
          MidwayTail(p, i, st, e, State(), emitted);
          buffer := buffer + remaining;
          return;
        }
        assert p[i..i + available] == remaining[..available] == remaining[..idx][..available];
        assert p[i + available] == remaining[available];
        assert available < idx ==> remaining[available] == remaining[..idx][available];
        MidwayOverflow(p, i, available, st, e, State(), emitted);
        buffer := buffer + remaining[..available];
        truncated := true;
        remaining, i := remaining[available..], i + available;
      }
      MidwayEnd(p, st, e, State(), emitted);
    }

    method Write(p: seq<Byte>)
      requires Valid()
      modifies this
      ensures Valid() && written == old(written) + [p] && flushed == old(flushed)
    {
      hide Feed, MarkAll, Marked;
      FeedOneMore(written, p);
      Take(p);
      written := written + [p];
    }

    /** After a Flush the handler has seen `Output` of the Writes since the last one. */
    method Flush()
      requires Valid()
      modifies this
      ensures Valid() && written == [] && flushed == emitted
      ensures emitted == old(flushed) + Output(old(written))
    {
      hide Feed, MarkAll;
      NoWrites();
      if |buffer| == 0 {
        truncated := false;
      } else {
        var line, mark := TrimRightCR(buffer), truncated;
        buffer, truncated := [], false;
        EmitLine(line, mark);
      }
      written, flushed := [], emitted;
    }
  }

  lemma NoWrites()
    ensures MarkAll([]) == [] && Feed(EMPTY, []) == Result(EMPTY, [])
  {
  }

  lemma {:induction false} MarkAllConcat(a: seq<seq<Byte>>, b: seq<seq<Byte>>)
    ensures MarkAll(a + b) == MarkAll(a) + MarkAll(b)
  {
    if a == [] {
      assert a + b == b;
    } else {
      assert (a + b)[1..] == a[1..] + b;
      MarkAllConcat(a[1..], b);
    }
  }

  lemma FeedOneMore(written: seq<seq<Byte>>, p: seq<Byte>)
    ensures var r := Feed(EMPTY, MarkAll(written)); var q := Feed(r.pending, Marked(p));
            Feed(EMPTY, MarkAll(written + [p])) == Result(q.pending, r.lines + q.lines)
  {
    MarkAllConcat(written, [p]);
    SingleChunk(p);
    FeedConcat(EMPTY, MarkAll(written), Marked(p));
  }
}
