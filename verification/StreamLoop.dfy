/** The loop around a log stream: when it begins a backfill state, and when it forgets one
    it still holds. */
module StreamLoop {
  import opened Base

  const BACKFILL_REALTIME_SLACK: int := 30 * SECOND

  /** One turn of the loop: it starts at `top`, lines with these timestamps arrive, and the
      stream ends, in an error noticed at `failedAt` or else without one. */
  datatype Turn = Turn(top: Time, lines: seq<Time>, failedAt: Option<Time>)

  /** The line is recent enough to end a backfill state begun at `reconnectAt`. */
  predicate CatchesUp(reconnectAt: Time, line: Time) {
    line != ZERO_TIME && line >= reconnectAt - BACKFILL_REALTIME_SLACK
  }

  predicate AnyCatchesUp(reconnectAt: Time, lines: seq<Time>) {
    exists line :: line in lines && CatchesUp(reconnectAt, line)
  }

  predicate ShouldEnter(controlled: bool, threshold: GoInt, disconnectedSince: Time, now: Time) {
    controlled && threshold > 0 && Sub(now, disconnectedSince) >= threshold
  }

  // ----- from the turns alone -----

  /** The turn before ended in an error at least the threshold ago. */
  predicate Enters(controlled: bool, threshold: GoInt, turns: seq<Turn>, n: nat)
    requires n < |turns|
  {
    && controlled && threshold > 0 && n > 0
    && turns[n - 1].failedAt.Some? && turns[n - 1].failedAt.value != ZERO_TIME
    && turns[n].top - turns[n - 1].failedAt.value >= threshold
  }

  /** The state begun at turn `m` is still held before turn `n`: no later one was begun and
      no line has caught up. */
  ghost predicate HeldFrom(controlled: bool, threshold: GoInt, turns: seq<Turn>, m: nat, n: nat)
    requires n <= |turns|
  {
    && m < n && Enters(controlled, threshold, turns, m)
    && (forall j :: m < j < n ==> !Enters(controlled, threshold, turns, j))
    && (forall j :: m <= j < n ==> !AnyCatchesUp(turns[m].top, turns[j].lines))
  }

  ghost predicate Holds(controlled: bool, threshold: GoInt, turns: seq<Turn>, n: nat)
    requires n <= |turns|
  {
    exists m :: HeldFrom(controlled, threshold, turns, m, n)
  }

  lemma HeldOneMore(controlled: bool, threshold: GoInt, turns: seq<Turn>, m: nat, n: nat)
    requires n < |turns|
    ensures HeldFrom(controlled, threshold, turns, m, n + 1)
       <==> && !(m <= n && AnyCatchesUp(turns[m].top, turns[n].lines))
            && if Enters(controlled, threshold, turns, n) then m == n else HeldFrom(controlled, threshold, turns, m, n)
  {
    hide Enters, AnyCatchesUp;
  }

  lemma HeldIsOne(controlled: bool, threshold: GoInt, turns: seq<Turn>, n: nat)
    requires n <= |turns|
    ensures forall a, b ::
              HeldFrom(controlled, threshold, turns, a, n) && HeldFrom(controlled, threshold, turns, b, n) ==> a == b
  {
    hide Enters, AnyCatchesUp;
  }

  // ----- the loop -----

  /** The stream's lines end the state it holds. */
  method Deliver(backfill: Option<Time>, lines: seq<Time>) returns (left: Option<Time>)
    ensures left == if backfill.Some? && !AnyCatchesUp(backfill.value, lines) then backfill else None
    ensures backfill.Some? ==>
              (left.None? <==> exists line :: line in lines && line != ZERO_TIME
                                              && backfill.value - line <= 30_000_000_000)
  {
    left := backfill;
    for i := 0 to |lines|
      invariant left == if backfill.Some? && !AnyCatchesUp(backfill.value, lines[..i]) then backfill else None
    {
      TakeOneMore(lines, i);
      assert backfill.Some? ==>
          (AnyCatchesUp(backfill.value, lines[..i + 1])
           <==> AnyCatchesUp(backfill.value, lines[..i]) || CatchesUp(backfill.value, lines[i])) by {
        if backfill.Some? { CatchesUpOneMore(backfill.value, lines[..i], lines[i]); }
      }
      if left.Some? && CatchesUp(left.value, lines[i]) {
        left := None;
      }
    }
    assert lines[..|lines|] == lines;
    if backfill.Some? { CatchesUpWithin(backfill.value, lines); }
  }

  /** Recent enough: with a timestamp, and no more than 30 seconds before the reconnect. */
  lemma CatchesUpWithin(reconnectAt: Time, lines: seq<Time>)
    ensures AnyCatchesUp(reconnectAt, lines)
       <==> exists line :: line in lines && line != ZERO_TIME && reconnectAt - line <= 30_000_000_000
  {
    if AnyCatchesUp(reconnectAt, lines) {
      var line :| line in lines && CatchesUp(reconnectAt, line);
      assert reconnectAt - line <= 30_000_000_000;
    }
    if line :| line in lines && line != ZERO_TIME && reconnectAt - line <= 30_000_000_000 {
      assert CatchesUp(reconnectAt, line);
    }
  }

  lemma CatchesUpOneMore(reconnectAt: Time, lines: seq<Time>, line: Time)
    ensures AnyCatchesUp(reconnectAt, lines + [line])
       <==> AnyCatchesUp(reconnectAt, lines) || CatchesUp(reconnectAt, line)
  {
    assert line in lines + [line];
    forall l | l in lines ensures l in lines + [line] { }
  }

  lemma HeldStays(controlled: bool, threshold: GoInt, turns: seq<Turn>, n: nat, m: nat, held: bool)
    requires n < |turns|
    requires held ==> HeldFrom(controlled, threshold, turns, m, n)
    requires !held ==> !Holds(controlled, threshold, turns, n)
    ensures var entering := Enters(controlled, threshold, turns, n);
            var at := if entering then n else m;
            if (entering || held) && !AnyCatchesUp(turns[at].top, turns[n].lines)
            then HeldFrom(controlled, threshold, turns, at, n + 1)
            else !Holds(controlled, threshold, turns, n + 1)
  {
    hide HeldFrom, Enters, AnyCatchesUp;
    HeldIsOne(controlled, threshold, turns, n);
    HeldOneMore(controlled, threshold, turns, if Enters(controlled, threshold, turns, n) then n else m, n);
    if Holds(controlled, threshold, turns, n + 1) {
      var k :| HeldFrom(controlled, threshold, turns, k, n + 1);
      HeldOneMore(controlled, threshold, turns, k, n);
      HeldIsBefore(controlled, threshold, turns, k, n + 1);
    }
  }

  lemma HeldIsBefore(controlled: bool, threshold: GoInt, turns: seq<Turn>, m: nat, n: nat)
    requires n <= |turns| && HeldFrom(controlled, threshold, turns, m, n)
    ensures m < n
  {
  }

  /** When a state is begun, and whether one still held is forgotten with it. */
  method Run(controlled: bool, threshold: GoInt, turns: seq<Turn>)
      returns (begun: seq<bool>, forgets: seq<bool>, backfill: Option<Time>)
    ensures |begun| == |forgets| == |turns|
    ensures forall n :: 0 <= n < |turns| ==> (begun[n] <==> Enters(controlled, threshold, turns, n))
    ensures forall n :: 0 <= n < |turns| ==>
              (forgets[n] <==> begun[n] && Holds(controlled, threshold, turns, n))
    ensures backfill.Some? <==> Holds(controlled, threshold, turns, |turns|)
  {
    begun, forgets, backfill := [], [], None;
    var disconnectedSince := ZERO_TIME;
    ghost var m: nat := 0;
    for i := 0 to |turns|
      invariant |begun| == |forgets| == i
      invariant forall n :: 0 <= n < i ==> (begun[n] <==> Enters(controlled, threshold, turns, n))
      invariant forall n :: 0 <= n < i ==> (forgets[n] <==> begun[n] && Holds(controlled, threshold, turns, n))
      invariant disconnectedSince
                  == if i > 0 && turns[i - 1].failedAt.Some? then turns[i - 1].failedAt.value else ZERO_TIME
      invariant backfill.Some? ==> HeldFrom(controlled, threshold, turns, m, i) && backfill.value == turns[m].top
      invariant backfill.None? ==> !Holds(controlled, threshold, turns, i)
    {
      var turn := turns[i];
      HeldStays(controlled, threshold, turns, i, m, backfill.Some?);
      var enter := disconnectedSince != ZERO_TIME && ShouldEnter(controlled, threshold, disconnectedSince, turn.top);
      begun, forgets := begun + [enter], forgets + [enter && backfill.Some?];
      if enter {
        backfill, m := Some(turn.top), i;
      }
      disconnectedSince := ZERO_TIME;
      backfill := Deliver(backfill, turn.lines);
      if turn.failedAt.Some? {
        disconnectedSince := turn.failedAt.value;
      }
    }
  }

  /** Two long waits with no recent line between them: the second state replaces the first,
      which the loop can then no longer end. */
  lemma SecondStateForgetsFirst(threshold: GoInt, start: Time) returns (turns: seq<Turn>)
    requires 0 < threshold && 0 < start
    ensures |turns| == 3 && Enters(true, threshold, turns, 1) && Enters(true, threshold, turns, 2)
    ensures Holds(true, threshold, turns, 2)
  {
    var t1 := start + threshold;
    turns := [Turn(start, [], Some(start)), Turn(t1, [], Some(t1)), Turn(t1 + threshold, [], None)];
    assert HeldFrom(true, threshold, turns, 1, 2);
  }

  // ----- long outages -----

  /** From turn `a` on every stream fails, and the next turn starts `delay` later. */
  ghost predicate Outage(turns: seq<Turn>, a: nat, n: nat, delay: int) {
    && a < n < |turns|
    && forall j :: a <= j < n ==>
         && turns[j].failedAt.Some? && turns[j].failedAt.value != ZERO_TIME
         && turns[j + 1].top == turns[j].failedAt.value + delay
  }

  /** However long it lasts, an outage enters backfill exactly when one wait for the next
      turn reaches the threshold. */
  lemma OutageEnters(controlled: bool, threshold: GoInt, turns: seq<Turn>, a: nat, n: nat, delay: int)
    requires Outage(turns, a, n, delay)
    ensures (exists j :: a < j <= n && Enters(controlled, threshold, turns, j))
       <==> controlled && 0 < threshold <= delay
  {
    if controlled && 0 < threshold <= delay {
      assert turns[a].failedAt.Some? && turns[a + 1].top == turns[a].failedAt.value + delay;
      assert Enters(controlled, threshold, turns, a + 1);
    }
    forall j | a < j <= n && Enters(controlled, threshold, turns, j)
      ensures threshold <= delay
    {
      var i := j - 1;
      assert a <= i && turns[i + 1].top == turns[i].failedAt.value + delay;
    }
  }

  /** So an outage as long as one likes can pass unnoticed. */
  lemma LongOutageNeverEnters(controlled: bool, threshold: GoInt, delay: nat, k: nat, start: Time)
      returns (turns: seq<Turn>)
    requires delay < threshold && 0 < start && 0 < k
    ensures Outage(turns, 0, k, delay) && turns[k].top - turns[0].failedAt.value == k * delay
    ensures forall n :: 0 <= n < |turns| ==> !Enters(controlled, threshold, turns, n)
  {
    turns := seq(k + 1, i requires 0 <= i <= k => Turn(start + i * delay, [], Some(start + i * delay)));
    forall j | 0 <= j < k
      ensures turns[j].failedAt.value > 0 && turns[j + 1].top == turns[j].failedAt.value + delay
    {
      NextMultiple(j, delay);
    }
    OutageEnters(controlled, threshold, turns, 0, k, delay);
  }

  lemma NextMultiple(j: nat, delay: nat)
    ensures (j + 1) * delay == j * delay + delay && 0 <= j * delay
  {
  }
}
