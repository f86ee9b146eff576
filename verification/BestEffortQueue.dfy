/** The best-effort sink: producers and Close under one lock, a worker that drains the
    channel.  Steps of the three interleave freely. */
module BestEffortQueue {
  import opened Base

  const QUEUE_SIZE: nat := 128

  /** `accepted` are the batches put in the channel, `delivered` those handed to the sink. */
  datatype Channel<B> = Channel(closed: bool, queue: seq<B>, inFlight: Option<B>, done: bool, accepted: seq<B>,
                                delivered: seq<B>)

  datatype Step<B> = Append(batch: B) | Close | Take | Deliver | Finish

  function Start<B>(): Channel<B> {
    Channel(false, [], None, false, [], [])
  }

  predicate Enabled<B>(s: Channel<B>, step: Step<B>) {
    match step
    case Append(_) => true
    case Close => true
    case Take => !s.done && s.inFlight.None? && s.queue != []
    case Deliver => s.inFlight.Some?
    case Finish => !s.done && s.inFlight.None? && s.queue == [] && s.closed
  }

  /** A batch is sent only on an open channel with room; otherwise it is dropped. */
  predicate Accepts<B>(s: Channel<B>) {
    !s.closed && |s.queue| < QUEUE_SIZE
  }

  function Apply<B>(s: Channel<B>, step: Step<B>): Channel<B>
    requires Enabled(s, step)
  {
    match step
    case Append(batch) => if Accepts(s) then s.(queue := s.queue + [batch], accepted := s.accepted + [batch]) else s
    case Close => s.(closed := true)
    case Take => s.(inFlight := Some(s.queue[0]), queue := s.queue[1..])
    case Deliver => s.(inFlight := None, delivered := s.delivered + [s.inFlight.value])
    case Finish => s.(done := true)
  }

  ghost predicate IsRun<B>(steps: seq<Step<B>>, states: seq<Channel<B>>) {
    && |states| == |steps| + 1 && states[0] == Start()
    && forall i :: 0 <= i < |steps| ==> Enabled(states[i], steps[i]) && states[i + 1] == Apply(states[i], steps[i])
  }

  ghost predicate Inv<B>(s: Channel<B>) {
    && s.accepted == s.delivered + (if s.inFlight.Some? then [s.inFlight.value] else []) + s.queue
    && |s.queue| <= QUEUE_SIZE
    && (s.done ==> s.closed && s.queue == [] && s.inFlight.None?)
  }

  lemma StepKeepsInv<B>(s: Channel<B>, step: Step<B>)
    requires Inv(s) && Enabled(s, step)
    ensures Inv(Apply(s, step))
  {
  }

  /** In every interleaving the accepted batches are the delivered ones, the one in
      flight and the queued ones, in order; the queue is bounded; and when the worker
      is done everything accepted has been delivered. */
  lemma {:induction false} NothingIsLost<B>(steps: seq<Step<B>>, states: seq<Channel<B>>, n: nat)
    requires IsRun(steps, states) && n <= |steps|
    ensures Inv(states[n]) && |states[n].queue| <= 128
    ensures states[n].done ==> states[n].delivered == states[n].accepted
  {
    if n > 0 {
      NothingIsLost(steps, states, n - 1);
      StepKeepsInv(states[n - 1], steps[n - 1]);
    }
  }

  /** After Close nothing more is accepted, so nothing is sent on the closed channel. */
  lemma {:induction false} ClosedAcceptsNothing<B>(steps: seq<Step<B>>, states: seq<Channel<B>>, i: nat, j: nat)
    requires IsRun(steps, states) && i <= j <= |steps| && states[i].closed
    ensures states[j].closed && states[j].accepted == states[i].accepted
    ensures states[i].delivered <= states[j].delivered
  {
    if i < j {
      ClosedAcceptsNothing(steps, states, i, j - 1);
      assert states[j] == Apply(states[j - 1], steps[j - 1]);
    }
  }

  /** How many batches the worker has taken. */
  function Takes<B>(steps: seq<Step<B>>): nat {
    if steps == [] then 0 else Takes(steps[..|steps| - 1]) + if steps[|steps| - 1].Take? then 1 else 0
  }

  predicate WasClosed<B>(steps: seq<Step<B>>) {
    exists i :: 0 <= i < |steps| && steps[i].Close?
  }

  /** From the steps alone: the batches appended before the first Close while fewer than
      128 of those admitted were still to be taken. */
  ghost function Admitted<B>(steps: seq<Step<B>>): seq<B> {
    if steps == [] then []
    else
      var before, last := steps[..|steps| - 1], steps[|steps| - 1];
      var admitted := Admitted(before);
      if last.Append? && !WasClosed(before) && |admitted| - Takes(before) < 128 then admitted + [last.batch]
      else admitted
  }

  /** In every run exactly those batches are accepted; no other is lost, none is added. */
  lemma {:induction false} AcceptedAreAdmitted<B>(steps: seq<Step<B>>, states: seq<Channel<B>>, n: nat)
    requires IsRun(steps, states) && n <= |steps|
    ensures states[n].accepted == Admitted(steps[..n])
    ensures |states[n].queue| == |Admitted(steps[..n])| - Takes(steps[..n])
    ensures states[n].closed <==> WasClosed(steps[..n])
  {
    if n > 0 {
      AcceptedAreAdmitted(steps, states, n - 1);
      var before, last := steps[..n - 1], steps[n - 1];
      assert steps[..n][..n - 1] == before;
      assert states[n] == Apply(states[n - 1], last);
      ClosedSnoc(before, last);
      assert steps[..n] == before + [last];
    }
  }

  lemma ClosedSnoc<B>(steps: seq<Step<B>>, last: Step<B>)
    ensures WasClosed(steps + [last]) <==> WasClosed(steps) || last.Close?
  {
    if WasClosed(steps) {
      var i :| 0 <= i < |steps| && steps[i].Close?;
      assert (steps + [last])[i].Close?;
    }
    if last.Close? { assert (steps + [last])[|steps|].Close?; }
  }

  // ----- in place -----

  class BestEffortStore<B> {
    var closed: bool
    var queue: seq<B>

    ghost var inFlight: Option<B>
    ghost var done: bool
    ghost var accepted: seq<B>
    ghost var delivered: seq<B>

    ghost function State(): Channel<B>
      reads this
    {
      Channel(closed, queue, inFlight, done, accepted, delivered)
    }

    ghost predicate Valid()
      reads this
    {
      Inv(State())
    }

    constructor ()
      ensures Valid() && State() == Start()
    {
      closed, queue := false, [];
      inFlight, done, accepted, delivered := None, false, [], [];
    }

    /** Never blocks: a batch that cannot be queued is dropped. */
    method AppendBatch(batch: B)
      requires Valid()
      modifies this`queue, this`accepted
      ensures Valid() && State() == Apply(old(State()), Append(batch))
    {
      if closed {
        return;
      }
      if |queue| < QUEUE_SIZE {
        queue, accepted := queue + [batch], accepted + [batch];
      }
    }

    /** The locked part of Close; closing twice is harmless. */
    method Close()
      requires Valid()
      modifies this`closed
      ensures Valid() && State() == Apply(old(State()), Step.Close)
    {
      if !closed {
        closed := true;
      }
    }

    /** The worker's next batch, or none when the closed channel is empty. */
    method Receive() returns (batch: Option<B>)
      requires Valid() && !done && inFlight.None? && (queue != [] || closed)
      modifies this`queue, this`inFlight, this`done
      ensures Valid() && State() == Apply(old(State()), if old(queue) != [] then Take else Finish)
      ensures batch == inFlight
    {
      if |queue| == 0 {
        done := true;
        return None;
      }
      batch := Some(queue[0]);
      queue, inFlight := queue[1..], batch;
    }

    method Hand(batch: B)
      requires Valid() && inFlight == Some(batch)
      modifies this`inFlight, this`delivered
      ensures Valid() && State() == Apply(old(State()), Deliver)
    {
      delivered, inFlight := delivered + [batch], None;
    }
  }
}
