/** The watcher's main loop: retry delays, failure counters and health reports. */
module WatcherRun {
  import opened Base

  // ----- retry delay -----

  /** A 64-bit integer product wraps around. */
  function Wrap(x: int): GoInt {
    (x - MIN_INT) % (MAX_INT - MIN_INT + 1) + MIN_INT
  }

  function Pow2(n: nat): nat {
    if n == 0 then 1 else 2 * Pow2(n - 1)
  }

  lemma WrapOnce(x: GoInt)
    ensures Wrap(x) == x
  {
  }

  lemma WrapMod(x: int) returns (k: int)
    ensures Wrap(x) == x - k * (MAX_INT - MIN_INT + 1)
  {
    k := (x - MIN_INT) / (MAX_INT - MIN_INT + 1);
  }

  lemma WrapShift(x: int, k: int)
    ensures Wrap(x + k * (MAX_INT - MIN_INT + 1)) == Wrap(x)
  {
  }

  /** The wrapped value is the one of 64 bits that differs by a multiple of 2^64. */
  lemma WrapIsCongruent(x: int, y: GoInt)
    ensures Wrap(x) == y <==> exists k: int :: x == y + k * 0x1_0000_0000_0000_0000
  {
    var k := WrapMod(x);
    assert x == Wrap(x) + k * 0x1_0000_0000_0000_0000;
    forall j: int | x == y + j * 0x1_0000_0000_0000_0000 ensures Wrap(x) == y {
      WrapShift(y, j);
      WrapOnce(y);
    }
  }

  /** Doubling what has wrapped is doubling first. */
  lemma WrapDouble(x: int)
    ensures Wrap(2 * Wrap(x)) == Wrap(2 * x)
  {
    var k := WrapMod(x);
    WrapShift(2 * x, -2 * k);
  }

  lemma {:induction false} Pow2Grows(m: nat, n: nat)
    requires m <= n
    ensures Pow2(m) <= Pow2(n)
  {
    if m < n { Pow2Grows(m, n - 1); }
  }

  lemma {:induction false} ProductGrows(base: nat, a: nat, b: nat)
    requires a <= b
    ensures base * a <= base * b
  {
  }

  /** With a positive maximum: min(base * 2^(failures-1), max), and no intermediate value
      above the maximum, so nothing wraps.  Without one the product wraps around. */
  method NextRetryDelayWithMax(baseDelay: GoInt, maxDelay: GoInt, failures: GoInt) returns (delay: GoInt)
    ensures baseDelay <= 0 ==> delay == 0
    ensures baseDelay > 0 && maxDelay > 0 ==> delay == Min(baseDelay * Pow2(Max(failures - 1, 0)), maxDelay)
    ensures baseDelay > 0 && maxDelay <= 0 ==> delay == Wrap(baseDelay * Pow2(Max(failures - 1, 0)))
  {
    hide Wrap;
    if baseDelay <= 0 {
      return 0;
    }
    if maxDelay > 0 && baseDelay > maxDelay {
      Pow2Grows(0, Max(failures - 1, 0));
      ProductGrows(baseDelay, 1, Pow2(Max(failures - 1, 0)));
      return maxDelay;
    }
    WrapOnce(baseDelay);
    if failures <= 1 {
      return baseDelay;
    }
    delay := baseDelay;
    var i := 1;
    while i < failures
      invariant 1 <= i <= failures
      invariant maxDelay > 0 ==> 0 < delay <= maxDelay && delay == baseDelay * Pow2(i - 1)
      invariant maxDelay <= 0 ==> delay == Wrap(baseDelay * Pow2(i - 1))
    {
      if maxDelay > 0 {
        Pow2Grows(i, failures - 1);
        ProductGrows(baseDelay, Pow2(i), Pow2(failures - 1));
        Pow2Grows(i - 1, failures - 1);
        ProductGrows(baseDelay, Pow2(i - 1), Pow2(failures - 1));
        assert baseDelay * Pow2(i) == 2 * delay by { Twice(baseDelay, i); }
      }
      if maxDelay > 0 && delay >= maxDelay {
        return maxDelay;
      }
      if maxDelay > 0 && delay > maxDelay / 2 {
        return maxDelay;
      }
      WrapDouble(baseDelay * Pow2(i - 1));
      Twice(baseDelay, i);
      if maxDelay > 0 { WrapOnce(delay * 2); }
      delay := Wrap(delay * 2);
      i := i + 1;
    }
    if maxDelay > 0 && delay > maxDelay {
      return maxDelay;
    }
  }

  lemma Twice(base: int, i: nat)
    requires i >= 1
    ensures base * Pow2(i) == 2 * (base * Pow2(i - 1))
  {
    assert base * (2 * Pow2(i - 1)) == 2 * (base * Pow2(i - 1));
  }

  // ----- health reports -----

  const DEGRADED_FAILURE_THRESHOLD: nat := 3

  datatype Component = ContainerSync | EventStream
  datatype Level = ERROR | INFO
  datatype Report = Report(component: Component, level: Level, failures: nat)

  /** One turn of the loop: the sync is cancelled or fails, or it succeeds and the event
      loop runs, sees events or not, and ends, in an error or for good. */
  datatype Turn = SyncCanceled | SyncFailed | Synced(sawEvent: bool) | Ended(sawEvent: bool)

  /** After these turns the loop returns. */
  predicate Returns(t: Turn) {
    t.SyncCanceled? || t.Ended?
  }

  datatype Health = Health(syncFailures: nat, eventFailures: nat, reports: seq<Report>)

  function Failed(reports: seq<Report>, c: Component, failures: nat): seq<Report> {
    if failures == DEGRADED_FAILURE_THRESHOLD then reports + [Report(c, ERROR, failures)] else reports
  }

  function Recovered(reports: seq<Report>, c: Component, failures: nat): seq<Report> {
    if failures >= DEGRADED_FAILURE_THRESHOLD then reports + [Report(c, INFO, failures)] else reports
  }

  function AfterTurn(h: Health, t: Turn): Health {
    match t
    case SyncCanceled => h
    case SyncFailed => Health(h.syncFailures + 1, h.eventFailures, Failed(h.reports, ContainerSync, h.syncFailures + 1))
    case Synced(sawEvent) =>
      var after := AfterEvents(h, sawEvent);
      var failures := after.eventFailures + 1;
      Health(0, failures, Failed(after.reports, EventStream, failures))
    case Ended(sawEvent) => AfterEvents(h, sawEvent)
  }

  /** The sync has succeeded, and the event loop has seen events or not. */
  function AfterEvents(h: Health, sawEvent: bool): Health {
    var reports := Recovered(h.reports, ContainerSync, h.syncFailures);
    if sawEvent then Health(0, 0, Recovered(reports, EventStream, h.eventFailures))
    else Health(0, h.eventFailures, reports)
  }

  function AfterTurns(turns: seq<Turn>): Health {
    if turns == [] then Health(0, 0, []) else AfterTurn(AfterTurns(turns[..|turns| - 1]), turns[|turns| - 1])
  }

  /** The loop: it runs `ran` turns, up to the first after which it returns, or up to the
      one whose retry is cancelled, which is the last given. */
  method Run(turns: seq<Turn>) returns (syncFailures: nat, eventFailures: nat, reports: seq<Report>, ran: nat)
    ensures ran <= |turns| && forall j :: 0 <= j < ran - 1 ==> !Returns(turns[j])
    ensures ran < |turns| ==> ran > 0 && Returns(turns[ran - 1])
    ensures Health(syncFailures, eventFailures, reports) == AfterTurns(turns[..ran])
  {
    syncFailures, eventFailures, reports, ran := 0, 0, [], 0;
    while ran < |turns|
      invariant ran <= |turns| && forall j :: 0 <= j < ran ==> !Returns(turns[j])
      invariant Health(syncFailures, eventFailures, reports) == AfterTurns(turns[..ran])
    {
      var turn := turns[ran];
      ran := ran + 1;
      assert turns[..ran][..ran - 1] == turns[..ran - 1];
      if turn.SyncCanceled? {
        return;
      }
      if turn.SyncFailed? {
        syncFailures := syncFailures + 1;
        if syncFailures == DEGRADED_FAILURE_THRESHOLD {
          reports := reports + [Report(ContainerSync, ERROR, syncFailures)];
        }
        continue;
      }
      if syncFailures > 0 {
        if syncFailures >= DEGRADED_FAILURE_THRESHOLD {
          reports := reports + [Report(ContainerSync, INFO, syncFailures)];
        }
        syncFailures := 0;
      }
      if turn.sawEvent && eventFailures > 0 {
        if eventFailures >= DEGRADED_FAILURE_THRESHOLD {
          reports := reports + [Report(EventStream, INFO, eventFailures)];
        }
        eventFailures := 0;
      }
      if turn.Ended? {
        return;
      }
      eventFailures := eventFailures + 1;
      if eventFailures == DEGRADED_FAILURE_THRESHOLD {
        reports := reports + [Report(EventStream, ERROR, eventFailures)];
      }
    }
  }

  /** Consecutive failures, counted from the turns alone. */
  function Consecutive(turns: seq<Turn>, c: Component): nat {
    if turns == [] then 0
    else
      var before := Consecutive(turns[..|turns| - 1], c);
      match turns[|turns| - 1]
      case SyncCanceled => before
      case SyncFailed => if c == ContainerSync then before + 1 else before
      case Synced(sawEvent) => if c == ContainerSync then 0 else if sawEvent then 1 else before + 1
      case Ended(sawEvent) => if c == ContainerSync || sawEvent then 0 else before
  }

  /** What one turn reports, from the consecutive failures before it. */
  function NewReports(t: Turn, sync: nat, event: nat): seq<Report> {
    match t
    case SyncCanceled => []
    case SyncFailed => if sync == 2 then [Report(ContainerSync, ERROR, 3)] else []
    case Synced(sawEvent) =>
      RecoveryReports(sawEvent, sync, event)
      + if (if sawEvent then 0 else event) == 2 then [Report(EventStream, ERROR, 3)] else []
    case Ended(sawEvent) => RecoveryReports(sawEvent, sync, event)
  }

  function RecoveryReports(sawEvent: bool, sync: nat, event: nat): seq<Report> {
    (if sync >= 3 then [Report(ContainerSync, INFO, sync)] else [])
    + if sawEvent && event >= 3 then [Report(EventStream, INFO, event)] else []
  }

  /** Each turn reports just that: an ERROR at the third failure in a row, an INFO with the
      number of failures when a row of three or more ends. */
  lemma TurnReports(turns: seq<Turn>, t: Turn)
    ensures AfterTurns(turns + [t]).reports
         == AfterTurns(turns).reports
            + NewReports(t, Consecutive(turns, ContainerSync), Consecutive(turns, EventStream))
  {
    TurnsInStep(turns);
    assert (turns + [t])[..|turns|] == turns;
  }

  function LevelsOf(reports: seq<Report>, c: Component): seq<Level> {
    if reports == [] then []
    else
      LevelsOf(reports[..|reports| - 1], c)
      + if reports[|reports| - 1].component == c then [reports[|reports| - 1].level] else []
  }

  /** ERROR, INFO, ERROR, INFO, ... */
  ghost predicate Alternates(levels: seq<Level>) {
    forall i :: 0 <= i < |levels| ==> levels[i] == if i % 2 == 0 then ERROR else INFO
  }

  lemma LevelsSnoc(reports: seq<Report>, r: Report, c: Component)
    ensures LevelsOf(reports + [r], c) == LevelsOf(reports, c) + if r.component == c then [r.level] else []
  {
    assert (reports + [r])[..|reports|] == reports;
  }

  ghost predicate InStep(levels: seq<Level>, failures: nat) {
    Alternates(levels) && (|levels| % 2 == 1 <==> failures >= DEGRADED_FAILURE_THRESHOLD)
  }

  lemma FailedInStep(reports: seq<Report>, c: Component, failures: nat, d: Component)
    requires InStep(LevelsOf(reports, c), failures)
    ensures InStep(LevelsOf(Failed(reports, c, failures + 1), c), failures + 1)
    ensures d != c ==> LevelsOf(Failed(reports, c, failures + 1), d) == LevelsOf(reports, d)
  {
    LevelsSnoc(reports, Report(c, ERROR, failures + 1), c);
    LevelsSnoc(reports, Report(c, ERROR, failures + 1), d);
  }

  lemma RecoveredInStep(reports: seq<Report>, c: Component, failures: nat, d: Component)
    requires InStep(LevelsOf(reports, c), failures)
    ensures InStep(LevelsOf(Recovered(reports, c, failures), c), 0)
    ensures d != c ==> LevelsOf(Recovered(reports, c, failures), d) == LevelsOf(reports, d)
  {
    LevelsSnoc(reports, Report(c, INFO, failures), c);
    LevelsSnoc(reports, Report(c, INFO, failures), d);
  }

  /** Per component the reports alternate, starting with ERROR; one ERROR is outstanding
      exactly while the consecutive failures are at least three. */
  lemma {:induction false} ReportsAlternate(turns: seq<Turn>, c: Component)
    ensures var h := AfterTurns(turns); var levels := LevelsOf(h.reports, c);
            && Alternates(levels)
            && Consecutive(turns, c) == (if c == ContainerSync then h.syncFailures else h.eventFailures)
            && ((levels != [] && levels[|levels| - 1] == ERROR)
                <==> Consecutive(turns, c) >= DEGRADED_FAILURE_THRESHOLD)
  {
    TurnsInStep(turns);
    var h := AfterTurns(turns);
    var levels := LevelsOf(h.reports, c);
    assert InStep(levels, if c == ContainerSync then h.syncFailures else h.eventFailures);
  }

  lemma {:induction false} TurnsInStep(turns: seq<Turn>)
    ensures var h := AfterTurns(turns);
            && InStep(LevelsOf(h.reports, ContainerSync), h.syncFailures)
            && InStep(LevelsOf(h.reports, EventStream), h.eventFailures)
            && Consecutive(turns, ContainerSync) == h.syncFailures
            && Consecutive(turns, EventStream) == h.eventFailures
  {
    if turns != [] {
      hide InStep, LevelsOf, Failed, Recovered;
      var h := AfterTurns(turns[..|turns| - 1]);
      TurnsInStep(turns[..|turns| - 1]);
      match turns[|turns| - 1]
      case SyncCanceled =>
      case SyncFailed => FailedInStep(h.reports, ContainerSync, h.syncFailures, EventStream);
      case Synced(sawEvent) =>
        EventsInStep(h, sawEvent);
        var after := AfterEvents(h, sawEvent);
        FailedInStep(after.reports, EventStream, after.eventFailures, ContainerSync);
      case Ended(sawEvent) => EventsInStep(h, sawEvent);
    }
  }

  lemma EventsInStep(h: Health, sawEvent: bool)
    requires InStep(LevelsOf(h.reports, ContainerSync), h.syncFailures)
    requires InStep(LevelsOf(h.reports, EventStream), h.eventFailures)
    ensures var after := AfterEvents(h, sawEvent);
            && InStep(LevelsOf(after.reports, ContainerSync), after.syncFailures)
            && InStep(LevelsOf(after.reports, EventStream), after.eventFailures)
  {
    hide InStep, LevelsOf, Failed, Recovered;
    RecoveredInStep(h.reports, ContainerSync, h.syncFailures, EventStream);
    RecoveredInStep(Recovered(h.reports, ContainerSync, h.syncFailures), EventStream, h.eventFailures, ContainerSync);
  }
}
