/** The watcher's backfill protocol and the aggregator together: which alerts the summary
    of a backfill window counts, when calls to the aggregator come late. */
module BackfillSummary {
  import A = AggregatorModel
  import B = BackfillModel
  import P = AggregatorProofs

  datatype Step =
    | Watch(step: B.Step)   // a step of the watcher; EnterCall and ExitCall reach the aggregator
    | Feed(op: A.Op)        // an Add or a FlushAll

  ghost predicate Next(cfg: A.Config, timers: bool, w: B.System, s: A.State, step: Step, w': B.System, s': A.State)
    requires 1 <= cfg.maxGroupSize
  {
    match step
    case Feed(op) => (op.AddOp? || op.FlushOp?) && w' == w && A.Next(cfg, s, op, s')
    case Watch(b) =>
      && B.Enabled(timers, w, b) && w' == B.Apply(w, b)
      && s' == if b.EnterCall? then A.EnterBackfill(s) else if b.ExitCall? then A.ExitBackfill(s).0 else s
  }

  ghost predicate IsRun(cfg: A.Config, timers: bool, steps: seq<Step>, ws: seq<B.System>, ss: seq<A.State>)
    requires 1 <= cfg.maxGroupSize
  {
    && |ws| == |ss| == |steps| + 1 && ws[0] == B.Start() && ss[0] == A.InitialState()
    && forall i :: 0 <= i < |steps| ==> Next(cfg, timers, ws[i], ss[i], steps[i], ws[i + 1], ss[i + 1])
  }

  /** The number of alerts added by steps `a` up to `b`. */
  function Alerts(steps: seq<Step>, a: nat, b: nat): nat
    requires b <= |steps|
  {
    if b <= a then 0
    else Alerts(steps, a, b - 1) + match steps[b - 1] case Feed(op) => P.AlertsIn(op) case Watch(_) => 0
  }

  lemma {:induction false} AlertsSplit(steps: seq<Step>, a: nat, b: nat, c: nat)
    requires a <= b <= c <= |steps|
    ensures Alerts(steps, a, c) == Alerts(steps, a, b) + Alerts(steps, b, c)
  {
    if b < c {
      AlertsSplit(steps, a, b, c - 1);
    }
  }

  lemma {:induction false} AlertsAtOne(steps: seq<Step>, a: nat, b: nat, k: nat)
    requires b <= |steps| && k < |steps| && forall j :: a <= j < b && j != k ==> steps[j].Watch?
    ensures Alerts(steps, a, b) == if a <= k < b && steps[k].Feed? then P.AlertsIn(steps[k].op) else 0
  {
    if a < b {
      AlertsAtOne(steps, a, b - 1, k);
    }
  }

  // ----- the two counts are one -----

  lemma NextKeeps(cfg: A.Config, timers: bool, w: B.System, s: A.State, step: Step, w': B.System, s': A.State)
    requires 1 <= cfg.maxGroupSize && Next(cfg, timers, w, s, step, w', s')
    requires B.Inv(w) && w.active == s.active
    ensures B.Inv(w') && w'.active == s'.active
    ensures s.active > 0 && s'.active > 0 ==>
              s'.alerts == s.alerts + match step case Feed(op) => P.AlertsIn(op) case Watch(_) => 0
    ensures s.active == 0 && s'.active > 0 ==> step.Watch? && step.step.EnterCall? && s'.alerts == 0
  {
    hide B.Inv, A.AddGrouped, A.FlushGroups;
    if step.Watch? {
      B.StepKeepsInv(timers, w, step.step);
      if step.step.EndByStream? { B.EndKeepsActive(w, w.held[step.step.stream]); }
      if step.step.EndByTimer? { B.EndKeepsActive(w, step.step.id); }
    }
  }

  lemma {:induction false} CountsAreOne(cfg: A.Config, timers: bool, steps: seq<Step>, ws: seq<B.System>,
                                        ss: seq<A.State>, n: nat)
    requires 1 <= cfg.maxGroupSize && IsRun(cfg, timers, steps, ws, ss) && n <= |steps|
    ensures B.Inv(ws[n]) && ws[n].active == ss[n].active
  {
    hide Next;
    if n > 0 {
      CountsAreOne(cfg, timers, steps, ws, ss, n - 1);
      NextKeeps(cfg, timers, ws[n - 1], ss[n - 1], steps[n - 1], ws[n], ss[n]);
    }
  }

  /** Suppression is on from state `m + 1` to state `n`, and step `m` turned it on. */
  ghost predicate OnSince(steps: seq<Step>, ss: seq<A.State>, m: nat, n: nat)
    requires |ss| == |steps| + 1
  {
    && m < n <= |steps| && steps[m].Watch? && steps[m].step.EnterCall? && ss[m].active == 0
    && forall j :: m < j <= n ==> ss[j].active > 0
  }

  lemma {:induction false} AlertsSinceOn(cfg: A.Config, timers: bool, steps: seq<Step>, ws: seq<B.System>,
                                         ss: seq<A.State>, m: nat, n: nat)
    requires 1 <= cfg.maxGroupSize && IsRun(cfg, timers, steps, ws, ss) && OnSince(steps, ss, m, n)
    ensures ss[n].alerts == Alerts(steps, m, n)
  {
    hide Next;
    CountsAreOne(cfg, timers, steps, ws, ss, n - 1);
    NextKeeps(cfg, timers, ws[n - 1], ss[n - 1], steps[n - 1], ws[n], ss[n]);
    if n == m + 1 {
      assert Alerts(steps, m, m) == 0;
    } else {
      AlertsSinceOn(cfg, timers, steps, ws, ss, m, n - 1);
    }
  }

  lemma {:induction false} TurnedOn(cfg: A.Config, timers: bool, steps: seq<Step>, ws: seq<B.System>,
                                    ss: seq<A.State>, n: nat) returns (m: nat)
    requires 1 <= cfg.maxGroupSize && IsRun(cfg, timers, steps, ws, ss) && n <= |steps| && ss[n].active > 0
    ensures OnSince(steps, ss, m, n)
  {
    hide Next;
    assert n > 0;
    CountsAreOne(cfg, timers, steps, ws, ss, n - 1);
    NextKeeps(cfg, timers, ws[n - 1], ss[n - 1], steps[n - 1], ws[n], ss[n]);
    if ss[n - 1].active > 0 {
      m := TurnedOn(cfg, timers, steps, ws, ss, n - 1);
    } else {
      m := n - 1;
    }
  }

  // ----- windows of the watcher -----

  /** A window of the watcher: step `e` is the enter that goes with its first begin, step
      `y` the end of the last state, `id`, step `x` the exit that goes with it. */
  ghost predicate IsWindow(steps: seq<Step>, ws: seq<B.System>, e: nat, y: nat, x: nat, id: nat)
    requires |ws| == |steps| + 1
  {
    && e < y < x < |steps|
    && steps[e].Watch? && steps[e].step.EnterCall? && steps[x] == Watch(B.ExitCall(id))
    && (forall j :: e < j <= y ==> ws[j].count > 0)
    && (forall j :: y < j <= x ==> id in ws[j].phases && ws[j].phases[id] == B.Exiting)
  }

  lemma {:induction false} NoEnterWithin(cfg: A.Config, timers: bool, steps: seq<Step>, ws: seq<B.System>,
                                         ss: seq<A.State>, e: nat, n: nat)
    requires 1 <= cfg.maxGroupSize && IsRun(cfg, timers, steps, ws, ss) && e < n <= |steps|
    requires steps[e].Watch? && steps[e].step.EnterCall? && forall j :: e < j < n ==> ws[j].count > 0
    ensures B.In(ws[n], B.Entering) == {}
  {
    var i := n - 1;
    CountsAreOne(cfg, timers, steps, ws, ss, i);
    assert Next(cfg, timers, ws[i], ss[i], steps[i], ws[n], ss[n]);
    if i == e {
      B.EnterEmpties(ws[i], steps[i].step.id);
    } else {
      NoEnterWithin(cfg, timers, steps, ws, ss, e, i);
      if steps[i].Watch? {
        B.NoNewEnter(timers, ws[i], steps[i].step);
      }
    }
  }

  /** Suppression stays on from a window's enter to its exit. */
  lemma WindowIsOn(cfg: A.Config, timers: bool, steps: seq<Step>, ws: seq<B.System>, ss: seq<A.State>,
                   e: nat, y: nat, x: nat, id: nat, j: nat)
    requires 1 <= cfg.maxGroupSize && IsRun(cfg, timers, steps, ws, ss) && IsWindow(steps, ws, e, y, x, id)
             && e < j <= x
    ensures ss[j].active > 0
  {
    CountsAreOne(cfg, timers, steps, ws, ss, j);
    if j <= y {
      NoEnterWithin(cfg, timers, steps, ws, ss, e, j);
    } else {
      B.PhasesAreCounted(ws[j], id);
    }
  }

  /** What the summary of a window counts.  Let `m` be the step that turned suppression on.
      The number reported is that of the alerts added between the window's enter and exit
      exactly when no alert was added from `m` to that enter, if the exit is the only one
      pending and no other window is open; and otherwise exactly when the window had none. */
  lemma SummaryCountsItsWindow(cfg: A.Config, timers: bool, steps: seq<Step>, ws: seq<B.System>, ss: seq<A.State>,
                               e: nat, y: nat, x: nat, id: nat) returns (m: nat)
    requires 1 <= cfg.maxGroupSize && IsRun(cfg, timers, steps, ws, ss) && IsWindow(steps, ws, e, y, x, id)
    ensures m <= e && OnSince(steps, ss, m, x)
    ensures B.In(ws[e], B.Exiting) == {} ==> m == e
    ensures ws[x].active == 1 <==>
              B.In(ws[x], B.Exiting) == {id} && (B.In(ws[x], B.Open) == {} || B.In(ws[x], B.Entering) != {})
    ensures A.ExitBackfill(ss[x]).1 == Alerts(steps, e, x)
            <==> if ws[x].active == 1 then Alerts(steps, m, e) == 0 else Alerts(steps, e, x) == 0
  {
    hide Next, IsWindow;
    WindowBounds(steps, ws, e, y, x, id);
    forall j | e < j <= x ensures ss[j].active > 0 {
      WindowIsOn(cfg, timers, steps, ws, ss, e, y, x, id, j);
    }
    m := TurnedOn(cfg, timers, steps, ws, ss, e + 1);
    AlertsSinceOn(cfg, timers, steps, ws, ss, m, x);
    AlertsSplit(steps, m, e, x);
    CountsAreOne(cfg, timers, steps, ws, ss, e);
    CountsAreOne(cfg, timers, steps, ws, ss, x);
    EnterFindsExits(cfg, timers, steps, ws, ss, e);
    B.OnlyExit(ws[x], id);
  }

  lemma WindowBounds(steps: seq<Step>, ws: seq<B.System>, e: nat, y: nat, x: nat, id: nat)
    requires |ws| == |steps| + 1 && IsWindow(steps, ws, e, y, x, id)
    ensures e < y < x < |steps| && steps[e].Watch? && steps[e].step.EnterCall?
    ensures id in ws[x].phases && ws[x].phases[id] == B.Exiting
  {
  }

  /** What an enter finds on are the exits still to come of earlier windows. */
  lemma EnterFindsExits(cfg: A.Config, timers: bool, steps: seq<Step>, ws: seq<B.System>, ss: seq<A.State>, e: nat)
    requires 1 <= cfg.maxGroupSize && IsRun(cfg, timers, steps, ws, ss) && e < |steps|
    requires steps[e].Watch? && steps[e].step.EnterCall?
    ensures ws[e].active == |B.In(ws[e], B.Exiting)|
  {
    CountsAreOne(cfg, timers, steps, ws, ss, e);
    assert Next(cfg, timers, ws[e], ss[e], steps[e], ws[e + 1], ss[e + 1]);
    B.InIsNonempty(ws[e], steps[e].step.id);
  }

  // ----- a late exit -----

  /** Stream 1 ends its window, stream 2 begins one before the exit of the first. */
  function LateExit(e: A.Event): seq<Step> {
    [Watch(B.Begin(1, 10)), Watch(B.EnterCall(10)), Feed(A.AddOp(0, e)), Watch(B.EndByStream(1)),
     Watch(B.Begin(2, 20)), Watch(B.EnterCall(20)), Watch(B.ExitCall(10)),
     Watch(B.EndByStream(2)), Watch(B.ExitCall(20))]
  }

  function LateExitWatcher(): seq<B.System> {
    [B.Start(),
     B.System(1, 0, map[10 := B.Entering], map[1 := 10]),
     B.System(1, 1, map[10 := B.Open], map[1 := 10]),
     B.System(1, 1, map[10 := B.Open], map[1 := 10]),
     B.System(0, 1, map[10 := B.Exiting], map[]),
     B.System(1, 1, map[10 := B.Exiting, 20 := B.Entering], map[2 := 20]),
     B.System(1, 2, map[10 := B.Exiting, 20 := B.Open], map[2 := 20]),
     B.System(1, 1, map[10 := B.Done, 20 := B.Open], map[2 := 20]),
     B.System(0, 1, map[10 := B.Done, 20 := B.Exiting], map[]),
     B.System(0, 0, map[10 := B.Done, 20 := B.Done], map[])]
  }

  predicate Watches(w: B.System, step: Step, w': B.System) {
    match step
    case Feed(_) => w' == w
    case Watch(b) => B.Enabled(false, w, b) && w' == B.Apply(w, b)
  }

  lemma LateExitWatches(steps: seq<Step>, ws: seq<B.System>, e: A.Event)
    requires steps == LateExit(e) && ws == LateExitWatcher()
    ensures forall i :: 0 <= i < |steps| ==> Watches(ws[i], steps[i], ws[i + 1])
  {
  }

  lemma LateExitRuns(cfg: A.Config, e: A.Event) returns (ss: seq<A.State>)
    requires A.ValidConfig(cfg) && cfg.groupTTL == 0 && 2 <= cfg.flushSize && e.alert && e.logID != cfg.unknownLogID
    ensures IsRun(cfg, false, LateExit(e), LateExitWatcher(), ss)
    ensures A.ExitBackfill(ss[6]).1 == 0 && A.ExitBackfill(ss[8]).1 == 1
  {
    hide A.AddStep, A.FlushStep, B.Enabled, B.Apply;
    LateExitWatches(LateExit(e), LateExitWatcher(), e);
    var s0 := A.InitialState();
    var s2 := s0.(active := 1);
    var g := A.Group(0, e.timestamp, e.timestamp, 0, {e.container}, true, [e]);
    var s3 := s2.(groups := map[e.logID := g], added := [e], alerts := 1);
    P.AddFirstAlert(cfg, 0, e, s2, s3);
    ss := [s0, s0, s2, s3, s3, s3, s3.(active := 2), s3, s3, s3.(active := 0, alerts := 0)];
  }

  /** The first window's alert is left out of its own summary and counted in the second's. */
  lemma LateExitMisreports(cfg: A.Config, e: A.Event)
      returns (steps: seq<Step>, ws: seq<B.System>, ss: seq<A.State>)
    requires A.ValidConfig(cfg) && cfg.groupTTL == 0 && 2 <= cfg.flushSize && e.alert && e.logID != cfg.unknownLogID
    ensures IsRun(cfg, false, steps, ws, ss) && |steps| == 9
    ensures IsWindow(steps, ws, 1, 3, 6, 10) && Alerts(steps, 1, 6) == 1 && A.ExitBackfill(ss[6]).1 == 0
    ensures IsWindow(steps, ws, 5, 7, 8, 20) && Alerts(steps, 5, 8) == 0 && A.ExitBackfill(ss[8]).1 == 1
  {
    hide Next, Alerts;
    steps, ws := LateExit(e), LateExitWatcher();
    ss := LateExitRuns(cfg, e);
    AlertsAtOne(steps, 1, 6, 2);
    AlertsAtOne(steps, 5, 8, 2);
  }
}
