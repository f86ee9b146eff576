/** The two-phase backfill count of the watcher: its own counter changes under a lock,
    the call to the aggregator comes after the unlock, and every stream, timer and
    caller may run in between. */
module BackfillModel {
  /** The life of one backfill state: counted with the aggregator's EnterBackfill still
      to come, counted, uncounted with the ExitBackfill still to come, over.  Only a
      state counted first has an Enter to make, only one uncounted last an Exit. */
  datatype Phase = Entering | Open | Exiting | Done

  /** `count` is the watcher's counter, `active` the aggregator's; `held` is the state
      each stream's `backfill` variable points to. */
  datatype System = System(count: int, active: int, phases: map<nat, Phase>, held: map<nat, nat>)

  datatype Step =
    | Begin(stream: nat, id: nat)   // locked part of beginStreamBackfill
    | EnterCall(id: nat)            // EnterBackfill, after the unlock
    | EndByStream(stream: nat)      // locked part of endStreamBackfill: caught up, or torn down
    | EndByTimer(id: nat)           // the same, from the safety timer
    | ExitCall(id: nat)             // ExitBackfill, after the unlock

  function Start(): System {
    System(0, 0, map[], map[])
  }

  /** A stream waits for its own EnterCall; the timer is armed only after it. */
  predicate Enabled(timers: bool, s: System, step: Step) {
    match step
    case Begin(stream, id) => id !in s.phases && Free(s, stream)
    case EnterCall(id) => id in s.phases && s.phases[id] == Entering
    case EndByStream(stream) => stream in s.held && Free(s, stream)
    case EndByTimer(id) => timers && id in s.phases && s.phases[id] != Entering
    case ExitCall(id) => id in s.phases && s.phases[id] == Exiting
  }

  predicate Free(s: System, stream: nat) {
    stream in s.held ==> s.held[stream] in s.phases && s.phases[s.held[stream]] != Entering
  }

  function BeginLocked(s: System, stream: nat, id: nat): System {
    var count := s.count + 1;
    System(count, s.active, s.phases[id := if count == 1 then Entering else Open], s.held[stream := id])
  }

  /** `once` makes a second end of the same state a no-op. */
  function EndLocked(s: System, id: nat): System
    requires id in s.phases
  {
    if s.phases[id] != Open then s
    else
      var count := if s.count > 0 then s.count - 1 else s.count;
      s.(count := count, phases := s.phases[id := if count == 0 then Exiting else Done])
  }

  function Apply(s: System, step: Step): System
    requires Enabled(true, s, step)
  {
    match step
    case Begin(stream, id) => BeginLocked(s, stream, id)
    case EnterCall(id) => s.(active := s.active + 1, phases := s.phases[id := Open])
    case EndByStream(stream) => EndLocked(s, s.held[stream]).(held := s.held - {stream})
    case EndByTimer(id) => EndLocked(s, id)
    case ExitCall(id) => s.(active := if s.active - 1 < 0 then 0 else s.active - 1, phases := s.phases[id := Done])
  }

  predicate IsRun(timers: bool, steps: seq<Step>, states: seq<System>) {
    && |states| == |steps| + 1
    && forall i :: 0 <= i < |steps| ==>
         Enabled(timers, states[i], steps[i]) && states[i + 1] == Apply(states[i], steps[i])
  }

  // ----- the invariant -----

  function In(s: System, p: Phase): set<nat> {
    set id | id in s.phases && s.phases[id] == p
  }

  ghost predicate Inv(s: System) {
    && (forall stream :: stream in s.held ==> s.held[stream] in s.phases)
    && s.count == |In(s, Entering)| + |In(s, Open)|
    && |In(s, Entering)| <= 1
    && s.active == |In(s, Exiting)| + if |In(s, Open)| > 0 && |In(s, Entering)| == 0 then 1 else 0
  }

  /** Moving one state from phase `p` to phase `q` moves one unit of the counts. */
  lemma PhaseMoves(s: System, s': System, id: nat, p: Phase, q: Phase, r: Phase)
    requires id in s.phases && s.phases[id] == p != q && s'.phases == s.phases[id := q]
    ensures |In(s', r)| == |In(s, r)| + (if r == q then 1 else 0) - (if r == p then 1 else 0)
  {
    if r == q {
      assert In(s', r) == In(s, r) + {id};
    } else if r == p {
      assert In(s', r) == In(s, r) - {id};
    } else {
      assert In(s', r) == In(s, r);
    }
  }

  lemma PhaseAppears(s: System, s': System, id: nat, q: Phase, r: Phase)
    requires id !in s.phases && s'.phases == s.phases[id := q]
    ensures |In(s', r)| == |In(s, r)| + (if r == q then 1 else 0)
  {
    assert In(s', r) == In(s, r) + if r == q then {id} else {};
  }

  lemma InIsNonempty(s: System, id: nat)
    requires id in s.phases
    ensures |In(s, s.phases[id])| > 0
  {
    assert id in In(s, s.phases[id]);
  }

  lemma EndKeepsInv(s: System, id: nat)
    requires Inv(s) && id in s.phases && s.phases[id] != Entering
    ensures Inv(EndLocked(s, id)) && EndLocked(s, id).held == s.held
    ensures s.phases[id] == Open ==> s.count > 0
  {
    if s.phases[id] == Open {
      hide In;
      InIsNonempty(s, id);
      var s' := EndLocked(s, id);
      var q := s'.phases[id];
      PhaseMoves(s, s', id, Open, q, Entering);
      PhaseMoves(s, s', id, Open, q, Open);
      PhaseMoves(s, s', id, Open, q, Exiting);
    }
  }

  lemma {:induction false} StepKeepsInv(timers: bool, s: System, step: Step)
    requires Inv(s) && Enabled(timers, s, step)
    ensures Inv(Apply(s, step))
  {
    hide In;
    var s' := Apply(s, step);
    match step
    case Begin(stream, id) =>
      PhaseAppears(s, s', id, s'.phases[id], Entering);
      PhaseAppears(s, s', id, s'.phases[id], Open);
      PhaseAppears(s, s', id, s'.phases[id], Exiting);
    case EnterCall(id) =>
      InIsNonempty(s, id);
      PhaseMoves(s, s', id, Entering, Open, Entering);
      PhaseMoves(s, s', id, Entering, Open, Open);
      PhaseMoves(s, s', id, Entering, Open, Exiting);
    case EndByStream(stream) =>
      EndKeepsInv(s, s.held[stream]);
      assert s'.phases == EndLocked(s, s.held[stream]).phases;
      SamePhases(EndLocked(s, s.held[stream]), s');
    case EndByTimer(id) => EndKeepsInv(s, id);
    case ExitCall(id) =>
      InIsNonempty(s, id);
      PhaseMoves(s, s', id, Exiting, Done, Entering);
      PhaseMoves(s, s', id, Exiting, Done, Open);
      PhaseMoves(s, s', id, Exiting, Done, Exiting);
  }

  lemma SamePhases(s: System, s': System)
    requires s.phases == s'.phases
    ensures forall p :: In(s, p) == In(s', p)
  {
  }

  lemma {:induction false} RunKeepsInv(timers: bool, steps: seq<Step>, states: seq<System>, n: nat)
    requires IsRun(timers, steps, states) && Inv(states[0]) && n <= |steps|
    ensures Inv(states[n])
  {
    if n > 0 {
      RunKeepsInv(timers, steps, states, n - 1);
      StepKeepsInv(timers, states[n - 1], steps[n - 1]);
    }
  }

  // ----- the theorems -----

  /** In every interleaving: the watcher counts the states begun and not ended; the
      aggregator counts the exits still to come, plus one while a state is open and no
      enter is still to come; so suppression is on whenever a state is open and entered,
      and off once all are ended and no call is pending. */
  lemma CountsAgree(timers: bool, steps: seq<Step>, states: seq<System>, n: nat)
    requires IsRun(timers, steps, states) && states[0] == Start() && n <= |steps|
    ensures var s := states[n];
            && s.count == |set id | id in s.phases && s.phases[id] in {Entering, Open}|
            && s.active == |In(s, Exiting)| + (if In(s, Open) != {} && In(s, Entering) == {} then 1 else 0)
            && (In(s, Open) != {} && In(s, Entering) == {} ==> s.active > 0)
            && ((forall id :: id in s.phases ==> s.phases[id] == Done) ==> s.active == 0 && s.count == 0)
  {
    RunKeepsInv(timers, steps, states, n);
    var s := states[n];
    assert (set id | id in s.phases && s.phases[id] in {Entering, Open}) == In(s, Entering) + In(s, Open);
    assert In(s, Entering) !! In(s, Open);
    if forall id :: id in s.phases ==> s.phases[id] == Done {
      assert In(s, Entering) == {} && In(s, Open) == {} && In(s, Exiting) == {};
    }
  }

  /** Neither guard against underflow ever acts: an Exit finds the aggregator's count
      positive, the end of an open state finds the watcher's count positive. */
  lemma NoUnderflow(timers: bool, steps: seq<Step>, states: seq<System>, n: nat, id: nat)
    requires IsRun(timers, steps, states) && states[0] == Start() && n <= |steps| && id in states[n].phases
    ensures states[n].phases[id] == Exiting ==> states[n].active >= 1
    ensures states[n].phases[id] == Open ==> states[n].count >= 1
  {
    RunKeepsInv(timers, steps, states, n);
    PhasesAreCounted(states[n], id);
  }

  lemma PhasesAreCounted(s: System, id: nat)
    requires Inv(s) && id in s.phases
    ensures s.phases[id] == Exiting ==> s.active >= 1
    ensures s.phases[id] == Open ==> s.count >= 1
  {
    InIsNonempty(s, id);
  }

  lemma EndKeepsActive(s: System, id: nat)
    requires id in s.phases
    ensures EndLocked(s, id).active == s.active
  {
  }

  /** After an enter no other is pending. */
  lemma EnterEmpties(s: System, id: nat)
    requires Inv(s) && Enabled(true, s, EnterCall(id))
    ensures In(Apply(s, EnterCall(id)), Entering) == {}
  {
    var rest := In(s, Entering) - {id};
    assert In(Apply(s, EnterCall(id)), Entering) == rest;
    assert id in In(s, Entering) && |rest| == |In(s, Entering)| - 1;
  }

  /** While a state is counted a begin makes no enter. */
  lemma NoNewEnter(timers: bool, s: System, step: Step)
    requires Enabled(timers, s, step) && In(s, Entering) == {} && s.count > 0
    ensures In(Apply(s, step), Entering) == {}
  {
    forall id | id in In(Apply(s, step), Entering) ensures id in In(s, Entering) {
    }
  }

  /** The aggregator's count is 1 at an exit exactly when no other is pending and no
      other window is open. */
  lemma OnlyExit(s: System, id: nat)
    requires Inv(s) && id in s.phases && s.phases[id] == Exiting
    ensures s.active == 1 <==> In(s, Exiting) == {id} && (In(s, Open) == {} || In(s, Entering) != {})
  {
    var rest := In(s, Exiting) - {id};
    assert id in In(s, Exiting);
    assert In(s, Exiting) == rest + {id} && |In(s, Exiting)| == |rest| + 1;
  }

  /** A state that no stream holds any more. */
  predicate Orphan(s: System, id: nat) {
    id in s.phases && s.phases[id] == Open && forall stream :: stream in s.held ==> s.held[stream] != id
  }

  /** With the safety timer disabled an orphaned open state is never ended, and keeps
      suppression on for good. */
  lemma {:induction false} OrphanSuppressesForever(steps: seq<Step>, states: seq<System>, id: nat, n: nat)
    requires IsRun(false, steps, states) && Inv(states[0]) && In(states[0], Entering) == {} && Orphan(states[0], id)
    requires n <= |steps|
    ensures Orphan(states[n], id) && states[n].active > 0
  {
    OrphanStays(steps, states, id, n);
    RunKeepsInv(false, steps, states, n);
    InIsNonempty(states[n], id);
  }

  lemma {:induction false} OrphanStays(steps: seq<Step>, states: seq<System>, id: nat, n: nat)
    requires IsRun(false, steps, states) && Inv(states[0]) && In(states[0], Entering) == {} && Orphan(states[0], id)
    requires n <= |steps|
    ensures Orphan(states[n], id) && In(states[n], Entering) == {}
  {
    if n > 0 {
      OrphanStays(steps, states, id, n - 1);
      RunKeepsInv(false, steps, states, n - 1);
      InIsNonempty(states[n - 1], id);
      var s, s' := states[n - 1], states[n];
      assert s' == Apply(s, steps[n - 1]);
      forall x | x in In(s', Entering) ensures x in In(s, Entering) {
      }
    }
  }

  /** Such states arise: a stream that disconnects for long twice overwrites its first
      state, and ending the second leaves the first open. */
  lemma OverwrittenStateIsOrphaned() returns (steps: seq<Step>, states: seq<System>)
    ensures IsRun(false, steps, states) && states[0] == Start()
    ensures steps == [Begin(1, 10), EnterCall(10), Begin(1, 11), EndByStream(1)]
    ensures Orphan(states[4], 10) && In(states[4], Entering) == {}
  {
    steps := [Begin(1, 10), EnterCall(10), Begin(1, 11), EndByStream(1)];
    var s1 := System(1, 0, map[10 := Entering], map[1 := 10]);
    var s2 := System(1, 1, map[10 := Open], map[1 := 10]);
    var s3 := System(2, 1, map[10 := Open, 11 := Open], map[1 := 11]);
    var s4 := System(1, 1, map[10 := Open, 11 := Done], map[]);
    states := [Start(), s1, s2, s3, s4];
    assert Apply(Start(), steps[0]) == s1;
    assert Apply(s1, steps[1]) == s2;
    assert Apply(s2, steps[2]) == s3;
    assert Apply(s3, steps[3]) == s4;
  }

  // ----- when every open state is held -----

  predicate Live(p: Phase) {
    p == Entering || p == Open
  }

  /** Streams hold different states, and every state not ended is held by one. */
  ghost predicate AllHeld(s: System) {
    && (forall a, b :: a in s.held && b in s.held && s.held[a] == s.held[b] ==> a == b)
    && (forall stream :: stream in s.held ==> s.held[stream] in s.phases)
    && (forall id :: id in s.phases && Live(s.phases[id]) ==> IsHeld(s, id))
  }

  predicate IsHeld(s: System, id: nat) {
    exists stream :: stream in s.held && s.held[stream] == id
  }

  /** The stream begins a state while the one it holds is still open. */
  predicate Overwrites(s: System, step: Step) {
    step.Begin? && step.stream in s.held && s.held[step.stream] in s.phases && s.phases[s.held[step.stream]] == Open
  }

  lemma OverwriteOrphans(s: System, stream: nat, id: nat)
    requires AllHeld(s) && Enabled(true, s, Begin(stream, id)) && Overwrites(s, Begin(stream, id))
    ensures !AllHeld(BeginLocked(s, stream, id)) && Orphan(BeginLocked(s, stream, id), s.held[stream])
  {
    var s', lost := BeginLocked(s, stream, id), s.held[stream];
    assert lost in s'.phases && s'.phases[lost] == Open;
    assert !IsHeld(s', lost);
  }

  lemma HeldAfterBegin(s: System, stream: nat, id: nat)
    requires AllHeld(s) && Enabled(true, s, Begin(stream, id)) && !Overwrites(s, Begin(stream, id))
    ensures AllHeld(BeginLocked(s, stream, id))
  {
    var s' := BeginLocked(s, stream, id);
    forall x | x in s'.phases && Live(s'.phases[x]) ensures IsHeld(s', x) {
      if x == id {
        assert stream in s'.held && s'.held[stream] == id;
      } else {
        assert IsHeld(s, x);
        var holder :| holder in s.held && s.held[holder] == x;
        assert holder in s'.held && s'.held[holder] == x;
      }
    }
  }

  lemma HeldAfterOther(s: System, step: Step)
    requires AllHeld(s) && Enabled(true, s, step) && !step.Begin?
    ensures AllHeld(Apply(s, step))
  {
    var s' := Apply(s, step);
    forall x | x in s'.phases && Live(s'.phases[x]) ensures IsHeld(s', x) {
      assert IsHeld(s, x);
      var holder :| holder in s.held && s.held[holder] == x;
      assert holder in s'.held && s'.held[holder] == x;
    }
  }

  /** A step keeps every open state held exactly when it is no such overwrite. */
  lemma StepKeepsHeld(s: System, step: Step)
    requires AllHeld(s) && Enabled(true, s, step)
    ensures AllHeld(Apply(s, step)) <==> !Overwrites(s, step)
  {
    hide AllHeld;
    if step.Begin? {
      if Overwrites(s, step) {
        OverwriteOrphans(s, step.stream, step.id);
      } else {
        HeldAfterBegin(s, step.stream, step.id);
      }
    } else {
      HeldAfterOther(s, step);
    }
  }

  /** Over a whole run: every open state is held at every step exactly when no stream
      ever overwrites an open state. */
  lemma {:induction false} HeldThroughout(timers: bool, steps: seq<Step>, states: seq<System>)
    requires IsRun(timers, steps, states) && states[0] == Start()
    ensures (forall n :: 0 <= n <= |steps| ==> AllHeld(states[n]))
       <==> (forall i :: 0 <= i < |steps| ==> !Overwrites(states[i], steps[i]))
  {
    hide AllHeld, Overwrites;
    if forall i :: 0 <= i < |steps| ==> !Overwrites(states[i], steps[i]) {
      forall n | 0 <= n <= |steps| ensures AllHeld(states[n]) {
        HeldUpTo(timers, steps, states, n);
      }
    }
    if forall n :: 0 <= n <= |steps| ==> AllHeld(states[n]) {
      forall i | 0 <= i < |steps| ensures !Overwrites(states[i], steps[i]) {
        assert AllHeld(states[i]) && AllHeld(states[i + 1]);
        StepKeepsHeld(states[i], steps[i]);
      }
    }
  }

  lemma {:induction false} HeldUpTo(timers: bool, steps: seq<Step>, states: seq<System>, n: nat)
    requires IsRun(timers, steps, states) && states[0] == Start() && n <= |steps|
    requires forall i :: 0 <= i < n ==> !Overwrites(states[i], steps[i])
    ensures AllHeld(states[n])
  {
    if n > 0 {
      hide Overwrites;
      HeldUpTo(timers, steps, states, n - 1);
      StepKeepsHeld(states[n - 1], steps[n - 1]);
    }
  }
}
