/** The watcher's registry of log streams, `active` (name to stream) and `ids` (id to
    name), as a state machine over activations, stops and stream ends. */
module StreamRegistryModel {
  /** A started stream; its number stands for its cancel function. */
  datatype Stream = Stream(name: string, id: string)
  datatype ActiveStream = ActiveStream(id: string, cancel: nat)

  /** `streams` are all streams ever started; a cancelled one has had its cancel
      function handed to the caller that will call it. */
  datatype State = State(active: map<string, ActiveStream>, ids: map<string, string>,
                         streams: map<nat, Stream>, running: set<nat>, cancelled: set<nat>)

  datatype Step =
    | ActivateStep(name: string, id: string, cancel: nat)
    | StopStep(id: string)
    | StopAllStep
    | FinishStep(stream: nat)

  function Start(): State {
    State(map[], map[], map[], {}, {})
  }

  /** The id is already streamed under this name: nothing to start. */
  predicate AlreadyActive(s: State, name: string, id: string) {
    name in s.active && s.active[name].id == id
  }

  /** What `activate` clears before it registers the new stream. */
  function Displace(s: State, name: string, id: string): State {
    if name in s.active then
      s.(ids := s.ids - {s.active[name].id}, cancelled := s.cancelled + {s.active[name].cancel})
    else if id in s.ids && s.ids[id] != name then
      var previous := s.ids[id];
      if previous in s.active && s.active[previous].id == id then
        s.(active := s.active - {previous}, ids := s.ids - {id}, cancelled := s.cancelled + {s.active[previous].cancel})
      else
        s.(ids := s.ids - {id})
    else s
  }

  function Activate(s: State, name: string, id: string, cancel: nat): State {
    if AlreadyActive(s, name, id) then s
    else
      var d := Displace(s, name, id);
      State(d.active[name := ActiveStream(id, cancel)], d.ids[id := name],
            d.streams[cancel := Stream(name, id)], d.running + {cancel}, d.cancelled)
  }

  function Stop(s: State, id: string): State {
    if id !in s.ids then s
    else if s.ids[id] !in s.active || s.active[s.ids[id]].id != id then s.(ids := s.ids - {id})
    else
      var name := s.ids[id];
      s.(active := s.active - {name}, ids := s.ids - {id}, cancelled := s.cancelled + {s.active[name].cancel})
  }

  function IdsOf(active: map<string, ActiveStream>): set<string> {
    set name | name in active :: active[name].id
  }

  function CancelsOf(active: map<string, ActiveStream>): set<nat> {
    set name | name in active :: active[name].cancel
  }

  function StopAll(s: State): State {
    s.(active := map[], ids := s.ids - IdsOf(s.active), cancelled := s.cancelled + CancelsOf(s.active))
  }

  lemma OneFewer(active: map<string, ActiveStream>, name: string)
    requires name in active
    ensures IdsOf(active) == IdsOf(active - {name}) + {active[name].id}
    ensures CancelsOf(active) == CancelsOf(active - {name}) + {active[name].cancel}
  {
    var rest := active - {name};
    forall n | n in active
      ensures active[n].id in IdsOf(rest) + {active[name].id}
      ensures active[n].cancel in CancelsOf(rest) + {active[name].cancel}
    {
      if n != name { assert n in rest; }
    }
  }

  function RemoveActive(s: State, name: string, id: string): State {
    if name in s.active && s.active[name].id == id then s.(active := s.active - {name}, ids := s.ids - {id})
    else s
  }

  /** A stream's goroutine ends: it unregisters its name and id, and is gone. */
  function Finish(s: State, stream: nat): State
    requires stream in s.streams
  {
    var t := s.streams[stream];
    RemoveActive(s, t.name, t.id).(running := s.running - {stream})
  }

  predicate Enabled(s: State, step: Step) {
    match step
    case ActivateStep(name, id, cancel) => cancel !in s.streams
    case StopStep(id) => true
    case StopAllStep => true
    case FinishStep(stream) => stream in s.running && stream in s.streams
  }

  function Apply(s: State, step: Step): State
    requires Enabled(s, step)
  {
    match step
    case ActivateStep(name, id, cancel) => Activate(s, name, id, cancel)
    case StopStep(id) => Stop(s, id)
    case StopAllStep => StopAll(s)
    case FinishStep(stream) => Finish(s, stream)
  }

  predicate IsRun(steps: seq<Step>, states: seq<State>) {
    && |states| == |steps| + 1 && states[0] == Start()
    && forall i :: 0 <= i < |steps| ==> Enabled(states[i], steps[i]) && states[i + 1] == Apply(states[i], steps[i])
  }

  // ----- what every run keeps -----

  /** Each id points to a name whose entry carries that id. */
  ghost predicate IdsArePointers(s: State) {
    forall id :: id in s.ids ==> s.ids[id] in s.active && s.active[s.ids[id]].id == id
  }

  /** The registered streams are streams of that name and id, running and not cancelled. */
  ghost predicate EntriesAreStreams(s: State) {
    && (forall name :: name in s.active ==>
          && s.active[name].cancel in s.streams
          && s.streams[s.active[name].cancel] == Stream(name, s.active[name].id)
          && s.active[name].cancel in s.running && s.active[name].cancel !in s.cancelled)
    && s.running <= s.streams.Keys && s.cancelled <= s.streams.Keys
  }

  lemma StepKeepsPointers(s: State, step: Step)
    requires IdsArePointers(s) && Enabled(s, step)
    ensures IdsArePointers(Apply(s, step))
  {
  }

  lemma ActivateKeepsEntries(s: State, name: string, id: string, cancel: nat)
    requires EntriesAreStreams(s) && cancel !in s.streams
    ensures EntriesAreStreams(Activate(s, name, id, cancel))
  {
    forall a, b | a in s.active && b in s.active && a != b
      ensures s.active[a].cancel != s.active[b].cancel
    {
      assert s.streams[s.active[a].cancel].name == a;
    }
  }

  lemma StepKeepsEntries(s: State, step: Step)
    requires EntriesAreStreams(s) && Enabled(s, step)
    ensures EntriesAreStreams(Apply(s, step))
  {
    match step
    case ActivateStep(name, id, cancel) => ActivateKeepsEntries(s, name, id, cancel);
    case StopStep(id) =>
    case StopAllStep =>
      forall c | c in CancelsOf(s.active) ensures c in s.streams { }
    case FinishStep(stream) =>
  }

  lemma {:induction false} RunKeeps(steps: seq<Step>, states: seq<State>, n: nat)
    requires IsRun(steps, states) && n <= |steps|
    ensures IdsArePointers(states[n]) && EntriesAreStreams(states[n])
  {
    if n > 0 {
      hide IdsArePointers, EntriesAreStreams, Apply;
      RunKeeps(steps, states, n - 1);
      StepKeepsPointers(states[n - 1], steps[n - 1]);
      StepKeepsEntries(states[n - 1], steps[n - 1]);
    }
  }

  lemma PointersAllGone(s: State)
    requires IdsArePointers(s)
    ensures StopAll(s).ids == map[]
  {
    forall id | id in s.ids ensures id in IdsOf(s.active) {
      assert s.ids[id] in s.active;
    }
  }

  /** In every run, stopAll empties both maps and cancels whatever was registered. */
  lemma StopAllEmpties(steps: seq<Step>, states: seq<State>, n: nat)
    requires IsRun(steps, states) && n <= |steps|
    ensures StopAll(states[n]).active == map[] && StopAll(states[n]).ids == map[]
    ensures forall name :: name in states[n].active ==> states[n].active[name].cancel in StopAll(states[n]).cancelled
  {
    RunKeeps(steps, states, n);
    PointersAllGone(states[n]);
  }

  // ----- when the maps are inverses -----

  ghost predicate Inverse(s: State) {
    && IdsArePointers(s)
    && forall name :: name in s.active ==> s.active[name].id in s.ids && s.ids[s.active[name].id] == name
  }

  /** The name is taken by another id while this id is active under another name. */
  predicate Conflict(s: State, name: string, id: string) {
    name in s.active && s.active[name].id != id && id in s.ids && s.ids[id] != name
  }

  lemma ConflictBreaksInverse(s: State, name: string, id: string, cancel: nat)
    requires Inverse(s) && Conflict(s, name, id)
    ensures !Inverse(Activate(s, name, id, cancel))
  {
    var s' := Activate(s, name, id, cancel);
    var other := s.ids[id];
    assert other in s'.active && s'.active[other].id == id && s'.ids[id] == name;
  }

  lemma QuietActivateKeepsInverse(s: State, name: string, id: string, cancel: nat)
    requires Inverse(s) && !Conflict(s, name, id)
    ensures Inverse(Activate(s, name, id, cancel))
  {
  }

  /** An activation keeps `active` and `ids` inverse exactly when it is no such conflict. */
  lemma ActivateKeepsInverse(s: State, name: string, id: string, cancel: nat)
    requires Inverse(s)
    ensures Inverse(Activate(s, name, id, cancel)) <==> !Conflict(s, name, id)
  {
    if Conflict(s, name, id) {
      ConflictBreaksInverse(s, name, id, cancel);
    } else {
      QuietActivateKeepsInverse(s, name, id, cancel);
    }
  }

  lemma OtherStepsKeepInverse(s: State, step: Step)
    requires Inverse(s) && Enabled(s, step) && !step.ActivateStep?
    ensures Inverse(Apply(s, step))
  {
  }

  /** Activating a registered name and id changes nothing and starts nothing; any other
      activation starts one stream, registers it, and of the other names takes away only
      the one the id had, if the new name was free. */
  lemma ActivateRegisters(s: State, name: string, id: string, cancel: nat)
    requires IdsArePointers(s)
    ensures name in s.active && s.active[name].id == id ==> Activate(s, name, id, cancel) == s
    ensures !(name in s.active && s.active[name].id == id) ==>
              var s' := Activate(s, name, id, cancel);
              && name in s'.active && s'.active[name] == ActiveStream(id, cancel)
              && id in s'.ids && s'.ids[id] == name
              && s'.running == s.running + {cancel} && s'.streams == s.streams[cancel := Stream(name, id)]
              && (forall other :: other in s'.active && other != name ==>
                    other in s.active && s'.active[other] == s.active[other])
              && (forall other :: other in s.active && other != name ==>
                    (other in s'.active <==> !(name !in s.active && id in s.ids && s.ids[id] == other)))
  {
  }

  /** The end of a stream takes away the entry of its name and id, whichever stream that
      entry is of, and nothing else. */
  lemma FinishUnregisters(s: State, stream: nat)
    requires stream in s.streams
    ensures var t, s' := s.streams[stream], Finish(s, stream);
            && stream !in s'.running && s'.running == s.running - {stream} && s'.cancelled == s.cancelled
            && (forall name :: name in s'.active ==> name in s.active && s'.active[name] == s.active[name])
            && (forall name :: name in s.active ==>
                  (name in s'.active <==> !(name == t.name && s.active[name].id == t.id)))
            && (s'.ids == if t.name in s'.active || t.name !in s.active then s.ids else s.ids - {t.id})
  {
  }

  // ----- when every running stream is registered -----

  ghost predicate Registered(s: State) {
    forall t :: t in s.running && t !in s.cancelled && t in s.streams ==>
      s.streams[t].name in s.active && s.active[s.streams[t].name].cancel == t
  }

  /** The stream ends after a newer stream of the same name and id was registered. */
  predicate Late(s: State, stream: nat)
    requires stream in s.streams
  {
    var t := s.streams[stream];
    t.name in s.active && s.active[t.name].id == t.id && s.active[t.name].cancel != stream
  }

  /** The end of a stream leaves every live stream registered exactly when it is not late. */
  lemma FinishKeepsRegistered(s: State, stream: nat)
    requires EntriesAreStreams(s) && Registered(s) && stream in s.streams
    ensures Registered(Finish(s, stream)) <==> !Late(s, stream)
  {
    var s' := Finish(s, stream);
    if Late(s, stream) {
      var newer := s.active[s.streams[stream].name].cancel;
      assert newer in s'.running && newer !in s'.cancelled && s'.streams[newer].name !in s'.active;
    }
  }

  lemma OtherStepsKeepRegistered(s: State, step: Step)
    requires EntriesAreStreams(s) && Registered(s) && Enabled(s, step) && !step.FinishStep?
    ensures Registered(Apply(s, step))
  {
  }

  predicate NoConflicts(steps: seq<Step>, states: seq<State>)
    requires |states| == |steps| + 1
  {
    forall i :: 0 <= i < |steps| && steps[i].ActivateStep? ==> !Conflict(states[i], steps[i].name, steps[i].id)
  }

  predicate NoLateEnds(steps: seq<Step>, states: seq<State>)
    requires IsRun(steps, states)
  {
    forall i :: 0 <= i < |steps| && steps[i].FinishStep? ==> !Late(states[i], steps[i].stream)
  }

  /** The maps are inverse at every step of a run exactly when no activation conflicts. */
  lemma {:induction false} InverseRun(steps: seq<Step>, states: seq<State>)
    requires IsRun(steps, states)
    ensures (forall n :: 0 <= n <= |steps| ==> Inverse(states[n])) <==> NoConflicts(steps, states)
  {
    hide Inverse, Conflict, Activate;
    if NoConflicts(steps, states) {
      forall n | 0 <= n <= |steps| ensures Inverse(states[n]) {
        InverseUpTo(steps, states, n);
      }
    }
    if forall n :: 0 <= n <= |steps| ==> Inverse(states[n]) {
      forall i | 0 <= i < |steps| && steps[i].ActivateStep? ensures !Conflict(states[i], steps[i].name, steps[i].id) {
        assert Inverse(states[i]) && Inverse(states[i + 1]);
        ActivateKeepsInverse(states[i], steps[i].name, steps[i].id, steps[i].cancel);
      }
    }
  }

  lemma {:induction false} InverseUpTo(steps: seq<Step>, states: seq<State>, n: nat)
    requires IsRun(steps, states) && NoConflicts(steps, states) && n <= |steps|
    ensures Inverse(states[n])
  {
    if n > 0 {
      hide Inverse, Activate;
      InverseUpTo(steps, states, n - 1);
      match steps[n - 1]
      case ActivateStep(name, id, cancel) => ActivateKeepsInverse(states[n - 1], name, id, cancel);
      case _ => OtherStepsKeepInverse(states[n - 1], steps[n - 1]);
    }
  }

  /** Every live stream is registered at every step of a run exactly when no end is late. */
  lemma {:induction false} RegisteredRun(steps: seq<Step>, states: seq<State>)
    requires IsRun(steps, states)
    ensures (forall n :: 0 <= n <= |steps| ==> Registered(states[n])) <==> NoLateEnds(steps, states)
  {
    hide Registered, Late, Finish, EntriesAreStreams;
    if NoLateEnds(steps, states) {
      forall n | 0 <= n <= |steps| ensures Registered(states[n]) {
        RegisteredUpTo(steps, states, n);
      }
    }
    if forall n :: 0 <= n <= |steps| ==> Registered(states[n]) {
      forall i | 0 <= i < |steps| && steps[i].FinishStep? ensures !Late(states[i], steps[i].stream) {
        assert Registered(states[i]) && Registered(states[i + 1]);
        RunKeeps(steps, states, i);
        FinishKeepsRegistered(states[i], steps[i].stream);
      }
    }
  }

  lemma {:induction false} RegisteredUpTo(steps: seq<Step>, states: seq<State>, n: nat)
    requires IsRun(steps, states) && NoLateEnds(steps, states) && n <= |steps|
    ensures Registered(states[n])
  {
    if n > 0 {
      hide Registered, Finish, EntriesAreStreams;
      RegisteredUpTo(steps, states, n - 1);
      RunKeeps(steps, states, n - 1);
      match steps[n - 1]
      case FinishStep(stream) => FinishKeepsRegistered(states[n - 1], stream);
      case _ => OtherStepsKeepRegistered(states[n - 1], steps[n - 1]);
    }
  }

  // ----- when no container is read twice -----

  predicate LiveOf(s: State, t: nat, id: string) {
    t in s.running && t !in s.cancelled && t in s.streams && s.streams[t].id == id
  }

  /** At most one live stream per container id. */
  ghost predicate OneLive(s: State) {
    forall id, t, u :: LiveOf(s, t, id) && LiveOf(s, u, id) ==> t == u
  }

  /** The activation cancels stream `t`: the one under the name, or else the one under the
      name the id had. */
  predicate Displaces(s: State, name: string, id: string, t: nat) {
    if name in s.active then t == s.active[name].cancel
    else id in s.ids && s.ids[id] in s.active && s.active[s.ids[id]].id == id && t == s.active[s.ids[id]].cancel
  }

  /** The activation starts a stream of an id that has a live one it does not cancel. */
  ghost predicate Doubles(s: State, name: string, id: string) {
    !AlreadyActive(s, name, id) && exists t :: LiveOf(s, t, id) && !Displaces(s, name, id, t)
  }

  lemma LiveAfterActivate(s: State, name: string, id: string, cancel: nat, t: nat, other: string)
    requires EntriesAreStreams(s) && cancel !in s.streams && !AlreadyActive(s, name, id)
    ensures LiveOf(Activate(s, name, id, cancel), t, other)
       <==> (t == cancel && other == id) || (LiveOf(s, t, other) && !Displaces(s, name, id, t))
  {
  }

  /** An activation keeps one live stream per id exactly when it does not double one. */
  lemma ActivateKeepsOneLive(s: State, name: string, id: string, cancel: nat)
    requires EntriesAreStreams(s) && OneLive(s) && cancel !in s.streams
    ensures OneLive(Activate(s, name, id, cancel)) <==> !Doubles(s, name, id)
  {
    if !AlreadyActive(s, name, id) {
      hide LiveOf, Displaces, Activate, EntriesAreStreams;
      var s' := Activate(s, name, id, cancel);
      forall t, other
        ensures LiveOf(s', t, other)
           <==> (t == cancel && other == id) || (LiveOf(s, t, other) && !Displaces(s, name, id, t))
      {
        LiveAfterActivate(s, name, id, cancel, t, other);
      }
      assert LiveOf(s', cancel, id);
      NotYetLive(s, cancel);
    }
  }

  lemma NotYetLive(s: State, cancel: nat)
    requires cancel !in s.streams
    ensures forall id :: !LiveOf(s, cancel, id)
  {
  }

  lemma OtherStepsKeepOneLive(s: State, step: Step)
    requires OneLive(s) && Enabled(s, step) && !step.ActivateStep?
    ensures OneLive(Apply(s, step))
  {
    var s' := Apply(s, step);
    assert s'.running <= s.running && s.cancelled <= s'.cancelled && s'.streams == s.streams;
    forall id, t | LiveOf(s', t, id) ensures LiveOf(s, t, id) { }
  }

  /** A stop of an id leaves no live stream of it exactly when at most the registered one was
      live; it touches no other id. */
  lemma StopSilences(s: State, id: string)
    requires IdsArePointers(s) && EntriesAreStreams(s)
    ensures (forall t :: !LiveOf(Stop(s, id), t, id))
       <==> (forall t :: LiveOf(s, t, id) ==> id in s.ids && t == s.active[s.ids[id]].cancel)
    ensures forall t, other :: other != id ==> (LiveOf(Stop(s, id), t, other) <==> LiveOf(s, t, other))
  {
    forall t ensures LiveOf(Stop(s, id), t, id)
                <==> LiveOf(s, t, id) && !(id in s.ids && t == s.active[s.ids[id]].cancel)
    {
    }
  }

  /** stopAll leaves no live stream at all exactly when every live stream was registered. */
  lemma StopAllSilences(s: State)
    requires EntriesAreStreams(s)
    ensures (forall t, id :: !LiveOf(StopAll(s), t, id)) <==> Registered(s)
  {
    forall t, id ensures LiveOf(StopAll(s), t, id) <==> LiveOf(s, t, id) && t !in CancelsOf(s.active) { }
    if Registered(s) {
      forall t, id | LiveOf(s, t, id) ensures t in CancelsOf(s.active) {
        assert s.streams[t].name in s.active;
      }
    }
    if forall t, id :: !LiveOf(StopAll(s), t, id) {
      forall t | t in s.running && t !in s.cancelled && t in s.streams
        ensures s.streams[t].name in s.active && s.active[s.streams[t].name].cancel == t
      {
        assert LiveOf(s, t, s.streams[t].id);
        assert !LiveOf(StopAll(s), t, s.streams[t].id);
      }
    }
  }

  /** In a run without late ends nothing survives stopAll. */
  lemma StopAllEndsEverything(steps: seq<Step>, states: seq<State>, n: nat, t: nat, id: string)
    requires IsRun(steps, states) && NoLateEnds(steps, states) && n <= |steps|
    ensures !LiveOf(StopAll(states[n]), t, id)
  {
    hide Registered, EntriesAreStreams, StopAll, LiveOf;
    RunKeeps(steps, states, n);
    RegisteredUpTo(steps, states, n);
    StopAllSilences(states[n]);
  }

  ghost predicate NoDoubling(steps: seq<Step>, states: seq<State>)
    requires |states| == |steps| + 1
  {
    forall i :: 0 <= i < |steps| && steps[i].ActivateStep? ==> !Doubles(states[i], steps[i].name, steps[i].id)
  }

  lemma {:induction false} OneLiveUpTo(steps: seq<Step>, states: seq<State>, n: nat)
    requires IsRun(steps, states) && NoDoubling(steps, states) && n <= |steps|
    ensures OneLive(states[n])
  {
    if n > 0 {
      hide OneLive, Doubles, Activate, EntriesAreStreams;
      OneLiveUpTo(steps, states, n - 1);
      RunKeeps(steps, states, n - 1);
      match steps[n - 1]
      case ActivateStep(name, id, cancel) => ActivateKeepsOneLive(states[n - 1], name, id, cancel);
      case _ => OtherStepsKeepOneLive(states[n - 1], steps[n - 1]);
    } else {
      NothingIsLive();
    }
  }

  lemma NothingIsLive()
    ensures OneLive(Start())
  {
  }

  /** No container is read twice in a run exactly when no activation doubles a stream. */
  lemma OneLiveRun(steps: seq<Step>, states: seq<State>)
    requires IsRun(steps, states)
    ensures (forall n :: 0 <= n <= |steps| ==> OneLive(states[n])) <==> NoDoubling(steps, states)
  {
    hide OneLive, Doubles, Activate, EntriesAreStreams;
    if NoDoubling(steps, states) {
      forall n | 0 <= n <= |steps| ensures OneLive(states[n]) {
        OneLiveUpTo(steps, states, n);
      }
    }
    if forall n :: 0 <= n <= |steps| ==> OneLive(states[n]) {
      forall i | 0 <= i < |steps| && steps[i].ActivateStep? ensures !Doubles(states[i], steps[i].name, steps[i].id) {
        assert OneLive(states[i]) && OneLive(states[i + 1]);
        RunKeeps(steps, states, i);
        ActivateKeepsOneLive(states[i], steps[i].name, steps[i].id, steps[i].cancel);
      }
    }
  }

  /** While the maps are inverse and every live stream is registered, an activation doubles
      a stream exactly when it conflicts; a conflict doubles one in any case. */
  lemma DoublesIsConflict(s: State, name: string, id: string)
    requires IdsArePointers(s) && EntriesAreStreams(s)
    ensures Conflict(s, name, id) ==> Doubles(s, name, id)
    ensures Inverse(s) && Registered(s) ==> (Doubles(s, name, id) <==> Conflict(s, name, id))
  {
    if Conflict(s, name, id) {
      var other := s.active[s.ids[id]].cancel;
      assert s.streams[other].name != s.streams[s.active[name].cancel].name;
      assert LiveOf(s, other, id) && !Displaces(s, name, id, other);
    }
  }

  /** In a run without late ends no container is ever read twice exactly when no
      activation conflicts. */
  lemma OneLiveStreamPerId(steps: seq<Step>, states: seq<State>)
    requires IsRun(steps, states) && NoLateEnds(steps, states)
    ensures (forall n :: 0 <= n <= |steps| ==> OneLive(states[n])) <==> NoConflicts(steps, states)
  {
    hide OneLive, Doubles, Conflict, Inverse, Registered, Apply, EntriesAreStreams, IdsArePointers;
    OneLiveRun(steps, states);
    forall i | 0 <= i < |steps| && steps[i].ActivateStep?
      ensures Conflict(states[i], steps[i].name, steps[i].id) ==> Doubles(states[i], steps[i].name, steps[i].id)
      ensures NoConflicts(steps, states) ==> !Doubles(states[i], steps[i].name, steps[i].id)
    {
      RunKeeps(steps, states, i);
      DoublesIsConflict(states[i], steps[i].name, steps[i].id);
      if NoConflicts(steps, states) {
        InverseUpTo(steps, states, i);
        RegisteredUpTo(steps, states, i);
      }
    }
  }

  /** A conflict really doubles a stream: after a swap of names seen half-way, id "x"
      is read by two live streams. */
  lemma ConflictDoublesAStream() returns (steps: seq<Step>, states: seq<State>)
    ensures IsRun(steps, states) && NoLateEnds(steps, states)
    ensures steps == [ActivateStep("a", "x", 1), ActivateStep("b", "y", 2), ActivateStep("b", "x", 3)]
    ensures LiveOf(states[3], 1, "x") && LiveOf(states[3], 3, "x") && !OneLive(states[3])
  {
    steps := [ActivateStep("a", "x", 1), ActivateStep("b", "y", 2), ActivateStep("b", "x", 3)];
    var s0 := Start();
    var s1 := Activate(s0, "a", "x", 1);
    var s2 := Activate(s1, "b", "y", 2);
    var s3 := Activate(s2, "b", "x", 3);
    states := [s0, s1, s2, s3];
    assert LiveOf(s3, 1, "x") && LiveOf(s3, 3, "x");
  }

  /** A late end really loses a stream: stream 2 runs on, and no stop can reach it. */
  lemma LateEndLosesAStream() returns (steps: seq<Step>, states: seq<State>)
    ensures IsRun(steps, states) && NoConflicts(steps, states)
    ensures steps == [ActivateStep("a", "x", 1), StopStep("x"), ActivateStep("a", "x", 2), FinishStep(1)]
    ensures LiveOf(states[4], 2, "x") && states[4].active == map[] && states[4].ids == map[]
    ensures 3 !in states[4].streams && Late(states[3], 1)
  {
    steps := [ActivateStep("a", "x", 1), StopStep("x"), ActivateStep("a", "x", 2), FinishStep(1)];
    var s0 := Start();
    var s1 := Activate(s0, "a", "x", 1);
    var s2 := Stop(s1, "x");
    assert s1.ids["x"] == "a" && s2.active == map[] && s2.ids == map[];
    var s3 := Activate(s2, "a", "x", 2);
    var s4 := Finish(s3, 1);
    states := [s0, s1, s2, s3, s4];
  }

  /** Lost like that, it is doubled by the next activation, although no activation of the
      run conflicts. */
  lemma LateEndDoublesAStream() returns (steps: seq<Step>, states: seq<State>)
    ensures IsRun(steps, states) && NoConflicts(steps, states) && |steps| == 5
    ensures steps[3] == FinishStep(1) && Late(states[3], 1) && steps[4] == ActivateStep("a", "x", 3)
    ensures LiveOf(states[5], 2, "x") && LiveOf(states[5], 3, "x") && !OneLive(states[5])
  {
    steps, states := LateEndLosesAStream();
    RunKeeps(steps, states, 4);
    var s5 := Activate(states[4], "a", "x", 3);
    steps, states := steps + [ActivateStep("a", "x", 3)], states + [s5];
    assert LiveOf(s5, 2, "x") && LiveOf(s5, 3, "x");
  }
}
