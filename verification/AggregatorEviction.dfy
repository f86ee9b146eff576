/** What each call does to each group, in terms of the calls before it: when a group was last
    added to, which ones an eviction takes, and what becomes of the group of an added event. */
module AggregatorEviction {
  import opened Base
  import opened AggregatorModel
  import opened AggregatorProofs

  /** An Add that is buffered under `key`. */
  predicate AddsTo(op: Op, key: string, unknownLogID: string) {
    op.AddOp? && op.event.logID == key && !(op.event.alert && key == unknownLogID)
  }

  /** The clock of the last such Add. */
  function LastAdd(ops: seq<Op>, key: string, unknownLogID: string): Option<Time> {
    if ops == [] then None
    else
      var last := ops[|ops| - 1];
      if AddsTo(last, key, unknownLogID) then Some(last.now) else LastAdd(ops[..|ops| - 1], key, unknownLogID)
  }

  lemma {:induction false} LastAddIs(ops: seq<Op>, key: string, unknownLogID: string) returns (c: nat)
    requires LastAdd(ops, key, unknownLogID).Some?
    ensures c < |ops| && AddsTo(ops[c], key, unknownLogID) && LastAdd(ops, key, unknownLogID) == Some(ops[c].now)
    ensures forall j :: c < j < |ops| ==> !AddsTo(ops[j], key, unknownLogID)
  {
    var n := |ops| - 1;
    if AddsTo(ops[n], key, unknownLogID) {
      c := n;
    } else {
      c := LastAddIs(ops[..n], key, unknownLogID);
      assert forall j :: 0 <= j < n ==> ops[..n][j] == ops[j];
    }
  }

  // ----- the touch time of a group -----

  lemma PushedIsTouched(cfg: Config, now: Time, event: Event, s: State, g1: map<string, Group>)
    requires 1 <= cfg.maxGroupSize
    ensures Pushed(cfg, now, event, s, g1).lastTouched == now
  {
  }

  /** A call touches the group it adds to, at its own time, and leaves the others as they are. */
  lemma NextTouches(cfg: Config, s: State, op: Op, s': State, key: string)
    requires ValidConfig(cfg) && Next(cfg, s, op, s') && key in s'.groups
    ensures if AddsTo(op, key, cfg.unknownLogID) then s'.groups[key].lastTouched == op.now
            else key in s.groups && s'.groups[key] == s.groups[key]
  {
    hide AddGrouped, FlushStep, Pushed;
    match op
    case AddOp(now, event) =>
      if !FlushedIndividually(cfg, event) {
        var g1, gEnd :| AddGrouped(cfg, now, event, s, s', g1, gEnd);
        AddGroupedSubmaps(cfg, now, event, s, s', g1, gEnd);
        PushedIsTouched(cfg, now, event, s, g1);
      }
    case FlushOp(now) => FlushLeavesNoAlert(cfg, now, s, s');
    case EnterOp =>
    case ExitOp =>
  }

  /** In every run a group's touch time is the clock of the last Add to it. */
  lemma {:induction false} TouchIsLastAdd(cfg: Config, ops: seq<Op>, states: seq<State>, n: nat, key: string)
    requires ValidConfig(cfg) && IsRun(cfg, ops, states) && n <= |ops| && key in states[n].groups
    ensures LastAdd(ops[..n], key, cfg.unknownLogID) == Some(states[n].groups[key].lastTouched)
  {
    hide Next, AddsTo;
    assert n > 0;
    NextTouches(cfg, states[n - 1], ops[n - 1], states[n], key);
    assert ops[..n][..n - 1] == ops[..n - 1];
    if !AddsTo(ops[n - 1], key, cfg.unknownLogID) {
      TouchIsLastAdd(cfg, ops, states, n - 1, key);
    }
  }

  // ----- which groups an eviction takes -----

  /** Groups without an alert that have been idle for the TTL. */
  function Idle(cfg: Config, now: Time, gs: map<string, Group>): set<string> {
    set k | k in gs && !gs[k].hasAlert && cfg.groupTTL > 0 && now - gs[k].lastTouched >= cfg.groupTTL
  }

  /** One eviction, to the group: all idle ones go, no group with an alert does, and of the
      rest exactly as many as the cap asks for, least recently touched first. */
  lemma EvictionRule(cfg: Config, now: Time, gs: map<string, Group>, gs': map<string, Group>)
    requires Evict(cfg, now, gs, gs')
    ensures forall k :: k in gs' ==> k in gs && gs'[k] == gs[k] && k !in Idle(cfg, now, gs)
    ensures forall k :: k in gs && gs[k].hasAlert ==> k in gs'
    ensures var left, alerts := |gs| - |Idle(cfg, now, gs)|, |set k | k in gs && gs[k].hasAlert|;
            |gs'| == if cfg.maxGroups <= 0 || left <= cfg.maxGroups then left else Max(cfg.maxGroups, alerts)
    ensures forall r, v :: r in gs && r !in Idle(cfg, now, gs) && r !in gs' && v in gs' && !gs[v].hasAlert ==>
              gs[r].lastTouched <= gs[v].lastTouched
  {
    EvictKeepsAlerts(cfg, now, gs, gs');
    LiveIsNotIdle(cfg, now, gs);
    assert AlertKeys(gs) == set k | k in gs && gs[k].hasAlert;
  }

  lemma LiveIsNotIdle(cfg: Config, now: Time, gs: map<string, Group>)
    ensures |Live(cfg, now, gs)| == |gs| - |Idle(cfg, now, gs)|
    ensures forall k :: k in Live(cfg, now, gs) <==> k in gs && k !in Idle(cfg, now, gs)
  {
    assert Live(cfg, now, gs).Keys == gs.Keys - Idle(cfg, now, gs);
  }

  /** Without a cap that bites, what is left is exactly what is not idle. */
  lemma OnlyIdleGoes(cfg: Config, now: Time, gs: map<string, Group>, gs': map<string, Group>)
    requires Evict(cfg, now, gs, gs') && cfg.maxGroups <= 0
    ensures gs'.Keys == gs.Keys - Idle(cfg, now, gs)
  {
    LiveIsNotIdle(cfg, now, gs);
    SubsetSize(gs'.Keys, Live(cfg, now, gs).Keys);
  }

  /** At `now` the group of `key` has no alert and was last added to at least the TTL ago. */
  predicate IsIdle(cfg: Config, ops: seq<Op>, s: State, now: Time, key: string)
    requires key in s.groups
  {
    var last := LastAdd(ops, key, cfg.unknownLogID);
    !s.groups[key].hasAlert && cfg.groupTTL > 0 && last.Some? && now - last.value >= cfg.groupTTL
  }

  /** The rule over runs, by the last Add of each id: an eviction at time `now` in state `n`
      takes every group without an alert last added to at least the TTL ago, none with an
      alert, and beyond those none last added to after one it leaves. */
  lemma EvictionFollowsLastAdd(cfg: Config, ops: seq<Op>, states: seq<State>, n: nat, now: Time,
                               gs': map<string, Group>)
    requires ValidConfig(cfg) && IsRun(cfg, ops, states) && n <= |ops| && Evict(cfg, now, states[n].groups, gs')
    ensures var gs := states[n].groups;
            && (forall k :: k in gs ==> LastAdd(ops[..n], k, cfg.unknownLogID).Some?)
            && (forall k :: k in gs && gs[k].hasAlert ==> k in gs')
            && (forall k :: k in gs && IsIdle(cfg, ops[..n], states[n], now, k) ==> k !in gs')
            && (cfg.maxGroups == 0 ==> forall k :: k in gs && k !in gs' ==> IsIdle(cfg, ops[..n], states[n], now, k))
            && forall r, v :: r in gs && r !in gs' && v in gs' && !gs[v].hasAlert ==>
                 LastAdd(ops[..n], r, cfg.unknownLogID).value <= LastAdd(ops[..n], v, cfg.unknownLogID).value
  {
    hide Evict, Next, LastAdd;
    var gs := states[n].groups;
    forall k | k in gs ensures LastAdd(ops[..n], k, cfg.unknownLogID) == Some(gs[k].lastTouched) {
      TouchIsLastAdd(cfg, ops, states, n, k);
    }
    EvictionRule(cfg, now, gs, gs');
    if cfg.maxGroups == 0 { OnlyIdleGoes(cfg, now, gs, gs'); }
  }

  // ----- what a call does to the groups of other ids -----

  lemma AddLeavesOthers(cfg: Config, now: Time, event: Event, s: State, s': State, key: string)
    requires ValidConfig(cfg) && AddStep(cfg, now, event, s, s') && !(event.alert && event.logID == cfg.unknownLogID)
    requires key in s.groups && key != event.logID
    ensures key in Idle(cfg, now, s.groups) ==> key !in s'.groups
    ensures s.groups[key].hasAlert || (cfg.maxGroups == 0 && key !in Idle(cfg, now, s.groups)) ==>
              key in s'.groups && s'.groups[key] == s.groups[key]
  {
    hide Evict, AddGrouped, Pushed;
    var g1, gEnd :| AddGrouped(cfg, now, event, s, s', g1, gEnd);
    var g2: map<string, Group> := g1[event.logID := Pushed(cfg, now, event, s, g1)];
    AddGroupedGroups(cfg, now, event, s, s', g1, gEnd);
    EvictionRule(cfg, now, s.groups, g1);
    if cfg.maxGroups == 0 { OnlyIdleGoes(cfg, now, s.groups, g1); }
    if s'.groups != g2 - {event.logID} {
      EvictionRule(cfg, now, g2, gEnd);
      if cfg.maxGroups == 0 { OnlyIdleGoes(cfg, now, g2, gEnd); }
    }
  }

  lemma FlushLeavesOthers(cfg: Config, now: Time, s: State, s': State, key: string)
    requires ValidConfig(cfg) && FlushStep(cfg, now, s, s') && key in s.groups
    ensures s.groups[key].hasAlert || key in Idle(cfg, now, s.groups) ==> key !in s'.groups
    ensures !s.groups[key].hasAlert && cfg.maxGroups == 0 && key !in Idle(cfg, now, s.groups) ==>
              key in s'.groups && s'.groups[key] == s.groups[key]
  {
    hide Evict, Drain;
    var g1: map<string, Group>, order :| FlushGroups(cfg, now, s, s', g1, order);
    EvictionRule(cfg, now, s.groups, g1);
    if cfg.maxGroups == 0 { OnlyIdleGoes(cfg, now, s.groups, g1); }
    DrainLeaves(s, s', g1, order, key);
  }

  /** What a FlushAll, or an Add of another id that goes to a group, does to a group: one
      with an alert leaves at a FlushAll and stays at an Add; of the others the idle ones go,
      and without a cap every other one stays as it is. */
  lemma CallLeavesOthers(cfg: Config, ops: seq<Op>, states: seq<State>, n: nat, key: string)
    requires ValidConfig(cfg) && IsRun(cfg, ops, states) && n < |ops| && key in states[n].groups
    requires ops[n].FlushOp? || (ops[n].AddOp? && ops[n].event.logID != key
                                 && !(ops[n].event.alert && ops[n].event.logID == cfg.unknownLogID))
    ensures var s, s', idle := states[n], states[n + 1], IsIdle(cfg, ops[..n], states[n], ops[n].now, key);
            && (s.groups[key].hasAlert ==> (key in s'.groups <==> ops[n].AddOp?))
            && (idle ==> key !in s'.groups)
            && (!s.groups[key].hasAlert && cfg.maxGroups == 0 ==> (key in s'.groups <==> !idle))
            && (key in s'.groups ==> s'.groups[key] == s.groups[key])
  {
    hide AddStep, FlushStep, LastAdd;
    var s, s' := states[n], states[n + 1];
    TouchIsLastAdd(cfg, ops, states, n, key);
    assert Next(cfg, s, ops[n], s');
    if key in s'.groups { NextTouches(cfg, s, ops[n], s', key); }
    if ops[n].AddOp? {
      AddLeavesOthers(cfg, ops[n].now, ops[n].event, s, s', key);
    } else {
      FlushLeavesOthers(cfg, ops[n].now, s, s', key);
    }
  }

  // ----- what becomes of the group of an added event -----

  /** What the group already holds when the event is pushed: nothing if there is none, or if
      it has just gone as idle; all of it if it has an alert, or if it is not idle and
      there is no cap. */
  ghost predicate HeldBefore(cfg: Config, now: Time, key: string, s: State, before: seq<Event>) {
    && (key !in s.groups || key in Idle(cfg, now, s.groups) ==> before == [])
    && (key in s.groups ==> before == [] || before == s.groups[key].events)
    && (key in s.groups && (s.groups[key].hasAlert || (cfg.maxGroups == 0 && key !in Idle(cfg, now, s.groups))) ==>
          before == s.groups[key].events)
  }

  /** Exactly: without an alert a group of `maxGroupSize` events is thrown away; with one a
      group of `flushSize` events is sent; any other stays, but for one without an alert
      that the cap takes. */
  ghost predicate Fate(cfg: Config, now: Time, key: string, s: State, s': State, events: seq<Event>) {
    var alert := exists e :: e in events && e.alert;
    && (!alert && |events| >= cfg.maxGroupSize ==> key !in s'.groups && s'.sent == s.sent)
    && (alert && |events| >= cfg.flushSize ==>
          && key !in s'.groups && |s'.sent| == |s.sent| + 1 && s.sent == s'.sent[..|s.sent|]
          && s'.sent[|s.sent|].batch.logID == key && multiset(s'.sent[|s.sent|].batch.events) == multiset(events))
    && (alert && |events| < cfg.flushSize ==> key in s'.groups && s'.sent == s.sent)
    && (!alert && |events| < cfg.maxGroupSize ==> s'.sent == s.sent && (cfg.maxGroups == 0 ==> key in s'.groups))
    && (key in s'.groups ==> s'.groups[key].events == events && s'.groups[key].lastTouched == now)
  }

  lemma PushedFate(cfg: Config, now: Time, event: Event, s: State, s': State, g1: map<string, Group>,
                   gEnd: map<string, Group>)
    requires ValidConfig(cfg) && !FlushedIndividually(cfg, event) && AddGrouped(cfg, now, event, s, s', g1, gEnd)
    requires GroupsTracked(cfg, s) && GroupsShaped(cfg, s.groups)
    ensures Fate(cfg, now, event.logID, s, s', Pushed(cfg, now, event, s, g1).events)
  {
    hide Evict, IsStableSort, Tracks, Shape, Buffered, Push;
    var key, g := event.logID, Pushed(cfg, now, event, s, g1);
    var g2: map<string, Group> := g1[key := g];
    AddGroupedSubmaps(cfg, now, event, s, s', g1, gEnd);
    PushedTracks(cfg, now, event, s, g1);
    TrackedAlert(cfg, s.added + [event], key, g);
    PushedIsTouched(cfg, now, event, s, g1);
    if g.hasAlert || |g.events| < cfg.maxGroupSize {
      EvictionRule(cfg, now, g2, gEnd);
      if cfg.maxGroups == 0 { OnlyIdleGoes(cfg, now, g2, gEnd); }
    }
    if |s'.sent| > |s.sent| {
      StableSortIsPermutation(g.events, s'.sent[|s.sent|].batch.events);
    }
  }

  lemma TrackedAlert(cfg: Config, added: seq<Event>, key: string, g: Group)
    requires Tracks(cfg, added, key, g)
    ensures g.hasAlert <==> exists e :: e in g.events && e.alert
  {
  }

  lemma PushedHolds(cfg: Config, now: Time, event: Event, s: State, g1: map<string, Group>)
    requires ValidConfig(cfg) && Evict(cfg, now, s.groups, g1) && !FlushedIndividually(cfg, event)
    requires GroupsTracked(cfg, s) && GroupsShaped(cfg, s.groups)
    ensures var before := if event.logID in g1 then g1[event.logID].events else [];
            && HeldBefore(cfg, now, event.logID, s, before)
            && Pushed(cfg, now, event, s, g1).events == before + [event]
  {
    hide Evict, Tracks, Shape;
    EvictionRule(cfg, now, s.groups, g1);
    if cfg.maxGroups == 0 { OnlyIdleGoes(cfg, now, s.groups, g1); }
    EvictKeepsAlerts(cfg, now, s.groups, g1);
    PushedTracks(cfg, now, event, s, g1);
  }

  /** What becomes of an added event and its group.  An alert of the unknown id is sent alone
      and changes no group; any other event joins what its group still holds, and the group
      meets its fate. */
  lemma AddDecides(cfg: Config, now: Time, event: Event, s: State, s': State) returns (before: seq<Event>)
    requires ValidConfig(cfg) && Inv(cfg, s) && AddStep(cfg, now, event, s, s')
    ensures event.alert && event.logID == cfg.unknownLogID ==>
              && s'.groups == s.groups && |s'.sent| == |s.sent| + 1 && s.sent == s'.sent[..|s.sent|]
              && s'.sent[|s.sent|].batch == Batch(event.logID, event.timestamp, event.timestamp, 1,
                                                  [event.container], [event], s.active > 0)
    ensures !(event.alert && event.logID == cfg.unknownLogID) ==>
              && HeldBefore(cfg, now, event.logID, s, before)
              && Fate(cfg, now, event.logID, s, s', before + [event])
  {
    hide Inv, AddGrouped, Evict, Pushed, HeldBefore, Fate;
    InvGroups(cfg, s);
    before := [];
    if !FlushedIndividually(cfg, event) {
      var g1: map<string, Group>, gEnd :| AddGrouped(cfg, now, event, s, s', g1, gEnd);
      before := if event.logID in g1 then g1[event.logID].events else [];
      AddGroupedGroups(cfg, now, event, s, s', g1, gEnd);
      PushedHolds(cfg, now, event, s, g1);
      PushedFate(cfg, now, event, s, s', g1, gEnd);
    }
  }
}
