/** Theorems about the aggregator's steps and runs. */
module AggregatorProofs {
  import opened Base
  import opened AggregatorModel

  // ----- logs and folds -----

  lemma KeptSnoc(log: seq<Event>, e: Event, key: string, unknown: string)
    ensures Kept(log + [e], key, unknown) == Kept(log, key, unknown) + if GoesToGroup(e, key, unknown) then [e] else []
  {
    assert (log + [e])[..|log|] == log;
  }

  lemma KeptSuffixSnoc(log: seq<Event>, since: nat, e: Event, key: string, unknown: string)
    requires since <= |log|
    ensures Kept((log + [e])[since..], key, unknown)
         == Kept(log[since..], key, unknown) + if GoesToGroup(e, key, unknown) then [e] else []
  {
    assert (log + [e])[since..] == log[since..] + [e];
    KeptSnoc(log[since..], e, key, unknown);
  }

  lemma MaxTimeSnoc(es: seq<Event>, e: Event)
    requires es != []
    ensures MaxTime(es + [e]) == Max(MaxTime(es), e.timestamp)
  {
    assert (es + [e])[..|es|] == es;
  }

  lemma FirstSeenSnoc(es: seq<Event>, e: Event)
    requires es != []
    ensures FirstSeenOf(es + [e])
         == if FirstSeenOf(es) == ZERO_TIME || e.timestamp < FirstSeenOf(es) then e.timestamp else FirstSeenOf(es)
  {
    assert (es + [e])[..|es|] == es;
  }

  lemma CountAlertsSnoc(es: seq<Event>, e: Event)
    ensures CountAlerts(es + [e]) == CountAlerts(es) + if e.alert then 1 else 0
  {
    assert (es + [e])[..|es|] == es;
  }

  lemma SentCountSnoc(sent: seq<Record>, r: Record, e: Event)
    ensures SentCount(sent + [r], e) == SentCount(sent, e) + multiset(r.batch.events)[e]
  {
    assert (sent + [r])[..|sent|] == sent;
  }

  // ----- stable sorts -----

  /** A stable sort rearranges: no event is lost, none is made up. */
  lemma {:induction false} StableSortIsPermutation(events: seq<Event>, sorted: seq<Event>)
    requires IsStableSort(events, sorted)
    ensures multiset(sorted) == multiset(events)
  {
    forall e: Event
      ensures multiset(sorted)[e] == multiset(events)[e]
    {
      AtTimeCount(sorted, e);
      AtTimeCount(events, e);
    }
  }

  lemma {:induction false} AtTimeCount(events: seq<Event>, e: Event)
    ensures multiset(events)[e] == multiset(AtTime(events, e.timestamp))[e]
  {
    if events != [] {
      var last := events[|events| - 1];
      assert events == events[..|events| - 1] + [last];
      AtTimeCount(events[..|events| - 1], e);
    }
  }

  lemma {:induction false} AtTimeMember(events: seq<Event>, e: Event)
    ensures e in events <==> e in AtTime(events, e.timestamp)
  {
    AtTimeCount(events, e);
    assert e in events <==> e in multiset(events);
    assert e in AtTime(events, e.timestamp) <==> e in multiset(AtTime(events, e.timestamp));
  }

  /** Time order and stability leave no choice: there is one such batch order. */
  lemma {:induction false} StableSortUnique(events: seq<Event>, a: seq<Event>, b: seq<Event>)
    requires IsStableSort(events, a) && IsStableSort(events, b)
    ensures a == b
  {
    SortedWithSameTimesEqual(a, b);
  }

  lemma {:induction false} SortedWithSameTimesEqual(a: seq<Event>, b: seq<Event>)
    requires SortedByTime(a) && SortedByTime(b)
    requires forall t :: AtTime(a, t) == AtTime(b, t)
    ensures a == b
  {
    if a == [] {
      if b != [] { SameTimesNonempty(a, b); }
    } else {
      SameTimesNonempty(b, a);
      SameLast(a, b);
      var a', b', x := a[..|a| - 1], b[..|b| - 1], a[|a| - 1];
      assert a == a' + [x] && b == b' + [x];
      hide AtTime;
      forall t ensures AtTime(a', t) == AtTime(b', t) {
        SameTimesWithoutLast(a', b', x, t);
      }
      SortedWithSameTimesEqual(a', b');
    }
  }

  lemma SameLast(a: seq<Event>, b: seq<Event>)
    requires SortedByTime(a) && SortedByTime(b) && a != [] && b != []
    requires forall t :: AtTime(a, t) == AtTime(b, t)
    ensures a[|a| - 1] == b[|b| - 1]
  {
    hide AtTime;
    var x, y := a[|a| - 1], b[|b| - 1];
    AtTimeMember(a, x);
    AtTimeMember(b, x);
    AtTimeMember(a, y);
    AtTimeMember(b, y);
    assert AtTime(a, x.timestamp) == AtTime(b, x.timestamp) && AtTime(a, y.timestamp) == AtTime(b, y.timestamp);
    assert x in b && y in a;
    assert x.timestamp == y.timestamp;
    LastAtTime(a);
    LastAtTime(b);
  }

  lemma LastAtTime(a: seq<Event>)
    requires a != []
    ensures var all := AtTime(a, a[|a| - 1].timestamp); all != [] && all[|all| - 1] == a[|a| - 1]
  {
  }

  lemma SameTimesWithoutLast(a: seq<Event>, b: seq<Event>, x: Event, t: Time)
    requires AtTime(a + [x], t) == AtTime(b + [x], t)
    ensures AtTime(a, t) == AtTime(b, t)
  {
    assert (a + [x])[..|a|] == a && (b + [x])[..|b|] == b;
    var all, last := AtTime(a + [x], t), if x.timestamp == t then [x] else [];
    assert AtTime(a, t) == all[..|all| - |last|];
    assert AtTime(b, t) == all[..|all| - |last|];
  }

  lemma SameTimesNonempty(a: seq<Event>, b: seq<Event>)
    requires forall t :: AtTime(a, t) == AtTime(b, t)
    requires b != []
    ensures a != []
  {
    assert AtTime(b, b[|b| - 1].timestamp) != [];
  }

  lemma {:induction false} MaxTimeIsLast(events: seq<Event>, sorted: seq<Event>)
    requires IsStableSort(events, sorted) && events != []
    ensures sorted != [] && MaxTime(events) == sorted[|sorted| - 1].timestamp
  {
    StableSortIsPermutation(events, sorted);
    MaxTimeBounds(events);
    assert events[0] in multiset(events);
    assert sorted != [];
    var e :| e in events && e.timestamp == MaxTime(events);
    assert e in multiset(sorted);
    assert sorted[|sorted| - 1] in multiset(sorted);
  }

  lemma {:induction false} MaxTimeBounds(events: seq<Event>)
    requires events != []
    ensures forall e :: e in events ==> e.timestamp <= MaxTime(events)
    ensures exists e :: e in events && e.timestamp == MaxTime(events)
  {
    var last := events[|events| - 1];
    assert last in events;
    if |events| > 1 {
      var init := events[..|events| - 1];
      MaxTimeBounds(init);
      assert events == init + [last];
      var m :| m in init && m.timestamp == MaxTime(init);
      assert m in events;
    }
  }

  lemma {:induction false} MinTimeBounds(events: seq<Event>)
    requires events != []
    ensures forall e :: e in events ==> MinTime(events) <= e.timestamp
    ensures exists e :: e in events && e.timestamp == MinTime(events)
  {
    var last := events[|events| - 1];
    assert last in events;
    if |events| > 1 {
      var init := events[..|events| - 1];
      MinTimeBounds(init);
      assert events == init + [last];
      var m :| m in init && m.timestamp == MinTime(init);
      assert m in events;
    }
  }

  /** `firstSeen` is the earliest timestamp exactly when the earliest is not the zero
      time, or the last event added carries the zero time. */
  lemma {:induction false} FirstSeenIsMinimum(events: seq<Event>)
    requires events != []
    ensures FirstSeenOf(events) == MinTime(events)
       <==> (MinTime(events) != ZERO_TIME || events[|events| - 1].timestamp == ZERO_TIME)
    ensures MinTime(events) >= ZERO_TIME ==> FirstSeenOf(events) >= ZERO_TIME
    ensures MinTime(events) > ZERO_TIME ==> FirstSeenOf(events) > ZERO_TIME
    ensures MinTime(events) == ZERO_TIME ==>
              (FirstSeenOf(events) == ZERO_TIME <==> events[|events| - 1].timestamp == ZERO_TIME)
  {
    if |events| > 1 {
      FirstSeenIsMinimum(events[..|events| - 1]);
    }
  }

  // ----- one Add -----

  lemma PushToNewGroup(event: Event, now: Time, since: nat, maxGroupSize: GoInt)
    requires 1 <= maxGroupSize
    ensures Push(NewGroup(event, now, since), event, now, maxGroupSize)
         == Group(since, event.timestamp, event.timestamp, now, {event.container}, event.alert, [event])
  {
    assert [] + [event] == [event];
  }

  lemma NewGroupTracks(cfg: Config, added: seq<Event>, event: Event, now: Time)
    requires ValidConfig(cfg) && GoesToGroup(event, event.logID, cfg.unknownLogID)
    ensures Tracks(cfg, added + [event], event.logID, Push(NewGroup(event, now, |added|), event, now, cfg.maxGroupSize))
  {
    hide Push, AnyAlert, ContainersOf;
    PushToNewGroup(event, now, |added|, cfg.maxGroupSize);
    assert added[|added|..] == [];
    KeptSuffixSnoc(added, |added|, event, event.logID, cfg.unknownLogID);
    assert [] + [event] == [event];
    EventsSnoc([], event);
    NoEvents();
  }

  lemma NoEvents()
    ensures !AnyAlert([]) && ContainersOf([]) == {}
  {
  }

  /** Pushing onto a group below its limits never trims. */
  lemma {:induction false} PushTracks(cfg: Config, added: seq<Event>, event: Event, now: Time, before: Group)
    requires ValidConfig(cfg) && GoesToGroup(event, event.logID, cfg.unknownLogID)
    requires Tracks(cfg, added, event.logID, before) && Shape(cfg, before)
    ensures OverflowCount(|before.events|, cfg.maxGroupSize) == 0
    ensures Tracks(cfg, added + [event], event.logID, Push(before, event, now, cfg.maxGroupSize))
  {
    var g := Push(before, event, now, cfg.maxGroupSize);
    assert g.events == before.events + [event];
    KeptSuffixSnoc(added, before.since, event, event.logID, cfg.unknownLogID);
    EventsSnoc(before.events, event);
    MaxTimeSnoc(before.events, event);
    FirstSeenSnoc(before.events, event);
  }

  /** A push trims a group to its newest events, and the first-seen time with it. */
  lemma PushTrims(g: Group, event: Event, now: Time, maxGroupSize: GoInt)
    requires 1 <= maxGroupSize
    ensures var all, p := g.events + [event], Push(g, event, now, maxGroupSize);
            && p.events == (if |all| <= maxGroupSize then all else all[|all| - maxGroupSize..])
            && (|all| > maxGroupSize ==> p.firstSeen == p.events[0].timestamp)
            && p.lastTouched == now && p.containers == g.containers + {event.container}
            && (p.hasAlert <==> g.hasAlert || event.alert) && p.since == g.since
  {
  }

  lemma EventsSnoc(es: seq<Event>, e: Event)
    ensures AnyAlert(es + [e]) <==> AnyAlert(es) || e.alert
    ensures ContainersOf(es + [e]) == ContainersOf(es) + {e.container}
  {
    assert e in es + [e];
    forall x | x in es ensures x in es + [e] { }
  }

  lemma OtherGroupTracks(cfg: Config, added: seq<Event>, event: Event, key: string, g: Group)
    requires Tracks(cfg, added, key, g) && !GoesToGroup(event, key, cfg.unknownLogID)
    ensures Tracks(cfg, added + [event], key, g)
  {
    KeptSuffixSnoc(added, g.since, event, key, cfg.unknownLogID);
  }

  /** The group an added event ends up in, between the two evictions. */
  ghost function Pushed(cfg: Config, now: Time, event: Event, s: State, g1: map<string, Group>): Group
    requires 1 <= cfg.maxGroupSize
  {
    Push(if event.logID in g1 then g1[event.logID] else NewGroup(event, now, |s.added|), event, now, cfg.maxGroupSize)
  }

  /** Eviction never takes a group that carries an alert. */
  lemma EvictKeepsAlerts(cfg: Config, now: Time, gs: map<string, Group>, gs': map<string, Group>)
    requires Evict(cfg, now, gs, gs')
    ensures Submap(gs', gs)
    ensures forall k :: k in gs && gs[k].hasAlert ==> k in gs'
  {
    forall k | k in gs && gs[k].hasAlert
      ensures k in gs'
    {
      assert k in AlertKeys(gs);
    }
  }

  /** An Add only ever shrinks the map, but for the one group it pushes to. */
  lemma AddGroupedSubmaps(cfg: Config, now: Time, event: Event, s: State, s': State,
                          g1: map<string, Group>, gEnd: map<string, Group>)
    requires 1 <= cfg.maxGroupSize && AddGrouped(cfg, now, event, s, s', g1, gEnd)
    ensures Submap(g1, s.groups)
    ensures Submap(s'.groups, g1[event.logID := Pushed(cfg, now, event, s, g1)])
  {
    hide Push;
  }

  lemma PushedTracks(cfg: Config, now: Time, event: Event, s: State, g1: map<string, Group>)
    requires ValidConfig(cfg) && GroupsTracked(cfg, s) && GroupsShaped(cfg, s.groups) && Submap(g1, s.groups)
    requires !FlushedIndividually(cfg, event)
    ensures var before := if event.logID in g1 then g1[event.logID] else NewGroup(event, now, |s.added|);
            OverflowCount(|before.events|, cfg.maxGroupSize) == 0
    ensures Tracks(cfg, s.added + [event], event.logID, Pushed(cfg, now, event, s, g1))
    ensures forall k :: k in g1 && k != event.logID ==> Tracks(cfg, s.added + [event], k, g1[k])
  {
    hide Tracks, Shape, Push;
    if event.logID in g1 {
      PushTracks(cfg, s.added, event, now, g1[event.logID]);
    } else {
      NewGroupTracks(cfg, s.added, event, now);
    }
    forall k | k in g1 && k != event.logID
      ensures Tracks(cfg, s.added + [event], k, g1[k])
    {
      OtherGroupTracks(cfg, s.added, event, k, g1[k]);
    }
  }

  lemma AddGroupsTracked(cfg: Config, now: Time, event: Event, s: State, s': State)
    requires ValidConfig(cfg) && AddStep(cfg, now, event, s, s')
    requires GroupsTracked(cfg, s) && GroupsShaped(cfg, s.groups)
    ensures GroupsTracked(cfg, s')
  {
    hide AddGrouped, Tracks, Pushed;
    if FlushedIndividually(cfg, event) {
      forall k | k in s.groups
        ensures Tracks(cfg, s'.added, k, s'.groups[k])
      {
        OtherGroupTracks(cfg, s.added, event, k, s.groups[k]);
      }
    } else {
      var g1, gEnd :| AddGrouped(cfg, now, event, s, s', g1, gEnd);
      AddGroupedSubmaps(cfg, now, event, s, s', g1, gEnd);
      PushedTracks(cfg, now, event, s, g1);
    }
  }

  /** Below the limits before, below the limits after: an alert group that reaches
      `flushSize` is flushed and an alert-less one that reaches `maxGroupSize` dropped. */
  lemma AddGroupsShaped(cfg: Config, now: Time, event: Event, s: State, s': State)
    requires ValidConfig(cfg) && AddStep(cfg, now, event, s, s') && GroupsShaped(cfg, s.groups)
    ensures GroupsShaped(cfg, s'.groups)
  {
    hide Evict, Push;
    if !FlushedIndividually(cfg, event) {
      var g1, gEnd :| AddGrouped(cfg, now, event, s, s', g1, gEnd);
      var g2 := g1[event.logID := Pushed(cfg, now, event, s, g1)];
      EvictKeepsAlerts(cfg, now, s.groups, g1);
      if gEnd != g2 - {event.logID} {
        EvictKeepsAlerts(cfg, now, g2, gEnd);
      }
    }
  }

  // ----- conservation -----

  /** What one Add moves: an event enters, and what leaves the map is flushed or discarded. */
  lemma AddCounts(cfg: Config, now: Time, event: Event, s: State, s': State,
                  g1: map<string, Group>, gEnd: map<string, Group>, x: Event)
    requires ValidConfig(cfg) && !FlushedIndividually(cfg, event) && AddGrouped(cfg, now, event, s, s', g1, gEnd)
    requires GroupsTracked(cfg, s) && GroupsShaped(cfg, s.groups) && s'.added == s.added + [event]
    ensures SentCount(s'.sent, x) + Buffered(s'.groups, x) + s'.discarded[x]
         == SentCount(s.sent, x) + s.discarded[x] + (Buffered(s.groups, x) - Buffered(g1, x))
            + Buffered(g1[event.logID := Pushed(cfg, now, event, s, g1)], x)
  {
    hide Outcome, Evict, Tracks, Shape, Push;
    AddGroupedSubmaps(cfg, now, event, s, s', g1, gEnd);
    PushedTracks(cfg, now, event, s, g1);
    OutcomeCounts(cfg, now, event.logID, s, s', g1[event.logID := Pushed(cfg, now, event, s, g1)], gEnd, x);
  }

  /** A flush moves the group's events, no more and no fewer, to the store. */
  lemma OutcomeCounts(cfg: Config, now: Time, key: string, s: State, s': State,
                      g2: map<string, Group>, gEnd: map<string, Group>, x: Event)
    requires key in g2 && Outcome(cfg, now, key, s, s', g2, gEnd)
    requires Tracks(cfg, s'.added, key, g2[key])
    ensures SentCount(s'.sent, x) + Buffered(s'.groups, x) == SentCount(s.sent, x) + Buffered(gEnd, x)
  {
    hide Evict, Tracks, IsStableSort;
    if s'.sent != s.sent {
      var r := s'.sent[|s.sent|];
      assert s'.sent == s.sent + [r];
      EvictKeepsAlerts(cfg, now, g2, gEnd);
      SentCountSnoc(s.sent, r, x);
      StableSortIsPermutation(g2[key].events, r.batch.events);
      if x.logID != key {
        ForeignEventsAreNotTracked(cfg, s'.added, key, g2[key], x);
      }
    }
  }

  lemma ForeignEventsAreNotTracked(cfg: Config, added: seq<Event>, key: string, g: Group, x: Event)
    requires Tracks(cfg, added, key, g) && x.logID != key
    ensures multiset(g.events)[x] == 0
  {
    assert x !in g.events;
  }

  lemma PushedBuffers(cfg: Config, now: Time, event: Event, s: State, g1: map<string, Group>, x: Event)
    requires ValidConfig(cfg) && (event.logID in g1 ==> |g1[event.logID].events| < cfg.maxGroupSize)
    ensures Buffered(g1[event.logID := Pushed(cfg, now, event, s, g1)], x)
         == Buffered(g1, x) + if x == event then 1 else 0
  {
  }

  lemma {:induction false} AddConservesAt(cfg: Config, now: Time, event: Event, s: State, s': State, x: Event)
    requires ValidConfig(cfg) && AddStep(cfg, now, event, s, s')
    requires GroupsTracked(cfg, s) && GroupsShaped(cfg, s.groups) && ConservedAt(s, x)
    ensures ConservedAt(s', x)
  {
    hide AddGrouped, Tracks, Shape, Pushed;
    if FlushedIndividually(cfg, event) {
      SentCountSnoc(s.sent, s'.sent[|s.sent|], x);
    } else {
      var g1, gEnd :| AddGrouped(cfg, now, event, s, s', g1, gEnd);
      AddGroupedSubmaps(cfg, now, event, s, s', g1, gEnd);
      AddCounts(cfg, now, event, s, s', g1, gEnd, x);
      PushedTracks(cfg, now, event, s, g1);
      PushedBuffers(cfg, now, event, s, g1, x);
    }
  }

  /** An eviction leaves every buffered alert where it is. */
  lemma EvictKeepsAlertEvents(cfg: Config, now: Time, gs: map<string, Group>, gs': map<string, Group>, x: Event)
    requires Evict(cfg, now, gs, gs') && x.alert
    requires x.logID in gs && x in gs[x.logID].events ==> gs[x.logID].hasAlert
    ensures Buffered(gs', x) == Buffered(gs, x)
  {
    hide Evict;
    EvictKeepsAlerts(cfg, now, gs, gs');
    if x.logID in gs && x !in gs[x.logID].events {
      assert multiset(gs[x.logID].events)[x] == 0;
    }
  }

  lemma AlertsAreMarked(cfg: Config, added: seq<Event>, key: string, g: Group, x: Event)
    requires Tracks(cfg, added, key, g) && x.alert && x in g.events
    ensures g.hasAlert && key != cfg.unknownLogID
  {
  }

  lemma OutcomeKeepsAlertEvents(cfg: Config, now: Time, key: string, s: State, s': State,
                                g2: map<string, Group>, gEnd: map<string, Group>, x: Event)
    requires key in g2 && Outcome(cfg, now, key, s, s', g2, gEnd) && x.alert
    requires x.logID in g2 && x in g2[x.logID].events ==> g2[x.logID].hasAlert
    ensures Buffered(gEnd, x) == Buffered(g2, x)
  {
    hide Evict, IsBatchOf;
    var g := g2[key];
    if !g.hasAlert && |g.events| >= cfg.maxGroupSize {
      assert x.logID == key ==> Buffered(g2, x) == 0;
    } else {
      EvictKeepsAlertEvents(cfg, now, g2, gEnd, x);
    }
  }

  lemma {:induction false} AddDiscardsNoAlert(cfg: Config, now: Time, event: Event, s: State, s': State, x: Event)
    requires ValidConfig(cfg) && AddStep(cfg, now, event, s, s')
    requires GroupsTracked(cfg, s) && GroupsShaped(cfg, s.groups)
    requires x.alert && x !in s.discarded
    ensures x !in s'.discarded
  {
    hide Evict, Tracks, Shape, Outcome, Push;
    if !FlushedIndividually(cfg, event) {
      var g1, gEnd :| AddGrouped(cfg, now, event, s, s', g1, gEnd);
      AddGroupedSubmaps(cfg, now, event, s, s', g1, gEnd);
      PushedTracks(cfg, now, event, s, g1);
      var g2: map<string, Group> := g1[event.logID := Pushed(cfg, now, event, s, g1)];
      if x.logID in s.groups && x in s.groups[x.logID].events {
        AlertsAreMarked(cfg, s.added, x.logID, s.groups[x.logID], x);
      }
      EvictKeepsAlertEvents(cfg, now, s.groups, g1, x);
      if x.logID in g2 && x in g2[x.logID].events {
        AlertsAreMarked(cfg, s'.added, x.logID, g2[x.logID], x);
      }
      OutcomeKeepsAlertEvents(cfg, now, event.logID, s, s', g2, gEnd, x);
    }
  }

  lemma AddConserves(cfg: Config, now: Time, event: Event, s: State, s': State)
    requires ValidConfig(cfg) && AddStep(cfg, now, event, s, s')
    requires GroupsTracked(cfg, s) && GroupsShaped(cfg, s.groups) && Conserved(s)
    ensures Conserved(s')
  {
    hide AddStep, GroupsTracked, GroupsShaped, ConservedAt;
    forall x: Event ensures ConservedAt(s', x) {
      AddConservesAt(cfg, now, event, s, s', x);
    }
    forall x | x in s'.discarded ensures !x.alert {
      if x.alert { AddDiscardsNoAlert(cfg, now, event, s, s', x); }
    }
  }

  // ----- batches -----

  lemma FaithfulStays(cfg: Config, added: seq<Event>, event: Event, r: Record)
    requires Faithful(cfg, added, r)
    ensures Faithful(cfg, added + [event], r)
  {
    assert (added + [event])[r.lo..r.hi] == added[r.lo..r.hi];
  }

  /** The batch made of a tracked alert group covers the log from the group's creation. */
  lemma SnapshotIsFaithful(cfg: Config, added: seq<Event>, key: string, g: Group, r: Record)
    requires Tracks(cfg, added, key, g) && g.hasAlert
    requires r.lo == g.since && r.hi == |added| && IsBatchOf(r.batch, key, g, r.batch.suppressAlertSinks)
    ensures Faithful(cfg, added, r)
  {
    assert added[r.lo..r.hi] == added[g.since..];
    var e :| e in g.events && e.alert;
    AlertsAreMarked(cfg, added, key, g, e);
    MaxTimeIsLast(g.events, r.batch.events);
  }

  lemma AddFaithful(cfg: Config, now: Time, event: Event, s: State, s': State)
    requires ValidConfig(cfg) && AddStep(cfg, now, event, s, s')
    requires GroupsTracked(cfg, s) && GroupsShaped(cfg, s.groups)
    requires forall i :: 0 <= i < |s.sent| ==> Faithful(cfg, s.added, s.sent[i])
    ensures forall i :: 0 <= i < |s'.sent| ==> Faithful(cfg, s'.added, s'.sent[i])
  {
    hide Evict, Tracks, Shape, IsStableSort, Faithful, Push;
    forall i | 0 <= i < |s.sent| ensures Faithful(cfg, s'.added, s'.sent[i]) {
      assert s'.sent[i] == s.sent[i];
      FaithfulStays(cfg, s.added, event, s.sent[i]);
    }
    if |s'.sent| > |s.sent| {
      var r := s'.sent[|s.sent|];
      if FlushedIndividually(cfg, event) {
        SingleIsFaithful(cfg, s.added, event, r);
      } else {
        var g1, gEnd :| AddGrouped(cfg, now, event, s, s', g1, gEnd);
        AddGroupedSubmaps(cfg, now, event, s, s', g1, gEnd);
        PushedTracks(cfg, now, event, s, g1);
        SnapshotIsFaithful(cfg, s'.added, event.logID, Pushed(cfg, now, event, s, g1), r);
      }
    }
  }

  lemma SingleIsFaithful(cfg: Config, added: seq<Event>, event: Event, r: Record)
    requires FlushedIndividually(cfg, event)
    requires r == Record(SingleBatch(event, r.batch.suppressAlertSinks), |added|, |added| + 1)
    ensures Faithful(cfg, added + [event], r)
  {
  }

  // ----- the cap -----

  /** Taking any group away keeps the cap. */
  lemma CapHoldsWithout(cfg: Config, gs: map<string, Group>, key: string)
    requires CapHolds(cfg, gs)
    ensures CapHolds(cfg, gs - {key})
  {
    assert (gs - {key}).Keys == gs.Keys - {key};
    assert AlertKeys(gs - {key}) == AlertKeys(gs) - {key};
  }

  lemma AddCapHolds(cfg: Config, now: Time, event: Event, s: State, s': State)
    requires ValidConfig(cfg) && AddStep(cfg, now, event, s, s') && CapHolds(cfg, s.groups)
    ensures CapHolds(cfg, s'.groups)
  {
    if !FlushedIndividually(cfg, event) {
      var g1, gEnd :| AddGrouped(cfg, now, event, s, s', g1, gEnd);
      AddGroupedCapHolds(cfg, now, event, s, s', g1, gEnd);
    }
  }

  lemma EvictCaps(cfg: Config, now: Time, gs: map<string, Group>, gs': map<string, Group>)
    requires Evict(cfg, now, gs, gs')
    ensures CapHolds(cfg, gs')
  {
  }

  lemma AddGroupedGroups(cfg: Config, now: Time, event: Event, s: State, s': State,
                         g1: map<string, Group>, gEnd: map<string, Group>)
    requires ValidConfig(cfg) && AddGrouped(cfg, now, event, s, s', g1, gEnd)
    ensures Evict(cfg, now, s.groups, g1)
    ensures var g2: map<string, Group> := g1[event.logID := Pushed(cfg, now, event, s, g1)];
            s'.groups == g2 - {event.logID}
            || (Evict(cfg, now, g2, gEnd) && (s'.groups == gEnd || s'.groups == gEnd - {event.logID}))
  {
    hide Evict, IsBatchOf, Push, Buffered;
  }

  lemma AddGroupedCapHolds(cfg: Config, now: Time, event: Event, s: State, s': State,
                           g1: map<string, Group>, gEnd: map<string, Group>)
    requires ValidConfig(cfg) && AddGrouped(cfg, now, event, s, s', g1, gEnd)
    ensures CapHolds(cfg, s'.groups)
  {
    hide Evict, AddGrouped, CapHolds, Pushed;
    var key := event.logID;
    var g2: map<string, Group> := g1[key := Pushed(cfg, now, event, s, g1)];
    AddGroupedGroups(cfg, now, event, s, s', g1, gEnd);
    if s'.groups == g2 - {key} {
      EvictCaps(cfg, now, s.groups, g1);
      CapHoldsWithout(cfg, g1, key);
      assert g2 - {key} == g1 - {key};
    } else {
      EvictCaps(cfg, now, g2, gEnd);
      CapHoldsWithout(cfg, gEnd, key);
    }
  }

  /** What the documentation says the cap removes: it bounds the alert-less groups alone. */
  ghost function DocumentedRemovals(cfg: Config, live: map<string, Group>): nat {
    if cfg.maxGroups <= 0 then 0 else Max(|live| - |AlertKeys(live)| - cfg.maxGroups, 0)
  }

  /** The cap removes as many groups as documented exactly when it is off or not
      exceeded, or the live groups are all with an alert or all without. */
  lemma CapCountsAlertGroups(cfg: Config, now: Time, gs: map<string, Group>, gs': map<string, Group>)
    requires Evict(cfg, now, gs, gs')
    ensures var live := Live(cfg, now, gs);
            |live| - |gs'| == DocumentedRemovals(cfg, live)
            <==> cfg.maxGroups <= 0 || |live| <= cfg.maxGroups || AlertKeys(live) == {} || AlertKeys(live) == live.Keys
  {
    var live := Live(cfg, now, gs);
    assert AlertKeys(live) == AlertKeys(gs);
    SubsetSize(AlertKeys(live), live.Keys);
  }

  /** Once as many groups with an alert are buffered as the cap allows in all, an
      eviction leaves no group without one. */
  lemma EvictAtAlertCap(cfg: Config, now: Time, gs: map<string, Group>, gs': map<string, Group>)
    requires Evict(cfg, now, gs, gs') && 0 < cfg.maxGroups <= |AlertKeys(gs)|
    ensures gs'.Keys == AlertKeys(gs') == AlertKeys(gs)
  {
    SubsetSize(AlertKeys(gs'), gs'.Keys);
  }

  /** From then on an event that is no alert, of an id without an alert, is thrown away by
      the very call that adds it, and with it whatever was buffered under its id. */
  lemma AlertGroupsUseUpTheCap(cfg: Config, now: Time, event: Event, s: State, s': State)
    requires ValidConfig(cfg) && Inv(cfg, s) && AddStep(cfg, now, event, s, s')
    requires !event.alert && event.logID !in AlertKeys(s.groups) && 0 < cfg.maxGroups <= |AlertKeys(s.groups)|
    ensures event.logID !in s'.groups && s'.sent == s.sent
    ensures forall x: Event :: x.logID == event.logID ==>
              s'.discarded[x] == s.discarded[x] + Buffered(s.groups, x) + if x == event then 1 else 0
  {
    hide Inv, AddGrouped, Conserved;
    var g1, gEnd :| AddGrouped(cfg, now, event, s, s', g1, gEnd);
    AddAtAlertCap(cfg, now, event, s, s', g1, gEnd);
    AddInv(cfg, now, event, s, s');
    forall x: Event | x.logID == event.logID
      ensures s'.discarded[x] == s.discarded[x] + Buffered(s.groups, x) + if x == event then 1 else 0
    {
      InvConserves(cfg, s, x);
      InvConserves(cfg, s', x);
    }
  }

  lemma InvConserves(cfg: Config, s: State, e: Event)
    requires Inv(cfg, s)
    ensures ConservedAt(s, e)
  {
  }

  lemma AddAtAlertCap(cfg: Config, now: Time, event: Event, s: State, s': State,
                      g1: map<string, Group>, gEnd: map<string, Group>)
    requires ValidConfig(cfg) && AddGrouped(cfg, now, event, s, s', g1, gEnd)
    requires !event.alert && event.logID !in AlertKeys(s.groups) && 0 < cfg.maxGroups <= |AlertKeys(s.groups)|
    ensures event.logID !in s'.groups && s'.sent == s.sent
  {
    hide Evict, IsBatchOf, Buffered;
    EvictAtAlertCap(cfg, now, s.groups, g1);
    var g2: map<string, Group> := g1[event.logID := Pushed(cfg, now, event, s, g1)];
    assert AlertKeys(g2) == AlertKeys(g1);
    if Evict(cfg, now, g2, gEnd) {
      EvictAtAlertCap(cfg, now, g2, gEnd);
    }
  }

  // ----- the backfill window -----

  lemma AddWindowCounts(cfg: Config, now: Time, event: Event, s: State, s': State)
    requires 1 <= cfg.maxGroupSize && AddStep(cfg, now, event, s, s') && WindowCounts(s)
    ensures WindowCounts(s')
  {
    hide AddGrouped;
    assert s'.added[s.windowStart..] == s.added[s.windowStart..] + [event];
    CountAlertsSnoc(s.added[s.windowStart..], event);
  }

  // ----- one FlushAll -----

  /** After the first `n` batches the store has the buffered events of the first `n` keys. */
  lemma {:induction false} DrainCounts(cfg: Config, s: State, s': State, g1: map<string, Group>, order: seq<string>,
                                       x: Event, n: nat)
    requires Drain(s, s', g1, order) && n <= |order|
    requires forall k :: k in g1 ==> Tracks(cfg, s.added, k, g1[k])
    ensures SentCount(s'.sent[..|s.sent| + n], x)
         == SentCount(s.sent, x) + if x.logID in order[..n] then Buffered(g1, x) else 0
  {
    hide Tracks, IsBatchOf, Buffered, Lists, AlertKeys;
    if n == 0 {
      assert s'.sent[..|s.sent|] == s.sent;
    } else {
      DrainCounts(cfg, s, s', g1, order, x, n - 1);
      var key, r := order[n - 1], s'.sent[|s.sent| + n - 1];
      TakeOneMore(s'.sent, |s.sent| + n - 1);
      SentCountSnoc(s'.sent[..|s.sent| + n - 1], r, x);
      BatchCounts(cfg, s.added, key, g1, r.batch, s.active > 0, x);
      OnceInOrder(order, AlertKeys(g1), n - 1, x.logID);
    }
  }

  lemma OnceInOrder(order: seq<string>, keys: set<string>, n: nat, key: string)
    requires Lists(order, keys) && n < |order|
    ensures key in order[..n + 1] <==> key in order[..n] || key == order[n]
    ensures order[n] !in order[..n]
  {
    TakeOneMore(order, n);
  }

  lemma BatchCounts(cfg: Config, added: seq<Event>, key: string, gs: map<string, Group>, b: Batch, suppress: bool,
                    x: Event)
    requires key in gs && Tracks(cfg, added, key, gs[key]) && IsBatchOf(b, key, gs[key], suppress)
    ensures multiset(b.events)[x] == if x.logID == key then Buffered(gs, x) else 0
  {
    hide Tracks, IsStableSort;
    StableSortIsPermutation(gs[key].events, b.events);
    if x.logID != key {
      ForeignEventsAreNotTracked(cfg, added, key, gs[key], x);
    }
  }

  lemma FlushConservesAt(cfg: Config, now: Time, s: State, s': State, x: Event)
    requires FlushStep(cfg, now, s, s') && GroupsTracked(cfg, s) && ConservedAt(s, x)
    ensures ConservedAt(s', x)
    ensures x.alert && x !in s.discarded ==> x !in s'.discarded
  {
    hide Evict, Tracks, Drain;
    var g1: map<string, Group>, order :| FlushGroups(cfg, now, s, s', g1, order);
    EvictKeepsAlerts(cfg, now, s.groups, g1);
    DrainCounts(cfg, s, s', g1, order, x, |order|);
    DrainLeaves(s, s', g1, order, x.logID);
    assert s'.sent[..|s.sent| + |order|] == s'.sent by { DrainSends(s, s', g1, order); }
    assert order[..|order|] == order;
    if x.logID in s.groups && x in s.groups[x.logID].events && x.alert {
      AlertsAreMarked(cfg, s.added, x.logID, s.groups[x.logID], x);
    }
    if x.alert { EvictKeepsAlertEvents(cfg, now, s.groups, g1, x); }
  }

  lemma DrainSends(s: State, s': State, g1: map<string, Group>, order: seq<string>)
    requires Drain(s, s', g1, order)
    ensures |s'.sent| == |s.sent| + |order|
  {
  }

  lemma DrainLeaves(s: State, s': State, g1: map<string, Group>, order: seq<string>, key: string)
    requires Drain(s, s', g1, order)
    ensures key in order <==> key in g1 && g1[key].hasAlert
    ensures key in s'.groups <==> key in g1 && !g1[key].hasAlert
    ensures key in s'.groups ==> s'.groups[key] == g1[key]
  {
    assert key in AlertKeys(g1) <==> key in g1 && g1[key].hasAlert;
  }

  lemma FlushConserves(cfg: Config, now: Time, s: State, s': State)
    requires FlushStep(cfg, now, s, s') && GroupsTracked(cfg, s) && Conserved(s)
    ensures Conserved(s')
  {
    hide FlushStep, GroupsTracked, ConservedAt;
    forall x: Event ensures ConservedAt(s', x) && (x in s'.discarded ==> !x.alert) {
      FlushConservesAt(cfg, now, s, s', x);
    }
  }

  lemma FlushLeavesNoAlert(cfg: Config, now: Time, s: State, s': State)
    requires FlushStep(cfg, now, s, s')
    ensures Submap(s'.groups, s.groups)
    ensures forall k :: k in s'.groups ==> !s'.groups[k].hasAlert
    ensures cfg.maxGroups > 0 ==> |s'.groups| <= cfg.maxGroups
  {
    hide Evict, Drain;
    var g1: map<string, Group>, order :| FlushGroups(cfg, now, s, s', g1, order);
    EvictKeepsAlerts(cfg, now, s.groups, g1);
    EvictCaps(cfg, now, s.groups, g1);
    forall k ensures k in s'.groups <==> k in g1 && !g1[k].hasAlert
             ensures k in s'.groups ==> s'.groups[k] == g1[k]
    {
      DrainLeaves(s, s', g1, order, k);
    }
    assert s'.groups.Keys == g1.Keys - AlertKeys(g1);
    assert AlertKeys(g1) <= g1.Keys;
  }

  lemma FlushFaithful(cfg: Config, now: Time, s: State, s': State)
    requires FlushStep(cfg, now, s, s') && GroupsTracked(cfg, s)
    requires forall i :: 0 <= i < |s.sent| ==> Faithful(cfg, s.added, s.sent[i])
    ensures forall i :: 0 <= i < |s'.sent| ==> Faithful(cfg, s'.added, s'.sent[i])
  {
    hide Evict, Tracks, Faithful, IsBatchOf;
    var g1: map<string, Group>, order :| FlushGroups(cfg, now, s, s', g1, order);
    EvictKeepsAlerts(cfg, now, s.groups, g1);
    forall i | 0 <= i < |s'.sent| ensures Faithful(cfg, s'.added, s'.sent[i]) {
      if i < |s.sent| {
        assert s'.sent[i] == s.sent[i];
      } else {
        var key, r := order[i - |s.sent|], s'.sent[|s.sent| + (i - |s.sent|)];
        assert r == s'.sent[i] && key in order;
        DrainLeaves(s, s', g1, order, key);
        BatchSuppress(r.batch, key, g1[key], s.active > 0);
        SnapshotIsFaithful(cfg, s.added, key, g1[key], r);
      }
    }
  }

  lemma BatchSuppress(b: Batch, key: string, g: Group, suppress: bool)
    requires IsBatchOf(b, key, g, suppress)
    ensures b.suppressAlertSinks == suppress
  {
  }

  // ----- runs -----

  lemma AddInv(cfg: Config, now: Time, event: Event, s: State, s': State)
    requires ValidConfig(cfg) && Inv(cfg, s) && AddStep(cfg, now, event, s, s')
    ensures Inv(cfg, s')
  {
    hide AddStep, GroupsTracked, GroupsShaped, Conserved, Faithful, CapHolds, WindowCounts;
    AddGroupsTracked(cfg, now, event, s, s');
    AddGroupsShaped(cfg, now, event, s, s');
    AddConserves(cfg, now, event, s, s');
    AddFaithful(cfg, now, event, s, s');
    AddCapHolds(cfg, now, event, s, s');
    AddWindowCounts(cfg, now, event, s, s');
  }

  lemma FlushInv(cfg: Config, now: Time, s: State, s': State)
    requires ValidConfig(cfg) && Inv(cfg, s) && FlushStep(cfg, now, s, s')
    ensures Inv(cfg, s')
  {
    hide Conserved, Faithful, Tracks, Shape, Evict, Drain;
    FlushConserves(cfg, now, s, s');
    FlushFaithful(cfg, now, s, s');
    FlushLeavesNoAlert(cfg, now, s, s');
  }

  lemma BackfillInv(cfg: Config, s: State)
    requires Inv(cfg, s)
    ensures Inv(cfg, EnterBackfill(s)) && Inv(cfg, ExitBackfill(s).0)
  {
    hide Tracks, Shape, Faithful, CapHolds;
    assert s.added[|s.added|..] == [];
    forall e: Event
      ensures ConservedAt(EnterBackfill(s), e) && ConservedAt(ExitBackfill(s).0, e)
    {
      assert ConservedAt(s, e);
    }
  }

  lemma InvGroups(cfg: Config, s: State)
    requires Inv(cfg, s)
    ensures GroupsTracked(cfg, s) && GroupsShaped(cfg, s.groups)
  {
  }

  lemma NextInv(cfg: Config, s: State, op: Op, s': State)
    requires ValidConfig(cfg) && Inv(cfg, s) && Next(cfg, s, op, s')
    ensures Inv(cfg, s')
  {
    hide Inv, AddStep, FlushStep;
    match op
    case AddOp(now, event) => AddInv(cfg, now, event, s, s');
    case FlushOp(now) => FlushInv(cfg, now, s, s');
    case EnterOp => BackfillInv(cfg, s);
    case ExitOp => BackfillInv(cfg, s);
  }

  lemma InitialInv(cfg: Config)
    ensures Inv(cfg, InitialState())
  {
  }

  lemma {:induction false} RunInv(cfg: Config, ops: seq<Op>, states: seq<State>, n: nat)
    requires ValidConfig(cfg) && IsRun(cfg, ops, states) && n <= |ops|
    ensures Inv(cfg, states[n])
  {
    hide Next;
    if n == 0 {
      InitialInv(cfg);
    } else {
      hide Inv;
      RunInv(cfg, ops, states, n - 1);
      NextInv(cfg, states[n - 1], ops[n - 1], states[n]);
    }
  }

  function EventsOf(ops: seq<Op>): seq<Event> {
    if ops == [] then []
    else EventsOf(ops[..|ops| - 1]) + if ops[|ops| - 1].AddOp? then [ops[|ops| - 1].event] else []
  }

  lemma {:induction false} RunLogsItsEvents(cfg: Config, ops: seq<Op>, states: seq<State>, n: nat)
    requires ValidConfig(cfg) && IsRun(cfg, ops, states) && n <= |ops|
    ensures states[n].added == EventsOf(ops[..n])
  {
    hide AddGrouped, Evict, Drain;
    if n > 0 {
      RunLogsItsEvents(cfg, ops, states, n - 1);
      assert ops[..n][..n - 1] == ops[..n - 1];
      assert Next(cfg, states[n - 1], ops[n - 1], states[n]);
    }
  }

  /** Conservation.  In every run every event added is in a batch, in its group, or
      discarded, as often as it was added; no alert is discarded, a buffered alert's
      group is marked, and right after a FlushAll every alert has been sent. */
  lemma Conservation(cfg: Config, ops: seq<Op>, states: seq<State>, e: Event)
    requires ValidConfig(cfg) && IsRun(cfg, ops, states)
    ensures var s := states[|ops|];
            && multiset(EventsOf(ops))[e] == SentCount(s.sent, e) + Buffered(s.groups, e) + s.discarded[e]
            && (e.alert ==> s.discarded[e] == 0)
            && (e.alert && Buffered(s.groups, e) > 0 ==> s.groups[e.logID].hasAlert)
            && (e.alert && ops != [] && ops[|ops| - 1].FlushOp? ==> SentCount(s.sent, e) == multiset(EventsOf(ops))[e])
  {
    hide AddStep, Tracks, Faithful, CapHolds, FlushStep;
    RunInv(cfg, ops, states, |ops|);
    RunLogsItsEvents(cfg, ops, states, |ops|);
    assert ops[..|ops|] == ops;
    var s := states[|ops|];
    assert ConservedAt(s, e);
    if e.alert && Buffered(s.groups, e) > 0 {
      AlertsAreMarked(cfg, s.added, e.logID, s.groups[e.logID], e);
    }
    if ops != [] && ops[|ops| - 1].FlushOp? {
      assert Next(cfg, states[|ops| - 1], ops[|ops| - 1], s);
      FlushLeavesNoAlert(cfg, ops[|ops| - 1].now, states[|ops| - 1], s);
    }
  }

  /** When every added event alerts or has a known id, no group has the unknown id. */
  lemma {:induction false} UnknownIsNeverBuffered(cfg: Config, ops: seq<Op>, states: seq<State>, n: nat)
    requires ValidConfig(cfg) && IsRun(cfg, ops, states) && n <= |ops|
    requires forall op :: op in ops && op.AddOp? ==> op.event.alert || op.event.logID != cfg.unknownLogID
    ensures cfg.unknownLogID !in states[n].groups
  {
    hide Push, IsBatchOf, Evict, Drain;
    if n > 0 {
      UnknownIsNeverBuffered(cfg, ops, states, n - 1);
      var s, op, s' := states[n - 1], ops[n - 1], states[n];
      assert op in ops && Next(cfg, s, op, s');
      match op
      case AddOp(now, event) =>
        if !FlushedIndividually(cfg, event) {
          var g1, gEnd :| AddGrouped(cfg, now, event, s, s', g1, gEnd);
          AddGroupedSubmaps(cfg, now, event, s, s', g1, gEnd);
        }
      case FlushOp(now) => FlushLeavesNoAlert(cfg, now, s, s');
      case EnterOp =>
      case ExitOp =>
    }
  }

  lemma {:induction false} MinTimeIsFirst(events: seq<Event>, sorted: seq<Event>)
    requires IsStableSort(events, sorted) && events != []
    ensures sorted != [] && MinTime(events) == sorted[0].timestamp
  {
    StableSortIsPermutation(events, sorted);
    MinTimeBounds(events);
    assert events[0] in multiset(events);
    assert sorted != [];
    var e :| e in events && e.timestamp == MinTime(events);
    assert e in multiset(sorted);
    assert sorted[0] in multiset(sorted);
  }

  /** Faithful batches.  In every run a batch of a known id is the one stable time sort
      of the events with its id from the group's creation to the flush, its containers
      are exactly theirs, `lastSeen` is its last event's time, and `firstSeen` its first
      event's time exactly when that is not the zero time or the last arrival has it. */
  lemma BatchesAreFaithful(cfg: Config, ops: seq<Op>, states: seq<State>, i: nat)
    requires ValidConfig(cfg) && IsRun(cfg, ops, states) && i < |states[|ops|].sent|
    ensures var r := states[|ops|].sent[i];
            var b := r.batch;
            && r.lo < r.hi <= |EventsOf(ops)| && b.events != [] && b.count == |b.events|
            && b.lastSeen == b.events[|b.events| - 1].timestamp
            && (forall c :: c in b.containers <==> exists e :: e in b.events && e.container == c)
            && (forall j, k :: 0 <= j < k < |b.containers| ==> b.containers[j] != b.containers[k])
            && (b.logID == cfg.unknownLogID ==>
                  && b.events == [EventsOf(ops)[r.lo]] && r.hi == r.lo + 1 && b.events[0].alert
                  && b.events[0].logID == b.logID && b.firstSeen == b.lastSeen)
            && (b.logID != cfg.unknownLogID ==>
                  var kept := Kept(EventsOf(ops)[r.lo..r.hi], b.logID, cfg.unknownLogID);
                  && kept != [] && IsStableSort(kept, b.events)
                  && (exists e :: e in b.events && e.alert)
                  && (forall e: Event :: multiset(b.events)[e]
                                         == if e.logID == b.logID then multiset(EventsOf(ops)[r.lo..r.hi])[e] else 0)
                  && (b.firstSeen == b.events[0].timestamp
                      <==> b.events[0].timestamp != ZERO_TIME || kept[|kept| - 1].timestamp == ZERO_TIME))
  {
    hide IsStableSort, Kept, Next, EventsOf, Conserved, GroupsTracked, GroupsShaped, CapHolds, MinTime, MaxTime,
         FirstSeenOf, AnyAlert, ContainersOf;
    RunInv(cfg, ops, states, |ops|);
    RunLogsItsEvents(cfg, ops, states, |ops|);
    assert ops[..|ops|] == ops;
    var r := states[|ops|].sent[i];
    assert Faithful(cfg, EventsOf(ops), r);
    if r.batch.logID != cfg.unknownLogID {
      var kept := Kept(EventsOf(ops)[r.lo..r.hi], r.batch.logID, cfg.unknownLogID);
      MaxTimeIsLast(kept, r.batch.events);
      MinTimeIsFirst(kept, r.batch.events);
      FirstSeenIsMinimum(kept);
      SortedContainers(kept, r.batch.events);
      StableSortIsPermutation(kept, r.batch.events);
      SortedAlert(kept, r.batch.events);
      forall e: Event
        ensures multiset(kept)[e] == if e.logID == r.batch.logID then multiset(EventsOf(ops)[r.lo..r.hi])[e] else 0
      {
        KeptCount(EventsOf(ops)[r.lo..r.hi], r.batch.logID, cfg.unknownLogID, e);
      }
    }
    ContainersMeans(r.batch.events);
    SingleContainer(r.batch.events);
  }

  lemma ContainersMeans(events: seq<Event>)
    ensures forall c :: c in ContainersOf(events) <==> exists e :: e in events && e.container == c
  {
  }

  lemma SingleContainer(events: seq<Event>)
    ensures |events| == 1 ==> ContainersOf(events) == {events[0].container}
  {
  }

  lemma SortedAlert(events: seq<Event>, sorted: seq<Event>)
    requires multiset(sorted) == multiset(events) && AnyAlert(events)
    ensures exists e :: e in sorted && e.alert
  {
    var e :| e in events && e.alert;
    assert e in multiset(sorted);
  }

  /** What is kept under a known id is every event of it, as often as it was added. */
  lemma {:induction false} KeptCount(log: seq<Event>, key: string, unknown: string, e: Event)
    requires key != unknown
    ensures multiset(Kept(log, key, unknown))[e] == if e.logID == key then multiset(log)[e] else 0
  {
    if log != [] {
      var init, last := log[..|log| - 1], log[|log| - 1];
      assert log == init + [last];
      KeptCount(init, key, unknown, e);
    }
  }

  /** Events of one time stay in the order they came in. */
  lemma {:induction false} SameTimeKeepsOrder(events: seq<Event>, sorted: seq<Event>, t: Time)
    requires IsStableSort(events, sorted) && forall e :: e in events ==> e.timestamp == t
    ensures sorted == events
  {
    StableSortIsPermutation(events, sorted);
    forall e | e in sorted ensures e.timestamp == t {
      assert e in multiset(sorted) && e in multiset(events);
    }
    AtOneTime(events, t);
    AtOneTime(sorted, t);
  }

  lemma {:induction false} AtOneTime(events: seq<Event>, t: Time)
    requires forall e :: e in events ==> e.timestamp == t
    ensures AtTime(events, t) == events
  {
    if events != [] {
      var init, last := events[..|events| - 1], events[|events| - 1];
      assert events == init + [last];
      AtOneTime(init, t);
    }
  }

  lemma SortedContainers(events: seq<Event>, sorted: seq<Event>)
    requires IsStableSort(events, sorted)
    ensures ContainersOf(events) == ContainersOf(sorted)
  {
    StableSortIsPermutation(events, sorted);
    forall e ensures e in events <==> e in sorted {
      assert e in multiset(events) <==> e in multiset(sorted);
    }
  }

  /** Shape and cap.  In every run, `hasAlert` tells exactly whether an alert is
      buffered, groups are below their limits, and a positive cap is exceeded only
      by groups with alerts. */
  lemma GroupsStayBounded(cfg: Config, ops: seq<Op>, states: seq<State>, key: string)
    requires ValidConfig(cfg) && IsRun(cfg, ops, states)
    ensures var gs := states[|ops|].groups;
            && (key in gs ==>
                  && (gs[key].hasAlert <==> exists e :: e in gs[key].events && e.alert)
                  && 0 < |gs[key].events| < if gs[key].hasAlert then cfg.flushSize else cfg.maxGroupSize)
            && (cfg.maxGroups > 0 ==> |gs| <= Max(cfg.maxGroups, |set k | k in gs && gs[k].hasAlert|))
  {
    hide Faithful, Conserved, WindowCounts, Kept;
    RunInv(cfg, ops, states, |ops|);
    if key in states[|ops|].groups {
      assert Tracks(cfg, states[|ops|].added, key, states[|ops|].groups[key]);
      assert Shape(cfg, states[|ops|].groups[key]);
    }
    assert AlertKeys(states[|ops|].groups) == set k | k in states[|ops|].groups && states[|ops|].groups[k].hasAlert;
  }

  // ----- backfill windows -----

  /** How many EnterBackfill calls are outstanding after the given calls. */
  function Depth(ops: seq<Op>): nat {
    if ops == [] then 0
    else
      var before := Depth(ops[..|ops| - 1]);
      match ops[|ops| - 1]
      case EnterOp => before + 1
      case ExitOp => if before == 0 then 0 else before - 1
      case _ => before
  }

  lemma {:induction false} RunDepth(cfg: Config, ops: seq<Op>, states: seq<State>, n: nat)
    requires ValidConfig(cfg) && IsRun(cfg, ops, states) && n <= |ops|
    ensures states[n].active == Depth(ops[..n])
  {
    hide AddGrouped, FlushGroups;
    if n > 0 {
      RunDepth(cfg, ops, states, n - 1);
      assert ops[..n][..n - 1] == ops[..n - 1];
      assert Next(cfg, states[n - 1], ops[n - 1], states[n]);
    }
  }

  /** 1 for the Add of an alert, 0 for any other call. */
  function AlertsIn(op: Op): nat {
    if op.AddOp? && op.event.alert then 1 else 0
  }

  lemma AlertsSnoc(ops: seq<Op>, op: Op)
    ensures CountAlerts(EventsOf(ops + [op])) == CountAlerts(EventsOf(ops)) + AlertsIn(op)
  {
    assert (ops + [op])[..|ops|] == ops;
    assert EventsOf(ops + [op]) == EventsOf(ops) + if op.AddOp? then [op.event] else [];
    if op.AddOp? {
      CountAlertsSnoc(EventsOf(ops), op.event);
    } else {
      assert EventsOf(ops + [op]) == EventsOf(ops);
    }
  }

  lemma NoAlertsYet()
    ensures CountAlerts(EventsOf([EnterOp])) == 0
  {
    AlertsSnoc([], EnterOp);
    assert [] + [EnterOp] == [EnterOp];
  }

  lemma NextAlerts(cfg: Config, s: State, op: Op, s': State)
    requires 1 <= cfg.maxGroupSize && Next(cfg, s, op, s') && s'.active > 0
    ensures s.active > 0 ==> s'.alerts == s.alerts + AlertsIn(op)
    ensures s.active == 0 ==> op == EnterOp && s'.alerts == 0
  {
    hide AddGrouped, FlushGroups;
  }

  lemma {:induction false} WindowAlerts(cfg: Config, ops: seq<Op>, states: seq<State>, m: nat, n: nat)
    requires ValidConfig(cfg) && IsRun(cfg, ops, states) && m < n <= |ops|
    requires ops[m] == EnterOp && Depth(ops[..m]) == 0
    requires forall j :: m < j <= n ==> Depth(ops[..j]) > 0
    ensures states[n].alerts == CountAlerts(EventsOf(ops[m..n]))
  {
    hide Next, Depth, EventsOf, CountAlerts;
    RunDepth(cfg, ops, states, n - 1);
    RunDepth(cfg, ops, states, n);
    NextAlerts(cfg, states[n - 1], ops[n - 1], states[n]);
    if n == m + 1 {
      assert ops[m..n] == [EnterOp];
      NoAlertsYet();
    } else {
      WindowAlerts(cfg, ops, states, m, n - 1);
      assert ops[m..n] == ops[m..n - 1] + [ops[n - 1]];
      AlertsSnoc(ops[m..n - 1], ops[n - 1]);
    }
  }

  /** The ExitBackfill that closes a window reports exactly the alerts added since the
      EnterBackfill that opened it; any other ExitBackfill reports none. */
  lemma ExitReportsItsWindow(cfg: Config, ops: seq<Op>, states: seq<State>, m: nat, n: nat)
    requires ValidConfig(cfg) && IsRun(cfg, ops, states) && m < n < |ops|
    requires ops[m] == EnterOp && Depth(ops[..m]) == 0
    requires forall j :: m < j <= n ==> Depth(ops[..j]) > 0
    ensures ExitBackfill(states[n]).1 == if Depth(ops[..n]) == 1 then CountAlerts(EventsOf(ops[m..n])) else 0
  {
    RunDepth(cfg, ops, states, n);
    WindowAlerts(cfg, ops, states, m, n);
  }

  /** A batch is suppressed exactly when a window is open at the call that flushes it. */
  lemma SuppressionIsPerFlush(cfg: Config, ops: seq<Op>, states: seq<State>, n: nat, i: nat)
    requires ValidConfig(cfg) && IsRun(cfg, ops, states) && n < |ops|
    requires |states[n].sent| <= i < |states[n + 1].sent|
    ensures states[n + 1].sent[i].batch.suppressAlertSinks <==> Depth(ops[..n]) > 0
  {
    hide Evict, Push, Depth;
    RunDepth(cfg, ops, states, n);
    var s, s' := states[n], states[n + 1];
    assert Next(cfg, s, ops[n], s');
    match ops[n]
    case AddOp(now, event) =>
    case FlushOp(now) =>
      var g1: map<string, Group>, order :| FlushGroups(cfg, now, s, s', g1, order);
      var key, r := order[i - |s.sent|], s'.sent[|s.sent| + (i - |s.sent|)];
      assert r == s'.sent[i];
    case EnterOp =>
    case ExitOp =>
  }

  lemma NothingToEvict(cfg: Config, now: Time, gs: map<string, Group>)
    requires cfg.groupTTL == 0 && (cfg.maxGroups == 0 || |gs| <= cfg.maxGroups)
    ensures Evict(cfg, now, gs, gs)
  {
    assert Live(cfg, now, gs) == gs;
  }

  lemma AddFirstAlert(cfg: Config, now: Time, e: Event, s: State, s': State)
    requires cfg.groupTTL == 0 && 0 <= cfg.maxGroups && 2 <= cfg.flushSize && 1 <= cfg.maxGroupSize
    requires e.alert && e.logID != cfg.unknownLogID && s.groups == map[]
    requires s' == s.(groups := map[e.logID := Group(|s.added|, e.timestamp, e.timestamp, now,
                                                     {e.container}, true, [e])],
                      added := s.added + [e], alerts := if s.active > 0 then s.alerts + 1 else s.alerts)
    ensures AddStep(cfg, now, e, s, s')
  {
    hide Evict, Push, IsBatchOf;
    NothingToEvict(cfg, now, s.groups);
    NothingToEvict(cfg, now, s'.groups);
    PushToNewGroup(e, now, |s.added|, cfg.maxGroupSize);
    assert s.groups[e.logID := s'.groups[e.logID]] == s'.groups;
    assert AddGrouped(cfg, now, e, s, s', s.groups, s'.groups);
  }

  lemma FlushOneAlert(cfg: Config, now: Time, e: Event, touched: Time, s: State, s': State)
    requires cfg.groupTTL == 0 && cfg.maxGroups == 0
    requires s.groups == map[e.logID := Group(0, e.timestamp, e.timestamp, touched, {e.container}, true, [e])]
    requires s' == s.(groups := map[], sent := s.sent + [Record(SingleBatch(e, s.active > 0), 0, |s.added|)])
    ensures FlushStep(cfg, now, s, s')
  {
    hide Evict;
    NothingToEvict(cfg, now, s.groups);
    assert AlertKeys(s.groups) == {e.logID};
    assert s.groups - {e.logID} == map[];
    assert Drain(s, s', s.groups, [e.logID]);
    assert FlushGroups(cfg, now, s, s', s.groups, [e.logID]);
  }

  /** Suppression is not decided per event: this alert is added, and counted, inside a
      backfill window, and still reaches the alert sinks, because it is flushed after. */
  lemma AlertOfWindowSentUnsuppressed(cfg: Config, e: Event) returns (ops: seq<Op>, states: seq<State>)
    requires cfg.groupTTL == 0 && cfg.maxGroups == 0 && 2 <= cfg.flushSize && 1 <= cfg.maxGroupSize
    requires e.alert && e.logID != cfg.unknownLogID
    ensures IsRun(cfg, ops, states) && |ops| == 4
    ensures ops[1] == AddOp(0, e) && states[1].active == 1 && states[2].alerts == 1
    ensures |states[4].sent| == 1
    ensures states[4].sent[0].batch.events == [e] && !states[4].sent[0].batch.suppressAlertSinks
  {
    hide AddStep, FlushStep;
    ops := [EnterOp, AddOp(0, e), ExitOp, FlushOp(0)];
    var g := Group(0, e.timestamp, e.timestamp, 0, {e.container}, true, [e]);
    var s1 := State(map[], [], [], multiset{}, 1, 0, 0);
    var s2 := s1.(groups := map[e.logID := g], added := [e], alerts := 1);
    var s3 := s2.(active := 0, alerts := 0);
    var s4 := s3.(groups := map[], sent := [Record(SingleBatch(e, false), 0, 1)]);
    AddFirstAlert(cfg, 0, e, s1, s2);
    FlushOneAlert(cfg, 0, e, 0, s3, s4);
    states := [InitialState(), s1, s2, s3, s4];
  }

  /** The cap is one group, one alert is buffered, and an event that is no alert goes at
      once, although it would be the only group without an alert. */
  lemma AlertGroupEvictsTheOther(cfg: Config, a: Event, b: Event) returns (ops: seq<Op>, states: seq<State>)
    requires ValidConfig(cfg) && cfg.groupTTL == 0 && cfg.maxGroups == 1 && 2 <= cfg.flushSize
    requires a.alert && !b.alert && a.logID != b.logID && a.logID != cfg.unknownLogID
    ensures IsRun(cfg, ops, states) && ops == [AddOp(0, a), AddOp(0, b)]
    ensures states[2].groups.Keys == {a.logID} && states[2].discarded == multiset{b}
  {
    hide AddStep;
    ops := [AddOp(0, a), AddOp(0, b)];
    var g := Group(0, a.timestamp, a.timestamp, 0, {a.container}, true, [a]);
    var s1 := State(map[a.logID := g], [a], [], multiset{}, 0, 0, 0);
    var s2 := s1.(added := [a, b], discarded := multiset{b});
    AddFirstAlert(cfg, 0, a, InitialState(), s1);
    AddEvicted(cfg, 0, b, s1, s2);
    states := [InitialState(), s1, s2];
  }

  lemma EvictNewcomer(cfg: Config, now: Time, gs: map<string, Group>, key: string, gs': map<string, Group>)
    requires cfg.groupTTL == 0 && cfg.maxGroups == 1 && |gs| == 1 && AlertKeys(gs) == gs.Keys
    requires key in gs' && key !in gs && !gs'[key].hasAlert && gs' == gs[key := gs'[key]]
    ensures Evict(cfg, now, gs', gs)
  {
    assert Live(cfg, now, gs') == gs' && AlertKeys(gs') == AlertKeys(gs);
    assert gs'.Keys == gs.Keys + {key};
  }

  lemma AddEvicted(cfg: Config, now: Time, e: Event, s: State, s': State)
    requires ValidConfig(cfg) && cfg.groupTTL == 0 && cfg.maxGroups == 1 && 2 <= cfg.maxGroupSize
    requires !e.alert && |s.groups| == 1 && AlertKeys(s.groups) == s.groups.Keys && e.logID !in s.groups
             && s.active == 0
    requires s' == s.(added := s.added + [e], discarded := s.discarded + multiset{e})
    ensures AddStep(cfg, now, e, s, s')
  {
    hide Evict, Push;
    NothingToEvict(cfg, now, s.groups);
    PushToNewGroup(e, now, |s.added|, cfg.maxGroupSize);
    var g2 := s.groups[e.logID := Group(|s.added|, e.timestamp, e.timestamp, now, {e.container}, false, [e])];
    EvictNewcomer(cfg, now, s.groups, e.logID, g2);
    assert AddGrouped(cfg, now, e, s, s', s.groups, s.groups);
  }
}
