/** The aggregator as it is written: groups are objects updated in place, kept in a map
    that the calls grow and shrink.  Every call is proved to be a step of the
    specification in AggregatorModel.dfy and to keep its invariant. */
module Aggregators {
  import opened Base
  import opened M = AggregatorModel
  import opened Sorting
  import P = AggregatorProofs

  class GroupBuffer {
    var firstSeen: Time
    var lastSeen: Time
    var lastTouched: Time
    var containers: set<string>
    var hasAlert: bool
    var events: seq<Event>
    ghost const since: nat

    constructor (event: Event, now: Time, ghost since: nat)
      ensures Value() == NewGroup(event, now, since)
    {
      firstSeen, lastSeen, lastTouched := event.timestamp, event.timestamp, now;
      containers, hasAlert, events := {}, false, [];
      this.since := since;
    }

    ghost function Value(): Group
      reads this
    {
      Group(since, firstSeen, lastSeen, lastTouched, containers, hasAlert, events)
    }

    method Append(event: Event, now: Time, maxGroupSize: GoInt)
      requires 1 <= maxGroupSize
      modifies this
      ensures Value() == Push(old(Value()), event, now, maxGroupSize)
    {
      ghost var all := events + [event];
      lastTouched := now;
      if firstSeen == ZERO_TIME || event.timestamp < firstSeen {
        firstSeen := event.timestamp;
      }
      if event.timestamp > lastSeen {
        lastSeen := event.timestamp;
      }
      events := events + [event];
      var overflow := |events| - maxGroupSize;
      assert OverflowCount(|all| - 1, maxGroupSize) == Max(overflow, 0);
      if overflow > 0 {
        events := events[overflow..];
        if |events| > 0 {
          firstSeen := events[0].timestamp;
        }
      } else {
        assert all[0..] == all;
      }
      containers := containers + {event.container};
      hasAlert := hasAlert || event.alert;
      assert events == all[Max(overflow, 0)..];
    }

    /** A copy of the group as a batch; the group is left as it is. */
    method Snapshot(key: string) returns (b: Batch)
      ensures IsBatchOf(b, key, Value(), false)
    {
      var names := ListOf(containers);
      var sorted := StableSortByTime(events);
      b := Batch(key, firstSeen, lastSeen, |sorted|, names, sorted, false);
    }
  }

  /** The members of a set in some order, as a range over a Go map gives them. */
  method ListOf(s: set<string>) returns (xs: seq<string>)
    ensures Lists(xs, s)
  {
    xs := [];
    var todo := s;
    while todo != {}
      invariant todo <= s && Lists(xs, s - todo)
      decreases todo
    {
      var x :| x in todo;
      xs, todo := xs + [x], todo - {x};
    }
  }

  // ----- sorting -----

  /** Inserts behind every event that is not later. */
  function InsertByTime(sorted: seq<Event>, e: Event): seq<Event> {
    if sorted == [] then [e]
    else
      var n := |sorted| - 1;
      if sorted[n].timestamp <= e.timestamp then sorted + [e] else InsertByTime(sorted[..n], e) + [sorted[n]]
  }

  lemma {:induction false} InsertedIsSorted(sorted: seq<Event>, e: Event)
    requires SortedByTime(sorted)
    ensures SortedByTime(InsertByTime(sorted, e))
    ensures forall x :: x in InsertByTime(sorted, e) ==> x == e || x in sorted
  {
    if sorted != [] && sorted[|sorted| - 1].timestamp > e.timestamp {
      var n := |sorted| - 1;
      InsertedIsSorted(sorted[..n], e);
      forall x | x in InsertByTime(sorted[..n], e) ensures x.timestamp <= sorted[n].timestamp {
      }
    }
  }

  lemma AtTimeSnoc(es: seq<Event>, e: Event, t: Time)
    ensures AtTime(es + [e], t) == AtTime(es, t) + if e.timestamp == t then [e] else []
  {
    assert (es + [e])[..|es|] == es;
  }

  lemma {:induction false} InsertedAtTime(sorted: seq<Event>, e: Event, t: Time)
    ensures AtTime(InsertByTime(sorted, e), t) == AtTime(sorted, t) + if e.timestamp == t then [e] else []
  {
    if sorted == [] {
      AtTimeSnoc([], e, t);
      assert [] + [e] == [e];
    } else {
      var init, last := sorted[..|sorted| - 1], sorted[|sorted| - 1];
      if last.timestamp <= e.timestamp {
        AtTimeSnoc(sorted, e, t);
      } else {
        hide AtTime;
        InsertedAtTime(init, e, t);
        AtTimeSnoc(InsertByTime(init, e), last, t);
        assert sorted == init + [last];
        AtTimeSnoc(init, last, t);
      }
    }
  }

  lemma SortedOneMore(events: seq<Event>, sorted: seq<Event>, e: Event)
    requires IsStableSort(events, sorted)
    ensures IsStableSort(events + [e], InsertByTime(sorted, e))
  {
    hide SortedByTime, AtTime, InsertByTime;
    InsertedIsSorted(sorted, e);
    forall t ensures AtTime(InsertByTime(sorted, e), t) == AtTime(events + [e], t) {
      InsertedAtTime(sorted, e, t);
      AtTimeSnoc(events, e, t);
    }
  }

  lemma NothingToSort()
    ensures IsStableSort([], [])
  {
  }

  method StableSortByTime(events: seq<Event>) returns (sorted: seq<Event>)
    ensures IsStableSort(events, sorted)
  {
    hide IsStableSort, InsertByTime;
    NothingToSort();
    sorted := [];
    for i := 0 to |events|
      invariant IsStableSort(events[..i], sorted)
    {
      assert events[..i + 1] == events[..i] + [events[i]];
      SortedOneMore(events[..i], sorted, events[i]);
      sorted := InsertByTime(sorted, events[i]);
    }
    assert events[..|events|] == events;
  }

  // ----- eviction, on values -----

  ghost predicate WellKeyed(gs: map<string, Group>) {
    forall k, e :: k in gs && e in gs[k].events ==> e.logID == k
  }

  ghost predicate Discards(gs: map<string, Group>, gs': map<string, Group>, d: multiset<Event>, d': multiset<Event>) {
    forall x: Event :: d'[x] == d[x] + (Buffered(gs, x) - Buffered(gs', x))
  }

  lemma DropDiscards(gs0: map<string, Group>, gs: map<string, Group>, key: string,
                     d0: multiset<Event>, d: multiset<Event>)
    requires WellKeyed(gs) && key in gs && Discards(gs0, gs, d0, d)
    ensures WellKeyed(gs - {key}) && Discards(gs0, gs - {key}, d0, d + multiset(gs[key].events))
  {
    forall x: Event
      ensures multiset(gs[key].events)[x] == Buffered(gs, x) - Buffered(gs - {key}, x)
    {
      if x.logID != key { assert x !in gs[key].events; }
    }
  }

  lemma TrackedIsWellKeyed(cfg: Config, added: seq<Event>, gs: map<string, Group>)
    requires forall k :: k in gs ==> Tracks(cfg, added, k, gs[k])
    ensures WellKeyed(gs)
  {
  }

  lemma NeverExpired(cfg: Config, now: Time)
    ensures cfg.groupTTL <= 0 ==> forall hasAlert, lastTouched :: !Expired(cfg, now, hasAlert, lastTouched)
  {
  }

  lemma DiscardsNothing(gs: map<string, Group>, d: multiset<Event>)
    ensures Discards(gs, gs, d, d)
  {
  }

  /** Down to the cap if enough alert-less groups are there, else all of them. */
  ghost predicate CapEvict(cfg: Config, gs: map<string, Group>, gs': map<string, Group>) {
    && Submap(gs', gs)
    && AlertKeys(gs') == AlertKeys(gs)
    && |gs'| == (if cfg.maxGroups <= 0 || |gs| <= cfg.maxGroups then |gs| else Max(cfg.maxGroups, |AlertKeys(gs)|))
    && forall r, v :: r in gs && r !in gs' && v in gs' && !gs'[v].hasAlert ==> gs[r].lastTouched <= gs'[v].lastTouched
  }

  lemma EvictInTwoSteps(cfg: Config, now: Time, gs: map<string, Group>, gs': map<string, Group>)
    requires CapEvict(cfg, Live(cfg, now, gs), gs')
    ensures Evict(cfg, now, gs, gs')
  {
    assert AlertKeys(Live(cfg, now, gs)) == AlertKeys(gs);
  }

  /** The touch times of the alert-less groups. */
  ghost function Touches(gs: map<string, Group>): map<string, Time> {
    map k | k in gs && !gs[k].hasAlert :: gs[k].lastTouched
  }

  /** `cs` holds each alert-less group once, with its touch time. */
  ghost predicate Candidates(cs: seq<Stamped>, gs: map<string, Group>) {
    Enumerates(cs, Touches(gs))
  }

  lemma CandidatesGrow(cs: seq<Stamped>, gs: map<string, Group>, todo: set<string>, key: string)
    requires key in todo && key in gs && Enumerates(cs, Touches(gs) - todo)
    ensures Enumerates(if gs[key].hasAlert then cs else cs + [Stamped(key, gs[key].lastTouched)],
                       Touches(gs) - (todo - {key}))
  {
    if gs[key].hasAlert {
      assert Touches(gs) - (todo - {key}) == Touches(gs) - todo;
    } else {
      EnumeratesOneMore(cs, Touches(gs), todo, key);
    }
  }

  /** The first `i` candidates have gone, and nothing else. */
  ghost predicate Remain(gs: map<string, Group>, gs': map<string, Group>, sorted: seq<Stamped>, i: nat) {
    Submap(gs', gs) && AlertKeys(gs') == AlertKeys(gs) && Without(Touches(gs), Touches(gs'), sorted, i)
  }

  lemma NoCapNeeded(cfg: Config, gs: map<string, Group>)
    ensures cfg.maxGroups <= 0 || |gs| <= cfg.maxGroups ==> CapEvict(cfg, gs, gs)
  {
  }

  /** Part-way through the removal loop. */
  ghost predicate Removing(gs0: map<string, Group>, gs: map<string, Group>, sorted: seq<Stamped>, i: nat,
                           d0: multiset<Event>, d: multiset<Event>)
  {
    i <= |sorted| && Remain(gs0, gs, sorted, i) && WellKeyed(gs) && Discards(gs0, gs, d0, d)
  }

  lemma NothingRemoved(gs: map<string, Group>, sorted: seq<Stamped>, d: multiset<Event>)
    requires WellKeyed(gs)
    ensures Removing(gs, gs, sorted, 0, d, d)
  {
  }

  lemma RemovingStep(gs0: map<string, Group>, gs: map<string, Group>, sorted: seq<Stamped>, i: nat,
                     d0: multiset<Event>, d: multiset<Event>)
    requires i < |sorted| && Candidates(sorted, gs0) && Removing(gs0, gs, sorted, i, d0, d)
    ensures var key := sorted[i].key;
            && key in gs && |gs - {key}| == |gs| - 1
            && Removing(gs0, gs - {key}, sorted, i + 1, d0, d + multiset(gs[key].events))
  {
    hide Discards, WellKeyed;
    var key := sorted[i].key;
    RemainStep(gs0, gs, sorted, i);
    assert (gs - {key}).Keys == gs.Keys - {key};
    DropDiscards(gs0, gs, key, d0, d);
  }

  lemma RemainStep(gs0: map<string, Group>, gs: map<string, Group>, sorted: seq<Stamped>, i: nat)
    requires i < |sorted| && Candidates(sorted, gs0) && Remain(gs0, gs, sorted, i)
    ensures Remain(gs0, gs - {sorted[i].key}, sorted, i + 1) && sorted[i].key in gs
  {
    hide Without, Touches, AlertKeys;
    var key := sorted[i].key;
    WithoutOneMore(Touches(gs0), Touches(gs), sorted, i);
    WithoutAlertless(gs, key);
  }

  lemma WithoutAlertless(gs: map<string, Group>, key: string)
    requires key in Touches(gs)
    ensures key in gs
    ensures Touches(gs - {key}) == Touches(gs) - {key} && AlertKeys(gs - {key}) == AlertKeys(gs)
  {
  }

  lemma RemovingIsCapEvict(cfg: Config, gs0: map<string, Group>, gs: map<string, Group>, sorted: seq<Stamped>, i: nat,
                           d0: multiset<Event>, d: multiset<Event>)
    requires cfg.maxGroups > 0 && |gs0| > cfg.maxGroups
    requires Candidates(sorted, gs0) && SortedByStamp(sorted) && Removing(gs0, gs, sorted, i, d0, d)
    requires |gs| >= cfg.maxGroups && (|gs| == cfg.maxGroups || i == |sorted|)
    ensures CapEvict(cfg, gs0, gs) && Discards(gs0, gs, d0, d)
  {
    hide Discards, WellKeyed;
    RemainIsCapEvict(cfg, gs0, gs, sorted, i);
  }

  lemma RemainIsCapEvict(cfg: Config, gs: map<string, Group>, gs': map<string, Group>, sorted: seq<Stamped>, i: nat)
    requires cfg.maxGroups > 0 && |gs| > cfg.maxGroups
    requires Candidates(sorted, gs) && SortedByStamp(sorted) && i <= |sorted| && Remain(gs, gs', sorted, i)
    requires |gs'| >= cfg.maxGroups && (|gs'| == cfg.maxGroups || i == |sorted|)
    ensures CapEvict(cfg, gs, gs')
  {
    hide Without, SortedByStamp, Enumerates;
    WithoutCounts(Touches(gs), Touches(gs'), sorted, i);
    GroupsWithAndWithoutAlert(gs);
    GroupsWithAndWithoutAlert(gs');
    if i == |sorted| {
      WithoutAll(Touches(gs), Touches(gs'), sorted);
    }
    OldestGone(Touches(gs), Touches(gs'), sorted, i);
    forall r, v | r in gs && r !in gs' && v in gs' && !gs'[v].hasAlert
      ensures gs[r].lastTouched <= gs'[v].lastTouched
    {
      assert r !in AlertKeys(gs) && r in Touches(gs) && v in Touches(gs');
    }
  }

  lemma GroupsWithAndWithoutAlert(gs: map<string, Group>)
    ensures |gs| == |AlertKeys(gs)| + |Touches(gs)|
  {
    assert gs.Keys == AlertKeys(gs) + Touches(gs).Keys;
  }

  lemma AssembleAdd(cfg: Config, now: Time, event: Event, s: State, s': State,
                    g1: map<string, Group>, gEnd: map<string, Group>, d1: multiset<Event>)
    requires 1 <= cfg.maxGroupSize && Evict(cfg, now, s.groups, g1)
    requires var before := if event.logID in g1 then g1[event.logID] else NewGroup(event, now, |s.added|);
             OverflowCount(|before.events|, cfg.maxGroupSize) == 0
    requires var g2: map<string, Group> := g1[event.logID := P.Pushed(cfg, now, event, s, g1)];
             && Discards(s.groups, g1, s.discarded, d1) && Discards(g2, gEnd, d1, s'.discarded)
             && Outcome(cfg, now, event.logID, s, s', g2, gEnd)
    ensures AddGrouped(cfg, now, event, s, s', g1, gEnd)
  {
    hide Evict, Outcome, Push, Buffered;
  }

  // ----- draining, on values -----

  /** Part-way through a drain of `g1`: the keys in `todo` are still to be looked at. */
  ghost predicate Draining(batches: seq<Batch>, order: seq<string>, gs: map<string, Group>, g1: map<string, Group>,
                           todo: set<string>) {
    && Submap(gs, g1) && |batches| == |order| && todo <= g1.Keys
    && Lists(order, AlertKeys(g1) - todo)
    && (forall k :: k in g1 ==> (k in gs <==> k in todo || !g1[k].hasAlert))
    && (forall i :: 0 <= i < |order| ==> order[i] in g1 && IsBatchOf(batches[i], order[i], g1[order[i]], false))
  }

  lemma NothingDrained(g1: map<string, Group>, todo: set<string>)
    requires todo == g1.Keys
    ensures Draining([], [], g1, g1, todo)
  {
  }

  lemma DrainingKeeps(batches: seq<Batch>, order: seq<string>, gs: map<string, Group>, g1: map<string, Group>,
                      todo: set<string>, key: string)
    requires Draining(batches, order, gs, g1, todo) && key in todo
    ensures key in gs && key in g1 && gs[key] == g1[key]
    ensures !g1[key].hasAlert ==> Draining(batches, order, gs, g1, todo - {key})
  {
    if !g1[key].hasAlert {
      assert AlertKeys(g1) - (todo - {key}) == AlertKeys(g1) - todo;
    }
  }

  lemma DrainingStep(batches: seq<Batch>, order: seq<string>, gs: map<string, Group>, g1: map<string, Group>,
                     todo: set<string>, key: string, batch: Batch)
    requires Draining(batches, order, gs, g1, todo) && key in todo && g1[key].hasAlert
    requires IsBatchOf(batch, key, g1[key], false)
    ensures Draining(batches + [batch], order + [key], gs - {key}, g1, todo - {key})
  {
    hide IsBatchOf;
    var order' := order + [key];
    forall k ensures k in order' <==> k in AlertKeys(g1) - (todo - {key}) {
      assert k in order' <==> k in order || k == key;
    }
  }

  /** The store gets the drained batches with the suppress mark of the moment. */
  ghost function Recorded(batches: seq<Batch>, order: seq<string>, g1: map<string, Group>,
                          suppress: bool, hi: nat): seq<Record>
    requires |batches| == |order| && forall i :: 0 <= i < |order| ==> order[i] in g1
  {
    seq(|order|, i requires 0 <= i < |order| =>
      Record(batches[i].(suppressAlertSinks := suppress), g1[order[i]].since, hi))
  }

  lemma DrainedKeys(batches: seq<Batch>, order: seq<string>, gs: map<string, Group>, g1: map<string, Group>)
    requires Draining(batches, order, gs, g1, {})
    ensures |batches| == |order| && forall i :: 0 <= i < |order| ==> order[i] in g1
  {
  }

  lemma TrackedNonempty(cfg: Config, added: seq<Event>, key: string, g: Group)
    requires Tracks(cfg, added, key, g)
    ensures g.events != []
  {
  }

  lemma AssembleFlush(cfg: Config, now: Time, s: State, s': State, batches: seq<Batch>, order: seq<string>,
                      g1: map<string, Group>)
    requires Evict(cfg, now, s.groups, g1) && Discards(s.groups, g1, s.discarded, s'.discarded)
    requires Draining(batches, order, s'.groups, g1, {})
    requires s' == s.(groups := s'.groups, discarded := s'.discarded,
                      sent := s.sent + Recorded(batches, order, g1, s.active > 0, |s.added|))
    ensures FlushStep(cfg, now, s, s')
  {
    hide Evict, Drain, Draining, Buffered;
    DrainingDone(s, s', batches, order, g1);
    assert FlushGroups(cfg, now, s, s', g1, order);
  }

  lemma DrainingDone(s: State, s': State, batches: seq<Batch>, order: seq<string>, g1: map<string, Group>)
    requires Draining(batches, order, s'.groups, g1, {})
    requires s'.sent == s.sent + Recorded(batches, order, g1, s.active > 0, |s.added|)
    ensures Drain(s, s', g1, order)
  {
    hide IsStableSort, Lists;
    assert AlertKeys(g1) - {} == AlertKeys(g1);
    assert s'.groups == g1 - AlertKeys(g1);
  }

  // ----- the aggregator -----

  class Aggregator {
    const cfg: Config
    var groups: map<string, GroupBuffer>
    var activeBackfills: int
    var backfillAlerts: int

    // The log of added events, what the store was handed, what was thrown away.
    ghost var added: seq<Event>
    ghost var sent: seq<Record>
    ghost var discarded: multiset<Event>
    ghost var windowStart: nat

    ghost function Groups(): map<string, Group>
      reads this`groups, groups.Values
    {
      map k | k in groups :: groups[k].Value()
    }

    ghost function State(): State
      reads this, groups.Values
    {
      M.State(Groups(), added, sent, discarded, activeBackfills, backfillAlerts, windowStart)
    }

    ghost predicate Distinct()
      reads this`groups
    {
      forall j, k :: j in groups && k in groups && j != k ==> groups[j] != groups[k]
    }

    ghost predicate Valid()
      reads this, groups.Values
    {
      ValidConfig(cfg) && Distinct() && Inv(cfg, State())
    }

    constructor (flushSize: GoInt, unknownLogID: string, maxGroups: GoInt, groupTTL: GoInt)
      ensures Valid() && State() == InitialState()
      ensures cfg == NewConfig(flushSize, unknownLogID, maxGroups, groupTTL)
    {
      cfg := NewConfig(flushSize, unknownLogID, maxGroups, groupTTL);
      groups, activeBackfills, backfillAlerts := map[], 0, 0;
      added, sent, discarded, windowStart := [], [], multiset{}, 0;
    }

    /** `delete(a.groups, key)`. */
    method Take(key: string)
      requires key in groups
      modifies this`groups
      ensures groups == old(groups) - {key}
      ensures Groups() == old(Groups()) - {key}
    {
      groups := groups - {key};
      assert Groups() == old(Groups()) - {key};
    }

    /** `delete(a.groups, key)` where the events of the group are lost with it. */
    method Drop(key: string)
      requires key in groups
      modifies this`groups, this`discarded
      ensures groups == old(groups) - {key}
      ensures Groups() == old(Groups()) - {key}
      ensures discarded == old(discarded) + multiset(old(Groups())[key].events)
    {
      discarded := discarded + multiset(groups[key].events);
      Take(key);
    }

    method EvictExpired(now: Time)
      requires WellKeyed(Groups())
      modifies this`groups, this`discarded
      ensures Submap(groups, old(groups))
      ensures Groups() == Live(cfg, now, old(Groups())) && WellKeyed(Groups())
      ensures Discards(old(Groups()), Groups(), old(discarded), discarded)
    {
      hide Discards, WellKeyed, Expired;
      ghost var gs0 := Groups();
      DiscardsNothing(gs0, discarded);
      NeverExpired(cfg, now);
      if cfg.groupTTL > 0 {
        var todo := groups.Keys;
        while todo != {}
          invariant todo <= groups.Keys && Submap(groups, old(groups)) && WellKeyed(Groups()) && Submap(Groups(), gs0)
          invariant forall k :: k in old(groups) && !Expired(cfg, now, gs0[k].hasAlert, gs0[k].lastTouched) ==>
                        k in groups
          invariant forall k :: k in groups && k !in todo ==> !Expired(cfg, now, gs0[k].hasAlert, gs0[k].lastTouched)
          invariant Discards(gs0, Groups(), old(discarded), discarded)
          decreases todo
        {
          var key :| key in todo;
          todo := todo - {key};
          if Expired(cfg, now, groups[key].hasAlert, groups[key].lastTouched) {
            DropDiscards(gs0, Groups(), key, old(discarded), discarded);
            Drop(key);
          }
        }
      }
    }

    /** The alert-less groups, in the order a range over the map gives them. */
    method CollectCandidates() returns (candidates: seq<Stamped>)
      ensures Candidates(candidates, Groups())
    {
      hide Enumerates;
      candidates := [];
      var todo := groups.Keys;
      EnumeratesNothing(Touches(Groups()) - todo);
      while todo != {}
        invariant todo <= groups.Keys
        invariant Enumerates(candidates, Touches(Groups()) - todo)
        decreases todo
      {
        var key :| key in todo;
        CandidatesGrow(candidates, Groups(), todo, key);
        todo := todo - {key};
        if !groups[key].hasAlert {
          candidates := candidates + [Stamped(key, groups[key].lastTouched)];
        }
      }
      assert Touches(Groups()) - todo == Touches(Groups());
    }

    method EvictToCap()
      requires WellKeyed(Groups())
      modifies this`groups, this`discarded
      ensures Submap(groups, old(groups))
      ensures CapEvict(cfg, old(Groups()), Groups())
      ensures Discards(old(Groups()), Groups(), old(discarded), discarded)
    {
      hide Discards, Enumerates, CapEvict, Groups;
      ghost var gs0 := Groups();
      KeysOfGroups();
      NoCapNeeded(cfg, gs0);
      DiscardsNothing(gs0, discarded);
      if cfg.maxGroups <= 0 || |groups| <= cfg.maxGroups {
        return;
      }
      var candidates := CollectCandidates();
      var sorted := SortByStamp(candidates);
      EnumeratesSorted(candidates, sorted, Touches(gs0));
      RemoveOldest(sorted, |groups| - cfg.maxGroups);
    }

    lemma KeysOfGroups()
      ensures Groups().Keys == groups.Keys && |Groups()| == |groups|
    {
      assert Groups().Keys == groups.Keys;
    }

    lemma GroupAt(key: string)
      requires key in groups
      ensures key in Groups() && Groups()[key] == groups[key].Value()
    {
    }

    method RemoveOldest(sorted: seq<Stamped>, overflow: int)
      requires WellKeyed(Groups()) && Candidates(sorted, Groups()) && SortedByStamp(sorted)
      requires cfg.maxGroups > 0 && overflow == |groups| - cfg.maxGroups > 0
      modifies this`groups, this`discarded
      ensures Submap(groups, old(groups))
      ensures CapEvict(cfg, old(Groups()), Groups())
      ensures Discards(old(Groups()), Groups(), old(discarded), discarded)
    {
      hide Removing, WellKeyed, Candidates, CapEvict, SortedByStamp, Groups, Discards;
      ghost var gs0 := Groups();
      KeysOfGroups();
      NothingRemoved(gs0, sorted, discarded);
      var need, i := overflow, 0;
      while i < |sorted| && need > 0
        invariant 0 <= i <= |sorted| && need == |Groups()| - cfg.maxGroups >= 0
        invariant Submap(groups, old(groups))
        invariant Removing(gs0, Groups(), sorted, i, old(discarded), discarded)
      {
        KeysOfGroups();
        RemovingStep(gs0, Groups(), sorted, i, old(discarded), discarded);
        if sorted[i].key in groups {
          Drop(sorted[i].key);
          need := need - 1;
        }
        i := i + 1;
      }
      RemovingIsCapEvict(cfg, gs0, Groups(), sorted, i, old(discarded), discarded);
    }

    method EvictGroups(now: Time)
      requires WellKeyed(Groups())
      modifies this`groups, this`discarded
      ensures Submap(groups, old(groups))
      ensures Evict(cfg, now, old(Groups()), Groups())
      ensures Discards(old(Groups()), Groups(), old(discarded), discarded)
    {
      EvictExpired(now);
      EvictToCap();
      EvictInTwoSteps(cfg, now, old(Groups()), Groups());
    }

    /** The group of an event, made if it is not there. */
    method GroupFor(event: Event, now: Time) returns (buffer: GroupBuffer)
      requires Distinct()
      modifies this`groups
      ensures Distinct() && event.logID in groups && groups[event.logID] == buffer
      ensures Groups() == old(Groups())[event.logID := buffer.Value()]
      ensures buffer.Value()
              == (if event.logID in old(groups) then old(Groups())[event.logID] else NewGroup(event, now, |added|))
      ensures buffer in old(groups.Values) || fresh(buffer)
      ensures groups == old(groups)[event.logID := buffer]
    {
      if event.logID in groups {
        buffer := groups[event.logID];
      } else {
        buffer := new GroupBuffer(event, now, |added|);
        groups := groups[event.logID := buffer];
      }
      assert Groups() == old(Groups())[event.logID := buffer.Value()];
    }

    /** Pushing changes one group of the map and no other. */
    method PushTo(buffer: GroupBuffer, event: Event, now: Time)
      requires Distinct() && 1 <= cfg.maxGroupSize && event.logID in groups && groups[event.logID] == buffer
      modifies buffer
      ensures Groups() == old(Groups())[event.logID := Push(old(buffer.Value()), event, now, cfg.maxGroupSize)]
    {
      buffer.Append(event, now, cfg.maxGroupSize);
      assert forall k :: k in groups && k != event.logID ==> groups[k] != buffer;
      assert Groups() == old(Groups())[event.logID := Push(old(buffer.Value()), event, now, cfg.maxGroupSize)];
    }

    method Touch(event: Event, now: Time) returns (buffer: GroupBuffer)
      requires 1 <= cfg.maxGroupSize && Distinct()
      modifies this`groups, groups.Values
      ensures Distinct() && event.logID in groups && groups[event.logID] == buffer
      ensures forall k :: k in groups ==> groups[k] in old(groups.Values) || fresh(groups[k])
      ensures Groups() == old(Groups())[event.logID :=
                Push(if event.logID in old(Groups()) then old(Groups())[event.logID] else NewGroup(event, now, |added|),
                     event, now, cfg.maxGroupSize)]
    {
      hide Push, Distinct, Groups;
      KeysOfGroups();
      buffer := GroupFor(event, now);
      PushTo(buffer, event, now);
    }

    /** First half of an Add: evict, then push the event to its group. */
    method EvictAndPush(event: Event, now: Time) returns (buffer: GroupBuffer, ghost g1: map<string, Group>)
      requires 1 <= cfg.maxGroupSize && Distinct() && WellKeyed(Groups())
      modifies this`groups, this`discarded, groups.Values
      ensures Distinct() && event.logID in groups && groups[event.logID] == buffer
      ensures forall k :: k in groups ==> groups[k] in old(groups.Values) || fresh(groups[k])
      ensures Evict(cfg, now, old(Groups()), g1) && Discards(old(Groups()), g1, old(discarded), discarded)
      ensures Groups() == g1[event.logID :=
                Push(if event.logID in g1 then g1[event.logID] else NewGroup(event, now, |added|),
                     event, now, cfg.maxGroupSize)]
    {
      hide Evict, Discards, Push, WellKeyed, Groups;
      EvictGroups(now);
      g1 := Groups();
      buffer := Touch(event, now);
    }

    /** Second half of an Add: drop, keep or flush the group pushed to. */
    method Settle(key: string, buffer: GroupBuffer, now: Time, ghost s: State, ghost log: seq<Event>)
        returns (batch: Option<Batch>, ghost s': State, ghost gEnd: map<string, Group>)
      requires WellKeyed(Groups()) && key in groups && groups[key] == buffer
      modifies this`groups, this`discarded
      ensures Submap(groups, old(groups))
      ensures s' == s.(groups := Groups(), discarded := discarded, added := log, alerts := backfillAlerts,
                       sent := if batch.None? then s.sent
                               else s.sent + [Record(batch.value.(suppressAlertSinks := s.active > 0),
                                                     buffer.since, |log|)])
      ensures Discards(old(Groups()), gEnd, old(discarded), discarded)
      ensures Outcome(cfg, now, key, s, s', old(Groups()), gEnd)
    {
      hide Evict, Discards, IsStableSort, Lists, WellKeyed, Groups;
      GroupAt(key);
      ghost var g2 := Groups();
      DiscardsNothing(g2, discarded);
      batch := None;
      if !buffer.hasAlert && |buffer.events| >= cfg.maxGroupSize {
        DropDiscards(g2, g2, key, discarded, discarded);
        Drop(key);
        gEnd := Groups();
      } else {
        EvictGroups(now);
        gEnd := Groups();
        if buffer.hasAlert && |buffer.events| >= cfg.flushSize {
          var b := buffer.Snapshot(key);
          batch := Some(b);
          P.EvictKeepsAlerts(cfg, now, g2, gEnd);
          KeysOfGroups();
          Take(key);
        }
      }
      s' := s.(groups := Groups(), discarded := discarded, added := log, alerts := backfillAlerts,
               sent := if batch.None? then s.sent
                       else s.sent + [Record(batch.value.(suppressAlertSinks := s.active > 0), buffer.since, |log|)]);
    }

    /** The locked part of an Add.  The caller hands the batch to the store; `s'` is the
        state once it has. */
    method AddToGroup(event: Event, now: Time, ghost s: State)
        returns (batch: Option<Batch>, ghost since: nat, ghost s': State,
                 ghost g1: map<string, Group>, ghost gEnd: map<string, Group>)
      requires ValidConfig(cfg) && Distinct() && GroupsTracked(cfg, s) && GroupsShaped(cfg, s.groups)
      requires !FlushedIndividually(cfg, event) && s == State().(alerts := s.alerts)
      modifies this`groups, this`discarded, groups.Values
      ensures Distinct() && forall k :: k in groups ==> groups[k] in old(groups.Values) || fresh(groups[k])
      ensures s' == State().(added := added + [event],
                             sent := if batch.None? then sent
                                     else sent + [Record(batch.value.(suppressAlertSinks := activeBackfills > 0),
                                                         since, |added| + 1)])
      ensures AddGrouped(cfg, now, event, s, s', g1, gEnd)
    {
      hide Evict, Outcome, Discards, AddGrouped, Tracks, Shape, Push;
      TrackedIsWellKeyed(cfg, added, Groups());
      var buffer;
      buffer, g1 := EvictAndPush(event, now);
      P.EvictKeepsAlerts(cfg, now, s.groups, g1);
      P.PushedTracks(cfg, now, event, s, g1);
      TrackedIsWellKeyed(cfg, added + [event], Groups());
      ghost var d1 := discarded;
      since := buffer.since;
      batch, s', gEnd := Settle(event.logID, buffer, now, s, added + [event]);
      AssembleAdd(cfg, now, event, s, s', g1, gEnd, d1);
    }

    method Add(event: Event, now: Time)
      requires Valid()
      modifies this, groups.Values
      ensures Valid() && AddStep(cfg, now, event, old(State()), State())
      ensures forall k :: k in groups ==> groups[k] in old(groups.Values) || fresh(groups[k])
    {
      hide Inv, AddGrouped, GroupsTracked, GroupsShaped, Groups;
      ghost var s := State();
      P.InvGroups(cfg, s);
      var suppress := activeBackfills > 0;
      if suppress && event.alert {
        backfillAlerts := backfillAlerts + 1;
      }
      if FlushedIndividually(cfg, event) {
        sent := sent + [Record(SingleBatch(event, suppress), |added|, |added| + 1)];
        added := added + [event];
      } else {
        var batch, since, s', g1, gEnd := AddToGroup(event, now, s);
        if batch.Some? {
          sent := sent + [Record(batch.value.(suppressAlertSinks := suppress), since, |added| + 1)];
        }
        added := added + [event];
        assert s' == State();
      }
      P.AddInv(cfg, now, event, s, State());
    }

    /** Takes every group with an alert out of the map, one batch each. */
    method DrainAll(now: Time) returns (batches: seq<Batch>, ghost order: seq<string>, ghost g1: map<string, Group>)
      requires WellKeyed(Groups()) && forall k :: k in groups ==> groups[k].events != []
      modifies this`groups, this`discarded
      ensures Submap(groups, old(groups))
      ensures Evict(cfg, now, old(Groups()), g1) && Discards(old(Groups()), g1, old(discarded), discarded)
      ensures Draining(batches, order, Groups(), g1, {})
      ensures |batches| == |order| && forall i :: 0 <= i < |order| ==> order[i] in g1
    {
      hide Evict, Discards, Draining, WellKeyed, Groups;
      EvictGroups(now);
      g1 := Groups();
      batches, order := TakeAlertGroups();
      DrainedKeys(batches, order, Groups(), g1);
    }

    method TakeAlertGroups() returns (batches: seq<Batch>, ghost order: seq<string>)
      requires forall k :: k in groups ==> groups[k].events != []
      modifies this`groups
      ensures Submap(groups, old(groups))
      ensures Draining(batches, order, Groups(), old(Groups()), {})
    {
      hide IsBatchOf, Draining, Groups;
      ghost var g1 := Groups();
      batches, order := [], [];
      var todo := groups.Keys;
      KeysOfGroups();
      NothingDrained(g1, todo);
      while todo != {}
        invariant todo <= groups.Keys && Submap(groups, old(groups))
        invariant Draining(batches, order, Groups(), g1, todo)
        decreases todo
      {
        var key :| key in todo;
        var buffer := groups[key];
        DrainingKeeps(batches, order, Groups(), g1, todo, key);
        GroupAt(key);
        if |buffer.events| > 0 && buffer.hasAlert {
          var batch := buffer.Snapshot(key);
          DrainingStep(batches, order, Groups(), g1, todo, key, batch);
          batches, order := batches + [batch], order + [key];
          Take(key);
        }
        todo := todo - {key};
      }
    }

    method FlushAll(now: Time)
      requires Valid()
      modifies this, groups.Values
      ensures Valid() && FlushStep(cfg, now, old(State()), State())
      ensures Submap(groups, old(groups))
    {
      hide Inv, FlushGroups, Tracks, Discards, Draining, Evict, Recorded;
      ghost var s := State();
      P.InvGroups(cfg, s);
      TrackedIsWellKeyed(cfg, added, Groups());
      forall k | k in groups ensures groups[k].events != [] {
        TrackedNonempty(cfg, added, k, Groups()[k]);
      }
      var batches, order, g1 := DrainAll(now);
      HandOver(batches, order, g1);
      AssembleFlush(cfg, now, s, State(), batches, order, g1);
      P.FlushInv(cfg, now, s, State());
    }

    /** Gives the drained batches to the store, with the suppress mark of the moment. */
    method HandOver(batches: seq<Batch>, ghost order: seq<string>, ghost g1: map<string, Group>)
      requires |batches| == |order| && forall i :: 0 <= i < |order| ==> order[i] in g1
      modifies this`sent
      ensures sent == old(sent) + Recorded(batches, order, g1, activeBackfills > 0, |added|)
    {
      var suppress := activeBackfills > 0;
      for i := 0 to |batches|
        invariant sent == old(sent) + Recorded(batches, order, g1, suppress, |added|)[..i]
      {
        sent := sent + [Record(batches[i].(suppressAlertSinks := suppress), g1[order[i]].since, |added|)];
      }
    }

    method EnterBackfill()
      requires Valid()
      modifies this`activeBackfills, this`backfillAlerts, this`windowStart
      ensures Valid() && State() == M.EnterBackfill(old(State()))
    {
      hide Inv, Groups;
      P.BackfillInv(cfg, State());
      activeBackfills := activeBackfills + 1;
      if activeBackfills == 1 {
        backfillAlerts := 0;
        windowStart := |added|;
      }
    }

    method ExitBackfill() returns (alerts: int)
      requires Valid()
      modifies this`activeBackfills, this`backfillAlerts
      ensures Valid() && (State(), alerts) == M.ExitBackfill(old(State()))
    {
      hide Inv, Groups;
      P.BackfillInv(cfg, State());
      activeBackfills := activeBackfills - 1;
      var remaining := activeBackfills;
      if remaining < 0 {
        activeBackfills := 0;
        return 0;
      }
      if remaining == 0 {
        alerts := backfillAlerts;
        backfillAlerts := 0;
        return alerts;
      }
      return 0;
    }
  }
}
