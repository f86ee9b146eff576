/** Specification of the aggregator: its state as values, what one call may do to
    that state, and the theorems about every run of calls.  The class that keeps the
    state in place and takes these steps is in Aggregator.dfy. */
module AggregatorModel {
  import opened Base

  datatype Event = Event(logID: string, timestamp: Time, container: string, alert: bool, body: string)

  datatype Batch = Batch(logID: string, firstSeen: Time, lastSeen: Time, count: nat,
                         containers: seq<string>, events: seq<Event>, suppressAlertSinks: bool)

  datatype Config = Config(flushSize: GoInt, maxGroupSize: GoInt, maxGroups: GoInt, groupTTL: GoInt,
                           unknownLogID: string)

  const MAX_BUFFERED_EVENTS_FACTOR: int := 10

  function MaxBufferedEvents(flushSize: GoInt): (size: GoInt)
    ensures 1 <= size && flushSize <= size
    ensures flushSize <= 0 ==> size == 10
    ensures 0 < flushSize ==>
              var wanted := flushSize * 10;
              size == if wanted <= MAX_INT then wanted else flushSize
  {
    if flushSize <= 0 then MAX_BUFFERED_EVENTS_FACTOR
    else if flushSize > MAX_INT / MAX_BUFFERED_EVENTS_FACTOR then flushSize
    else flushSize * MAX_BUFFERED_EVENTS_FACTOR
  }

  function NewConfig(flushSize: GoInt, unknownLogID: string, maxGroups: GoInt, groupTTL: GoInt): (cfg: Config)
    ensures ValidConfig(cfg)
    ensures cfg.flushSize == flushSize && cfg.unknownLogID == unknownLogID
    ensures cfg.maxGroupSize == MaxBufferedEvents(flushSize)
    ensures maxGroups >= 0 ==> cfg.maxGroups == maxGroups
    ensures maxGroups < 0 ==> cfg.maxGroups == 0
    ensures groupTTL >= 0 ==> cfg.groupTTL == groupTTL
    ensures groupTTL < 0 ==> cfg.groupTTL == 0
  {
    Config(flushSize, MaxBufferedEvents(flushSize), Max(maxGroups, 0), Max(groupTTL, 0), unknownLogID)
  }

  /** All that the theorems need to know of a configuration; `NewConfig` gives it for
      every `flushSize`, non-positive ones and ones near the largest int included. */
  predicate ValidConfig(cfg: Config) {
    1 <= cfg.maxGroupSize && cfg.flushSize <= cfg.maxGroupSize && 0 <= cfg.maxGroups && 0 <= cfg.groupTTL
  }

  // ----- groups -----

  /** One buffered group.  `since` is the length of the log of added events when the
      group was created; it is bookkeeping of the model. */
  datatype Group = Group(since: nat, firstSeen: Time, lastSeen: Time, lastTouched: Time,
                         containers: set<string>, hasAlert: bool, events: seq<Event>)

  ghost function NewGroup(event: Event, now: Time, since: nat): Group {
    Group(since, event.timestamp, event.timestamp, now, {}, false, [])
  }

  /** How many of the oldest events go when one more arrives. */
  function OverflowCount(size: nat, maxGroupSize: GoInt): (n: nat)
    requires 1 <= maxGroupSize
    ensures n <= size
  {
    Max(size + 1 - maxGroupSize, 0)
  }

  ghost function Push(g: Group, event: Event, now: Time, maxGroupSize: GoInt): Group
    requires 1 <= maxGroupSize
  {
    var n := OverflowCount(|g.events|, maxGroupSize);
    var events := (g.events + [event])[n..];
    var firstSeen := if g.firstSeen == ZERO_TIME || event.timestamp < g.firstSeen then event.timestamp else g.firstSeen;
    Group(g.since,
          if n > 0 then events[0].timestamp else firstSeen,
          Max(g.lastSeen, event.timestamp),
          now, g.containers + {event.container}, g.hasAlert || event.alert, events)
  }

  predicate FlushedIndividually(cfg: Config, event: Event) {
    event.alert && event.logID == cfg.unknownLogID
  }

  predicate GoesToGroup(event: Event, key: string, unknownLogID: string) {
    event.logID == key && !(event.alert && key == unknownLogID)
  }

  /** The events of a log that are buffered under `key`, in order. */
  ghost function Kept(log: seq<Event>, key: string, unknownLogID: string): seq<Event> {
    if log == [] then []
    else
      var last := log[|log| - 1];
      Kept(log[..|log| - 1], key, unknownLogID) + if GoesToGroup(last, key, unknownLogID) then [last] else []
  }

  ghost predicate AnyAlert(events: seq<Event>) {
    exists e :: e in events && e.alert
  }

  ghost function ContainersOf(events: seq<Event>): set<string> {
    set e | e in events :: e.container
  }

  ghost function MaxTime(events: seq<Event>): Time
    requires events != []
  {
    var last := events[|events| - 1].timestamp;
    if |events| == 1 then last else Max(MaxTime(events[..|events| - 1]), last)
  }

  ghost function MinTime(events: seq<Event>): Time
    requires events != []
  {
    var last := events[|events| - 1].timestamp;
    if |events| == 1 then last else Min(MinTime(events[..|events| - 1]), last)
  }

  /** What successive calls leave in `firstSeen`: the running minimum, restarted
      whenever the current value is the zero time. */
  ghost function FirstSeenOf(events: seq<Event>): Time
    requires events != []
  {
    var last := events[|events| - 1].timestamp;
    if |events| == 1 then last
    else
      var before := FirstSeenOf(events[..|events| - 1]);
      if before == ZERO_TIME || last < before then last else before
  }

  // ----- batches -----

  ghost predicate SortedByTime(events: seq<Event>) {
    forall i, j :: 0 <= i < j < |events| ==> events[i].timestamp <= events[j].timestamp
  }

  ghost function AtTime(events: seq<Event>, t: Time): seq<Event> {
    if events == [] then []
    else
      var last := events[|events| - 1];
      AtTime(events[..|events| - 1], t) + if last.timestamp == t then [last] else []
  }

  /** `sorted` is in time order and events of the same time keep their order. */
  ghost predicate IsStableSort(events: seq<Event>, sorted: seq<Event>) {
    SortedByTime(sorted) && forall t :: AtTime(sorted, t) == AtTime(events, t)
  }

  ghost predicate Lists<T(!new)>(xs: seq<T>, s: set<T>) {
    (forall i, j :: 0 <= i < j < |xs| ==> xs[i] != xs[j]) && (forall x :: x in xs <==> x in s)
  }

  ghost predicate IsBatchOf(b: Batch, key: string, g: Group, suppress: bool) {
    && b.logID == key
    && b.firstSeen == g.firstSeen && b.lastSeen == g.lastSeen
    && IsStableSort(g.events, b.events) && b.count == |b.events|
    && Lists(b.containers, g.containers)
    && b.suppressAlertSinks == suppress
  }

  function SingleBatch(event: Event, suppress: bool): Batch {
    Batch(event.logID, event.timestamp, event.timestamp, 1, [event.container], [event], suppress)
  }

  /** A batch handed to the store; it covers positions `lo` (inclusive) to `hi`
      (exclusive) of the log of added events. */
  datatype Record = Record(batch: Batch, lo: nat, hi: nat)

  // ----- state and steps -----

  datatype State = State(groups: map<string, Group>, added: seq<Event>, sent: seq<Record>, discarded: multiset<Event>,
                         active: int, alerts: int, windowStart: nat)

  ghost function InitialState(): State {
    State(map[], [], [], multiset{}, 0, 0, 0)
  }

  ghost predicate Submap<K, V>(a: map<K, V>, b: map<K, V>) {
    a.Keys <= b.Keys && forall k :: k in a ==> a[k] == b[k]
  }

  /** Idle for the TTL; the saturation of the difference makes no odds. */
  predicate Expired(cfg: Config, now: Time, hasAlert: bool, lastTouched: Time): (expired: bool)
    ensures expired <==> cfg.groupTTL > 0 && !hasAlert && now - lastTouched >= cfg.groupTTL
  {
    cfg.groupTTL > 0 && !hasAlert && Sub(now, lastTouched) >= cfg.groupTTL
  }

  ghost function Live(cfg: Config, now: Time, gs: map<string, Group>): map<string, Group> {
    map k | k in gs && !Expired(cfg, now, gs[k].hasAlert, gs[k].lastTouched) :: gs[k]
  }

  ghost function AlertKeys(gs: map<string, Group>): set<string> {
    set k | k in gs && gs[k].hasAlert
  }

  /** One eviction pass: all expired alert-less groups go, then exactly as many more
      alert-less ones as the cap asks for (or all of them), none touched later than a
      survivor.  Ties in touch time may fall either way. */
  ghost predicate Evict(cfg: Config, now: Time, gs: map<string, Group>, gs': map<string, Group>) {
    var live := Live(cfg, now, gs);
    && Submap(gs', live)
    && AlertKeys(gs') == AlertKeys(gs)
    && |gs'| == (if cfg.maxGroups <= 0 || |live| <= cfg.maxGroups then |live|
                 else Max(cfg.maxGroups, |AlertKeys(gs)|))
    && forall r, v :: r in live && r !in gs' && v in gs' && !gs'[v].hasAlert ==>
         live[r].lastTouched <= gs'[v].lastTouched
  }

  ghost function Buffered(gs: map<string, Group>, e: Event): nat {
    if e.logID in gs then multiset(gs[e.logID].events)[e] else 0
  }

  /** What becomes of the group an event was pushed to: dropped when full without an
      alert, kept while small, flushed otherwise.  `g2` is the map after the push,
      `gEnd` the map after the drop or the second eviction. */
  ghost predicate Outcome(cfg: Config, now: Time, key: string, s: State, s': State,
                          g2: map<string, Group>, gEnd: map<string, Group>)
    requires key in g2
  {
    var g := g2[key];
    if !g.hasAlert && |g.events| >= cfg.maxGroupSize then
      gEnd == g2 - {key} && s'.groups == gEnd && s'.sent == s.sent
    else
      && Evict(cfg, now, g2, gEnd)
      && if !g.hasAlert || |g.events| < cfg.flushSize then
           s'.groups == gEnd && s'.sent == s.sent
         else
           && s'.groups == gEnd - {key}
           && |s'.sent| == |s.sent| + 1 && s.sent == s'.sent[..|s.sent|]
           && var r := s'.sent[|s.sent|];
           r.lo == g.since && r.hi == |s'.added| && IsBatchOf(r.batch, key, g, s.active > 0)
  }

  /** An event that is not flushed individually: evict, which leaves `g1`, then push. */
  ghost predicate AddGrouped(cfg: Config, now: Time, event: Event, s: State, s': State,
                             g1: map<string, Group>, gEnd: map<string, Group>)
    requires 1 <= cfg.maxGroupSize
  {
    var key := event.logID;
    var before := if key in g1 then g1[key] else NewGroup(event, now, |s.added|);
    var g2 := g1[key := Push(before, event, now, cfg.maxGroupSize)];
    var trimmed := (before.events + [event])[..OverflowCount(|before.events|, cfg.maxGroupSize)];
    && Evict(cfg, now, s.groups, g1)
    && (forall x: Event :: s'.discarded[x] == s.discarded[x] + (Buffered(s.groups, x) - Buffered(g1, x))
                                              + multiset(trimmed)[x] + (Buffered(g2, x) - Buffered(gEnd, x)))
    && Outcome(cfg, now, key, s, s', g2, gEnd)
  }

  ghost predicate AddStep(cfg: Config, now: Time, event: Event, s: State, s': State)
    requires 1 <= cfg.maxGroupSize
  {
    && s'.added == s.added + [event]
    && s'.active == s.active && s'.windowStart == s.windowStart
    && s'.alerts == (if s.active > 0 && event.alert then s.alerts + 1 else s.alerts)
    && if FlushedIndividually(cfg, event) then
         && s'.groups == s.groups && s'.discarded == s.discarded
         && s'.sent == s.sent + [Record(SingleBatch(event, s.active > 0), |s.added|, |s'.added|)]
       else
         exists g1, gEnd :: AddGrouped(cfg, now, event, s, s', g1, gEnd)
  }

  /** All groups of `g1` that carry an alert leave, one batch each, in some order. */
  ghost predicate Drain(s: State, s': State, g1: map<string, Group>, order: seq<string>)
  {
    && Lists(order, AlertKeys(g1))
    && s'.groups == g1 - AlertKeys(g1)
    && |s'.sent| == |s.sent| + |order| && s.sent == s'.sent[..|s.sent|]
    && forall i :: 0 <= i < |order| ==>
         order[i] in g1
         && var r := s'.sent[|s.sent| + i];
         r.lo == g1[order[i]].since && r.hi == |s.added| && IsBatchOf(r.batch, order[i], g1[order[i]], s.active > 0)
  }

  /** Evict, leaving `g1`, then drain it in the given order. */
  ghost predicate FlushGroups(cfg: Config, now: Time, s: State, s': State, g1: map<string, Group>, order: seq<string>) {
    && Evict(cfg, now, s.groups, g1)
    && (forall x: Event :: s'.discarded[x] == s.discarded[x] + (Buffered(s.groups, x) - Buffered(g1, x)))
    && Drain(s, s', g1, order)
  }

  ghost predicate FlushStep(cfg: Config, now: Time, s: State, s': State) {
    && s'.added == s.added && s'.active == s.active && s'.alerts == s.alerts && s'.windowStart == s.windowStart
    && exists g1, order :: FlushGroups(cfg, now, s, s', g1, order)
  }

  ghost function EnterBackfill(s: State): State {
    if s.active + 1 == 1 then s.(active := s.active + 1, alerts := 0, windowStart := |s.added|)
    else s.(active := s.active + 1)
  }

  /** The new state and the number the caller is told. */
  ghost function ExitBackfill(s: State): (State, int) {
    var remaining := s.active - 1;
    if remaining < 0 then (s.(active := 0), 0)
    else if remaining == 0 then (s.(active := 0, alerts := 0), s.alerts)
    else (s.(active := remaining), 0)
  }

  datatype Op = AddOp(now: Time, event: Event) | FlushOp(now: Time) | EnterOp | ExitOp

  ghost predicate Next(cfg: Config, s: State, op: Op, s': State)
    requires 1 <= cfg.maxGroupSize
  {
    match op
    case AddOp(now, event) => AddStep(cfg, now, event, s, s')
    case FlushOp(now) => FlushStep(cfg, now, s, s')
    case EnterOp => s' == EnterBackfill(s)
    case ExitOp => s' == ExitBackfill(s).0
  }

  ghost predicate IsRun(cfg: Config, ops: seq<Op>, states: seq<State>)
    requires 1 <= cfg.maxGroupSize
  {
    && |states| == |ops| + 1 && states[0] == InitialState()
    && forall i :: 0 <= i < |ops| ==> Next(cfg, states[i], ops[i], states[i + 1])
  }

  // ----- invariant -----

  ghost function SentCount(sent: seq<Record>, e: Event): nat {
    if sent == [] then 0
    else SentCount(sent[..|sent| - 1], e) + multiset(sent[|sent| - 1].batch.events)[e]
  }

  ghost predicate ConservedAt(s: State, e: Event) {
    multiset(s.added)[e] == SentCount(s.sent, e) + Buffered(s.groups, e) + s.discarded[e]
  }

  /** The group holds exactly the events with its key added since it was created. */
  ghost predicate Tracks(cfg: Config, added: seq<Event>, key: string, g: Group) {
    && g.since < |added|
    && g.events == Kept(added[g.since..], key, cfg.unknownLogID)
    && g.events != []
    && (forall e :: e in g.events ==> GoesToGroup(e, key, cfg.unknownLogID))
    && (g.hasAlert <==> AnyAlert(g.events))
    && g.containers == ContainersOf(g.events)
    && g.lastSeen == MaxTime(g.events)
    && g.firstSeen == FirstSeenOf(g.events)
  }

  ghost predicate Shape(cfg: Config, g: Group) {
    if g.hasAlert then |g.events| < cfg.flushSize else |g.events| < cfg.maxGroupSize
  }

  /** The batch is a stable time sort of exactly the events it covers, with matching
      count, containers and times. */
  ghost predicate Faithful(cfg: Config, added: seq<Event>, r: Record) {
    var b := r.batch;
    && r.lo < r.hi <= |added| && b.events != []
    && b.count == |b.events|
    && if b.logID == cfg.unknownLogID then
         r.hi == r.lo + 1 && added[r.lo].alert && b == SingleBatch(added[r.lo], b.suppressAlertSinks)
       else
         var events := Kept(added[r.lo..r.hi], b.logID, cfg.unknownLogID);
         && events != []
         && IsStableSort(events, b.events)
         && Lists(b.containers, ContainersOf(events))
         && AnyAlert(events)
         && b.lastSeen == MaxTime(events)
         && b.firstSeen == FirstSeenOf(events)
  }

  ghost predicate CapHolds(cfg: Config, gs: map<string, Group>) {
    cfg.maxGroups > 0 ==> |gs| <= Max(cfg.maxGroups, |AlertKeys(gs)|)
  }

  ghost function CountAlerts(events: seq<Event>): nat {
    if events == [] then 0
    else CountAlerts(events[..|events| - 1]) + if events[|events| - 1].alert then 1 else 0
  }

  ghost predicate WindowCounts(s: State) {
    && s.active >= 0 && s.windowStart <= |s.added|
    && s.alerts == if s.active > 0 then CountAlerts(s.added[s.windowStart..]) else 0
  }

  ghost predicate GroupsTracked(cfg: Config, s: State) {
    forall k :: k in s.groups ==> Tracks(cfg, s.added, k, s.groups[k])
  }

  ghost predicate GroupsShaped(cfg: Config, gs: map<string, Group>) {
    forall k :: k in gs ==> Shape(cfg, gs[k])
  }

  ghost predicate Conserved(s: State) {
    && (forall e: Event :: ConservedAt(s, e))
    && (forall e :: e in s.discarded ==> !e.alert)
  }

  ghost predicate Inv(cfg: Config, s: State) {
    && GroupsTracked(cfg, s)
    && GroupsShaped(cfg, s.groups)
    && Conserved(s)
    && (forall i :: 0 <= i < |s.sent| ==> Faithful(cfg, s.added, s.sent[i]))
    && CapHolds(cfg, s.groups)
    && WindowCounts(s)
  }
}
