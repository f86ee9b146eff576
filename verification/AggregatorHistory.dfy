/** Where a batch comes from: the call that created its group and the call that flushed it. */
module AggregatorHistory {
  import opened Base
  import opened AggregatorModel
  import opened AggregatorProofs

  /** Call `c` created the group under `key`, which then stayed in the map up to state `n`. */
  ghost predicate CreatedBy(ops: seq<Op>, states: seq<State>, key: string, since: nat, c: nat, n: nat)
    requires |states| == |ops| + 1 && c < n <= |ops|
  {
    && ops[c].AddOp? && ops[c].event.logID == key && |states[c].added| == since
    && (forall j :: c < j <= n ==> key in states[j].groups && states[j].groups[key].since == since)
    && states[c + 1].groups[key].events == [ops[c].event]
  }

  /** A call keeps a group or has just created it. */
  ghost predicate KeptOrCreated(s: State, op: Op, groups: map<string, Group>, key: string)
    requires key in groups
  {
    || (key in s.groups && groups[key].since == s.groups[key].since)
    || (op.AddOp? && op.event.logID == key && groups[key].since == |s.added| && groups[key].events == [op.event])
  }

  lemma PushedIsKeptOrCreated(cfg: Config, now: Time, event: Event, s: State, g1: map<string, Group>)
    requires ValidConfig(cfg) && Submap(g1, s.groups)
    ensures KeptOrCreated(s, AddOp(now, event), map[event.logID := Pushed(cfg, now, event, s, g1)], event.logID)
  {
    if event.logID !in g1 {
      PushToNewGroup(event, now, |s.added|, cfg.maxGroupSize);
    }
  }

  lemma AddKeepsOrCreates(cfg: Config, now: Time, event: Event, s: State, s': State, key: string)
    requires ValidConfig(cfg) && AddStep(cfg, now, event, s, s') && key in s'.groups
    ensures KeptOrCreated(s, AddOp(now, event), s'.groups, key)
  {
    hide AddGrouped, Pushed;
    if !FlushedIndividually(cfg, event) {
      var g1, gEnd :| AddGrouped(cfg, now, event, s, s', g1, gEnd);
      AddGroupedSubmaps(cfg, now, event, s, s', g1, gEnd);
      PushedIsKeptOrCreated(cfg, now, event, s, g1);
    }
  }

  lemma NextKeepsOrCreates(cfg: Config, s: State, op: Op, s': State, key: string)
    requires ValidConfig(cfg) && Next(cfg, s, op, s') && key in s'.groups
    ensures KeptOrCreated(s, op, s'.groups, key)
  {
    hide AddStep, FlushStep;
    match op
    case AddOp(now, event) => AddKeepsOrCreates(cfg, now, event, s, s', key);
    case FlushOp(now) => FlushLeavesNoAlert(cfg, now, s, s');
    case EnterOp =>
    case ExitOp =>
  }

  /** In every run each buffered group has a call that created it. */
  lemma {:induction false} GroupHasCreation(cfg: Config, ops: seq<Op>, states: seq<State>, n: nat, key: string)
      returns (c: nat)
    requires ValidConfig(cfg) && IsRun(cfg, ops, states) && n <= |ops| && key in states[n].groups
    ensures c < n && CreatedBy(ops, states, key, states[n].groups[key].since, c, n)
  {
    hide Next;
    assert n > 0;
    NextKeepsOrCreates(cfg, states[n - 1], ops[n - 1], states[n], key);
    if key in states[n - 1].groups && states[n].groups[key].since == states[n - 1].groups[key].since {
      c := GroupHasCreation(cfg, ops, states, n - 1, key);
    } else {
      c := n - 1;
    }
  }

  /** What a call hands to the store: earlier records stay, and a new one is of an event
      flushed alone, of the group the call has just pushed to, or of a group drained. */
  ghost predicate SentByCall(cfg: Config, s: State, op: Op, s': State, i: nat)
    requires |s.sent| <= i < |s'.sent|
  {
    var r := s'.sent[i];
    var key := r.batch.logID;
    && r.hi == |s'.added|
    && (key != cfg.unknownLogID ==> key !in s'.groups)
    && (op.FlushOp? || (op.AddOp? && op.event.logID == key))
    && ( || (op.AddOp? && r.lo == |s.added| && r.batch.events == [op.event])
         || (key in s.groups && r.lo == s.groups[key].since))
  }

  lemma AddSends(cfg: Config, now: Time, event: Event, s: State, s': State)
    requires ValidConfig(cfg) && AddStep(cfg, now, event, s, s')
    ensures s.sent <= s'.sent
    ensures forall i :: |s.sent| <= i < |s'.sent| ==> SentByCall(cfg, s, AddOp(now, event), s', i)
  {
    hide AddGrouped, Pushed;
    if !FlushedIndividually(cfg, event) {
      var g1, gEnd :| AddGrouped(cfg, now, event, s, s', g1, gEnd);
      AddGroupedSubmaps(cfg, now, event, s, s', g1, gEnd);
      PushedIsKeptOrCreated(cfg, now, event, s, g1);
      AddGroupedSends(cfg, now, event, s, s', g1, gEnd);
      var g := Pushed(cfg, now, event, s, g1);
      if |s'.sent| > |s.sent| && |g.events| == 1 {
        SingleSorted(g.events, s'.sent[|s.sent|].batch.events);
      }
    }
  }

  lemma AddGroupedSends(cfg: Config, now: Time, event: Event, s: State, s': State,
                        g1: map<string, Group>, gEnd: map<string, Group>)
    requires ValidConfig(cfg) && AddGrouped(cfg, now, event, s, s', g1, gEnd)
    ensures var g := Pushed(cfg, now, event, s, g1);
            || s'.sent == s.sent
            || ( && |s'.sent| == |s.sent| + 1 && s.sent == s'.sent[..|s.sent|] && event.logID !in s'.groups
                 && var r := s'.sent[|s.sent|];
                    && r.batch.logID == event.logID && r.lo == g.since && r.hi == |s'.added|
                    && IsStableSort(g.events, r.batch.events))
  {
    hide Evict, Push, Buffered, IsStableSort;
  }

  lemma SingleSorted(events: seq<Event>, sorted: seq<Event>)
    requires IsStableSort(events, sorted) && |events| == 1
    ensures sorted == events
  {
    StableSortUnique(events, sorted, events);
  }

  lemma FlushSends(cfg: Config, now: Time, s: State, s': State)
    requires ValidConfig(cfg) && FlushStep(cfg, now, s, s')
    ensures s.sent <= s'.sent
    ensures forall i :: |s.sent| <= i < |s'.sent| ==> SentByCall(cfg, s, FlushOp(now), s', i)
  {
    hide Evict, IsStableSort;
    var g1: map<string, Group>, order :| FlushGroups(cfg, now, s, s', g1, order);
    EvictKeepsAlerts(cfg, now, s.groups, g1);
    forall i | |s.sent| <= i < |s'.sent| ensures SentByCall(cfg, s, FlushOp(now), s', i) {
      var key, r := order[i - |s.sent|], s'.sent[|s.sent| + (i - |s.sent|)];
      assert r == s'.sent[i] && key in order;
      DrainLeaves(s, s', g1, order, key);
    }
  }

  lemma NextSends(cfg: Config, s: State, op: Op, s': State)
    requires ValidConfig(cfg) && Next(cfg, s, op, s')
    ensures s.sent <= s'.sent
    ensures forall i :: |s.sent| <= i < |s'.sent| ==> SentByCall(cfg, s, op, s', i)
  {
    hide AddStep, FlushStep, SentByCall;
    match op
    case AddOp(now, event) => AddSends(cfg, now, event, s, s');
    case FlushOp(now) => FlushSends(cfg, now, s, s');
    case EnterOp =>
    case ExitOp =>
  }

  /** The call that sent record `i`. */
  lemma {:induction false} RecordHasFlush(cfg: Config, ops: seq<Op>, states: seq<State>, m: nat, i: nat)
        returns (n: nat)
    requires ValidConfig(cfg) && IsRun(cfg, ops, states) && m <= |ops| && i < |states[m].sent|
    ensures n < m && |states[n].sent| <= i < |states[n + 1].sent| && states[n + 1].sent[i] == states[m].sent[i]
  {
    hide Next;
    assert m > 0;
    NextSends(cfg, states[m - 1], ops[m - 1], states[m]);
    if i < |states[m - 1].sent| {
      n := RecordHasFlush(cfg, ops, states, m - 1, i);
    } else {
      n := m - 1;
    }
  }

  /** From creation to flush.  Every batch of a run appears at one call `n`, a FlushAll or
      an Add of its id, and covers the log up to there.  It starts with the event of an
      Add `c`: either `c` is `n`, and the batch is that one event; or `c` created the
      group, which stayed in the map under the batch's id until call `n` took it. */
  lemma BatchSpansItsGroup(cfg: Config, ops: seq<Op>, states: seq<State>, i: nat) returns (c: nat, n: nat)
    requires ValidConfig(cfg) && IsRun(cfg, ops, states) && i < |states[|ops|].sent|
    ensures c <= n < |ops| && |states[n].sent| <= i < |states[n + 1].sent|
    ensures var r, key := states[|ops|].sent[i], states[|ops|].sent[i].batch.logID;
            && states[n + 1].sent[i] == r && r.hi == |states[n + 1].added|
            && (ops[n].FlushOp? || (ops[n].AddOp? && ops[n].event.logID == key))
            && (key != cfg.unknownLogID ==> key !in states[n + 1].groups)
            && ops[c].AddOp? && r.lo == |states[c].added|
            && (c == n ==> r.batch.events == [ops[n].event])
            && (c < n ==> CreatedBy(ops, states, key, r.lo, c, n))
  {
    hide Next;
    n := RecordHasFlush(cfg, ops, states, |ops|, i);
    NextSends(cfg, states[n], ops[n], states[n + 1]);
    var r := states[|ops|].sent[i];
    assert SentByCall(cfg, states[n], ops[n], states[n + 1], i);
    if ops[n].AddOp? && r.lo == |states[n].added| && r.batch.events == [ops[n].event] {
      c := n;
    } else {
      c := GroupHasCreation(cfg, ops, states, n, r.batch.logID);
    }
  }
}
