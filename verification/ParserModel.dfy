/** The decisions of Parse and the silence they promise: once a chain is excluded, what
    follows with its log id stays silent.  What the regular expressions and the JSON
    decoder find in a line is given as facts about the line. */
module ParserModel {
  import opened Base
  import opened ChainModel
  import A = AggregatorModel
  import P = AggregatorProofs

  /** What is found in one line; levels and log ids found are not empty. */
  datatype Facts = Facts(
    blank: bool, json: bool,
    jsonLevel: Option<string>, textLevel: Option<string>,
    jsonLogID: Option<string>, messageLogID: Option<string>, lineLogID: Option<string>,
    messageExcluded: bool, lineExcluded: bool, payloadExcluded: bool)

  predicate NonEmpty(s: Option<string>) {
    s.Some? ==> s.value != ""
  }

  predicate WellFound(f: Facts) {
    && NonEmpty(f.jsonLevel) && NonEmpty(f.textLevel)
    && NonEmpty(f.jsonLogID) && NonEmpty(f.messageLogID) && NonEmpty(f.lineLogID)
  }

  /** The fields of an event that Parse decides on. */
  datatype Parsed = Parsed(logID: string, level: string, alert: bool)

  function Extract(unknown: string, f: Facts): Parsed {
    var fromJSON := if f.json && f.jsonLogID.Some? then f.jsonLogID.value else unknown;
    var logID :=
      if fromJSON != unknown then fromJSON
      else if f.messageLogID.Some? then f.messageLogID.value
      else if f.lineLogID.Some? then f.lineLogID.value
      else unknown;
    var jsonLevel := if f.json && f.jsonLevel.Some? then f.jsonLevel.value else "";
    var level := if jsonLevel == "" && f.textLevel.Some? then f.textLevel.value else jsonLevel;
    Parsed(logID, level, (f.json && f.jsonLevel.Some?) || (jsonLevel == "" && f.textLevel.Some?))
  }

  predicate Excluded(f: Facts) {
    f.messageExcluded || f.lineExcluded || (f.json && f.payloadExcluded)
  }

  /** The line registers its chain with the blocker. */
  predicate Registers(unknown: string, f: Facts) {
    !f.blank && Excluded(f) && Extract(unknown, f).logID != unknown
  }

  /** One Parse at time `now`; the blocker is enabled. */
  ghost predicate ParseStep(limits: Limits, unknown: string, s: State, f: Facts, now: Time, s': State,
                            event: Option<Parsed>) {
    var p := Extract(unknown, f);
    if f.blank then s' == s && event == None
    else if Excluded(f) then
      && event == None
      && if p.logID != unknown then Block(limits, s, p.logID, now, s') else s' == s
    else if p.logID != unknown && Blocked(s, p.logID, now).1 then s' == Blocked(s, p.logID, now).0 && event == None
    else
      && s' == (if p.logID != unknown then Blocked(s, p.logID, now).0 else s)
      && event == if !p.alert && p.logID == unknown then None else Some(p)
  }

  // ----- what a Parse decides, from the facts alone -----

  /** The log id: that of the JSON if known, else the message's, else the line's. */
  predicate IsLogID(unknown: string, f: Facts, id: string) {
    var inJSON := f.json && f.jsonLogID.Some? && f.jsonLogID.value != unknown;
    && (inJSON ==> id == f.jsonLogID.value)
    && (!inJSON && f.messageLogID.Some? ==> id == f.messageLogID.value)
    && (!inJSON && f.messageLogID.None? && f.lineLogID.Some? ==> id == f.lineLogID.value)
    && (!inJSON && f.messageLogID.None? && f.lineLogID.None? ==> id == unknown)
  }

  /** The level: that of the JSON if there is one, else the text's. */
  predicate IsLevel(f: Facts, level: string) {
    var inJSON := f.json && f.jsonLevel.Some? && f.jsonLevel.value != "";
    && (inJSON ==> level == f.jsonLevel.value)
    && (!inJSON && f.textLevel.Some? ==> level == f.textLevel.value)
    && (!inJSON && f.textLevel.None? ==> level == "")
  }

  /** A line yields an event exactly when it is not blank, nothing in it is excluded, its id
      is not blocked, and it has a level or a known id; it alerts exactly when a level was
      found. */
  predicate Decides(unknown: string, f: Facts, id: string, blocked: bool, event: Option<Parsed>) {
    && (event.Some? <==>
          && !f.blank && !f.messageExcluded && !f.lineExcluded && !(f.json && f.payloadExcluded)
          && !(id != unknown && blocked)
          && ((f.json && f.jsonLevel.Some?) || f.textLevel.Some? || id != unknown))
    && (event.Some? ==>
          && event.value.logID == id && IsLevel(f, event.value.level)
          && (event.value.alert <==> (f.json && f.jsonLevel.Some?) || f.textLevel.Some?))
  }

  lemma ExtractFinds(unknown: string, f: Facts)
    ensures var p := Extract(unknown, f);
            && IsLogID(unknown, f, p.logID) && IsLevel(f, p.level)
            && (p.alert <==> (f.json && f.jsonLevel.Some?) || f.textLevel.Some?)
    ensures Excluded(f) <==> f.messageExcluded || f.lineExcluded || (f.json && f.payloadExcluded)
    ensures Registers(unknown, f) <==> !f.blank && Excluded(f) && Extract(unknown, f).logID != unknown
    ensures forall id :: IsLogID(unknown, f, id) ==> id == Extract(unknown, f).logID
  {
  }

  /** Whether the blocker holds an entry of the id that has not expired. */
  predicate IsBlocked(s: State, id: string, now: Time) {
    id != "" && id in s.entries && now < s.entries[id]
  }

  /** Every Parse decides like that, and enters exactly the excluded lines of a known id into
      the blocker's history. */
  lemma ParseDecides(limits: Limits, unknown: string, s: State, f: Facts, now: Time, s': State, event: Option<Parsed>,
                     id: string)
    requires WellFound(f) && IsLogID(unknown, f, id) && ParseStep(limits, unknown, s, f, now, s', event)
    ensures Decides(unknown, f, id, IsBlocked(s, id, now), event)
    ensures s'.history == s.history +
              if !f.blank && (f.messageExcluded || f.lineExcluded || (f.json && f.payloadExcluded)) && id != unknown
              then [Hit(id, now)] else []
  {
    hide Evict;
    ExtractFinds(unknown, f);
  }

  datatype Call = Call(facts: Facts, now: Time)

  ghost predicate IsRun(limits: Limits, unknown: string, calls: seq<Call>, states: seq<State>,
                        events: seq<Option<Parsed>>) {
    && |states| == |calls| + 1 && |events| == |calls| && states[0] == Start()
    && (forall i :: 0 <= i < |calls| ==> WellFound(calls[i].facts))
    && forall i :: 0 <= i < |calls| ==>
         ParseStep(limits, unknown, states[i], calls[i].facts, calls[i].now, states[i + 1], events[i])
  }

  ghost predicate StrictClock(calls: seq<Call>) {
    forall i, j :: 0 <= i < j < |calls| ==> calls[i].now < calls[j].now
  }

  /** Every clock reading so far is before `now`. */
  ghost predicate Before(s: State, now: Time) {
    s.timely && (s.clock.Some? ==> s.clock.value < now)
  }

  lemma KnownIsNonEmpty(unknown: string, f: Facts)
    requires WellFound(f) && Extract(unknown, f).logID != unknown
    ensures Extract(unknown, f).logID != ""
  {
  }

  lemma StepKeeps(limits: Limits, unknown: string, s: State, f: Facts, now: Time, s': State, event: Option<Parsed>)
    requires Inv(limits, s) && WellFound(f) && ParseStep(limits, unknown, s, f, now, s', event)
    ensures Inv(limits, s')
    ensures s'.history == s.history + if Registers(unknown, f) then [Hit(Extract(unknown, f).logID, now)] else []
    ensures Before(s, now) ==> s'.timely && (s'.clock.Some? ==> s'.clock.value <= now)
  {
    hide Extract, Excluded, Inv;
    var p := Extract(unknown, f);
    if !f.blank && p.logID != unknown {
      KnownIsNonEmpty(unknown, f);
      if Excluded(f) {
        BlockKeepsInv(limits, s, p.logID, now, s');
        HistoryBeforeClock(limits, s);
      } else {
        BlockedKeepsInv(limits, s, p.logID, now);
      }
    }
  }

  lemma HistoryBeforeClock(limits: Limits, s: State)
    requires Inv(limits, s)
    ensures s.timely && s.history != [] ==> s.clock.Some? && s.history[|s.history| - 1].time <= s.clock.value
  {
  }

  lemma {:induction false} RunKeeps(limits: Limits, unknown: string, calls: seq<Call>, states: seq<State>,
                                 events: seq<Option<Parsed>>, n: nat)
    requires IsRun(limits, unknown, calls, states, events) && n <= |calls|
    ensures Inv(limits, states[n])
    ensures StrictClock(calls) && n < |calls| ==> Before(states[n], calls[n].now)
  {
    hide Inv, ParseStep;
    if n == 0 {
      StartInv(limits);
    } else {
      RunKeeps(limits, unknown, calls, states, events, n - 1);
      StepKeeps(limits, unknown, states[n - 1], calls[n - 1].facts, calls[n - 1].now, states[n], events[n - 1]);
    }
  }

  lemma StartInv(limits: Limits)
    ensures Inv(limits, Start())
  {
  }

  /** The ids other than `id` that calls `i + 1` to `j - 1` registered. */
  ghost function Others(unknown: string, calls: seq<Call>, i: nat, j: nat, id: string): set<string>
    requires j <= |calls|
  {
    set k | i < k < j && Registers(unknown, calls[k].facts) && Extract(unknown, calls[k].facts).logID != id
      :: Extract(unknown, calls[k].facts).logID
  }

  lemma {:induction false} SinceExclusion(limits: Limits, unknown: string, calls: seq<Call>, states: seq<State>,
                                 events: seq<Option<Parsed>>, i: nat, j: nat)
    requires IsRun(limits, unknown, calls, states, events) && StrictClock(calls) && i < j <= |calls|
    requires Registers(unknown, calls[i].facts)
    ensures var id := Extract(unknown, calls[i].facts).logID;
            && LastBlock(states[j].history, id).Some? && LastBlock(states[j].history, id).value >= calls[i].now
            && OthersSince(states[j].history, id) <= Others(unknown, calls, i, j, id)
  {
    hide Inv, ParseStep, Extract, Excluded, Registers, LastBlock, OthersSince;
    var id, last := Extract(unknown, calls[i].facts).logID, calls[j - 1];
    var s, s' := states[j - 1], states[j];
    RunKeeps(limits, unknown, calls, states, events, j - 1);
    StepKeeps(limits, unknown, s, last.facts, last.now, s', events[j - 1]);
    if j - 1 > i {
      SinceExclusion(limits, unknown, calls, states, events, i, j - 1);
      OthersGrow(unknown, calls, i, j, id);
      assert calls[i].now < last.now;
    }
    if Registers(unknown, last.facts) {
      HistorySnoc(s.history, Hit(Extract(unknown, last.facts).logID, last.now), id);
    } else {
      assert s'.history == s.history;
    }
  }

  lemma OthersGrow(unknown: string, calls: seq<Call>, i: nat, j: nat, id: string)
    requires i + 1 < j <= |calls|
    ensures Others(unknown, calls, i, j - 1, id) <= Others(unknown, calls, i, j, id)
    ensures Registers(unknown, calls[j - 1].facts) && Extract(unknown, calls[j - 1].facts).logID != id ==>
              Extract(unknown, calls[j - 1].facts).logID in Others(unknown, calls, i, j, id)
  {
  }

  /** Chain silence.  On a strictly increasing clock, once a line of a known id is
      excluded, every line of that id within the TTL yields nothing, while fewer than
      floor(8 * max / 10) other ids have been excluded in between. */
  lemma ChainSilence(limits: Limits, unknown: string, calls: seq<Call>, states: seq<State>,
                     events: seq<Option<Parsed>>, i: nat, j: nat, id: string)
    requires IsRun(limits, unknown, calls, states, events) && StrictClock(calls) && i < j < |calls|
    requires IsLogID(unknown, calls[i].facts, id) && IsLogID(unknown, calls[j].facts, id) && id != unknown
    requires var f := calls[i].facts;
             !f.blank && (f.messageExcluded || f.lineExcluded || (f.json && f.payloadExcluded))
    requires calls[j].now < calls[i].now + limits.ttl
    requires 10 * (|Others(unknown, calls, i, j, id)| + 1) <= 8 * limits.maxEntries
    ensures events[j] == None
  {
    hide Inv, Extract, Excluded, Registers, IsLogID, Others, LastBlock, OthersSince, KeptEntries;
    KeptEntriesIs(limits.maxEntries);
    ExtractFinds(unknown, calls[i].facts);
    ExtractFinds(unknown, calls[j].facts);
    SinceExclusion(limits, unknown, calls, states, events, i, j);
    RunKeeps(limits, unknown, calls, states, events, j);
    SubsetSize(OthersSince(states[j].history, id), Others(unknown, calls, i, j, id));
    KnownIsNonEmpty(unknown, calls[j].facts);
    BlockedIsRight(limits, states[j], id, calls[j].now);
    assert ParseStep(limits, unknown, states[j], calls[j].facts, calls[j].now, states[j + 1], events[j]);
  }

  /** A line is silenced only for a reason: blank or excluded itself, or its id excluded
      within the TTL, or neither a level nor a known id. */
  lemma SilenceHasAReason(limits: Limits, unknown: string, calls: seq<Call>, states: seq<State>,
                          events: seq<Option<Parsed>>, j: nat, id: string) returns (blocked: bool)
    requires IsRun(limits, unknown, calls, states, events) && j < |calls| && IsLogID(unknown, calls[j].facts, id)
    ensures Decides(unknown, calls[j].facts, id, blocked, events[j])
    ensures var last := LastBlock(states[j].history, id);
            blocked ==> last.Some? && calls[j].now < last.value + limits.ttl
  {
    hide Inv, Decides, IsLogID, LastBlock;
    RunKeeps(limits, unknown, calls, states, events, j);
    BlockedIsRight(limits, states[j], id, calls[j].now);
    assert ParseStep(limits, unknown, states[j], calls[j].facts, calls[j].now, states[j + 1], events[j]);
    ParseDecides(limits, unknown, states[j], calls[j].facts, calls[j].now, states[j + 1], events[j], id);
    blocked := IsBlocked(states[j], id, calls[j].now);
  }

  /** The unknown id never enters the blocker. */
  lemma {:induction false} UnknownIsNeverBlocked(limits: Limits, unknown: string, calls: seq<Call>, states: seq<State>,
                                 events: seq<Option<Parsed>>, n: nat)
    requires IsRun(limits, unknown, calls, states, events) && n <= |calls|
    ensures LastBlock(states[n].history, unknown) == None && unknown !in states[n].entries
  {
    RunKeeps(limits, unknown, calls, states, events, n);
    if n > 0 {
      hide Inv, ParseStep, Extract, Excluded, LastBlock;
      UnknownIsNeverBlocked(limits, unknown, calls, states, events, n - 1);
      RunKeeps(limits, unknown, calls, states, events, n - 1);
      var f, now, h := calls[n - 1].facts, calls[n - 1].now, states[n - 1].history;
      StepKeeps(limits, unknown, states[n - 1], f, now, states[n], events[n - 1]);
      if Registers(unknown, f) { HistorySnoc(h, Hit(Extract(unknown, f).logID, now), unknown); }
      EntriesWereBlocked(limits, states[n], unknown);
    } else {
      assert LastBlock([], unknown) == None;
    }
  }

  lemma EntriesWereBlocked(limits: Limits, s: State, id: string)
    requires Inv(limits, s)
    ensures id in s.entries ==> LastBlock(s.history, id).Some?
  {
  }

  /** Fed only by Parse with the same unknown id, the aggregator never has a group of it. */
  lemma ParseNeverFillsUnknownGroup(limits: Limits, cfg: A.Config, ops: seq<A.Op>, groups: seq<A.State>, n: nat)
    requires A.ValidConfig(cfg) && A.IsRun(cfg, ops, groups) && n <= |ops|
    requires forall op :: op in ops && op.AddOp? ==> ComesFromParse(limits, cfg.unknownLogID, op.event)
    ensures cfg.unknownLogID !in groups[n].groups
  {
    P.UnknownIsNeverBuffered(cfg, ops, groups, n);
  }

  ghost predicate ComesFromParse(limits: Limits, unknown: string, event: A.Event) {
    exists s, f, now, s', p ::
      ParseStep(limits, unknown, s, f, now, s', Some(p)) && event.logID == p.logID && event.alert == p.alert
  }
}
