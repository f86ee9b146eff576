/** The chain blocker as a specification: a bounded cache that has to agree with "the
    last time this log id was excluded, plus the TTL"; and the decisions of Parse. */
module ChainModel {
  import opened Base

  datatype Hit = Hit(id: string, time: Time)

  /** When the id was last blocked. */
  function LastBlock(history: seq<Hit>, id: string): Option<Time> {
    if history == [] then None
    else
      var last := history[|history| - 1];
      if last.id == id then Some(last.time) else LastBlock(history[..|history| - 1], id)
  }

  /** The other ids blocked since. */
  function OthersSince(history: seq<Hit>, id: string): set<string> {
    if history == [] || history[|history| - 1].id == id then {}
    else {history[|history| - 1].id} + OthersSince(history[..|history| - 1], id)
  }

  /** In terms of positions: the last hit of the id, and the hits of others behind it. */
  lemma {:induction false} LastBlockIs(history: seq<Hit>, id: string)
    ensures LastBlock(history, id).None? ==> forall j :: 0 <= j < |history| ==> history[j].id != id
    ensures LastBlock(history, id).Some? ==>
              exists j :: 0 <= j < |history| && history[j] == Hit(id, LastBlock(history, id).value)
                          && forall k :: j < k < |history| ==> history[k].id != id
    ensures forall other :: other in OthersSince(history, id) <==>
              exists j :: 0 <= j < |history| && history[j].id == other
                          && forall k :: j <= k < |history| ==> history[k].id != id
  {
    if history != [] && history[|history| - 1].id != id {
      var n := |history| - 1;
      LastBlockIs(history[..n], id);
      forall other
        ensures other in OthersSince(history, id) <==>
                  exists j :: 0 <= j < |history| && history[j].id == other
                              && forall k :: j <= k < |history| ==> history[k].id != id
      {
        OtherIsBehind(history, id, other);
      }
    }
  }

  lemma OtherIsBehind(history: seq<Hit>, id: string, other: string)
    requires history != [] && history[|history| - 1].id != id
    requires var init := history[..|history| - 1];
             other in OthersSince(init, id) <==>
               exists j :: 0 <= j < |init| && init[j].id == other && forall k :: j <= k < |init| ==> init[k].id != id
    ensures other in OthersSince(history, id) <==>
              exists j :: 0 <= j < |history| && history[j].id == other
                          && forall k :: j <= k < |history| ==> history[k].id != id
  {
    var n := |history| - 1;
    var init := history[..n];
    if other in OthersSince(init, id) {
      var j :| 0 <= j < |init| && init[j].id == other && forall k :: j <= k < |init| ==> init[k].id != id;
      assert history[j].id == other;
      assert forall k :: j <= k < n ==> history[k] == init[k];
    }
    if history[n].id == other { assert other in OthersSince(history, id); }
    if j :| 0 <= j < |history| && history[j].id == other && forall k :: j <= k < |history| ==> history[k].id != id {
      if j < n {
        assert init[j].id == other && forall k :: j <= k < n ==> init[k] == history[k];
      }
    }
  }

  /** How many entries an over-full cache keeps: floor(8 * max / 10). */
  function KeptEntries(maxEntries: nat): nat {
    maxEntries * 8 / 10
  }

  lemma KeptEntriesIs(maxEntries: nat)
    ensures 10 * KeptEntries(maxEntries) <= 8 * maxEntries < 10 * (KeptEntries(maxEntries) + 1)
  {
  }

  /** The cache, with everything ever blocked, the time of the latest call, and whether
      the calls so far came in time order, blocks strictly after each other. */
  datatype State = State(entries: map<string, Time>, history: seq<Hit>, clock: Option<Time>, timely: bool)

  datatype Limits = Limits(ttl: int, maxEntries: nat)

  function Start(): State {
    State(map[], [], None, true)
  }

  predicate InOrder(s: State, now: Time) {
    s.timely && (s.clock.Some? ==> s.clock.value <= now)
  }

  predicate AfterBlocks(s: State, now: Time) {
    s.history != [] ==> s.history[|s.history| - 1].time < now
  }

  function Unexpired(entries: map<string, Time>, now: Time): map<string, Time> {
    map id | id in entries && now < entries[id] :: entries[id]
  }

  /** Expired entries go; if there are still too many, the earliest to expire go until
      `KeptEntries` are left, ties in any order. */
  ghost predicate Evict(limits: Limits, now: Time, e: map<string, Time>, e': map<string, Time>) {
    var live := Unexpired(e, now);
    if |live| <= limits.maxEntries then e' == live
    else
      && e'.Keys <= live.Keys && (forall id :: id in e' ==> e'[id] == live[id])
      && |e'| == KeptEntries(limits.maxEntries)
      && forall r, k :: r in live && r !in e' && k in e' ==> live[r] <= e'[k]
  }

  ghost predicate Block(limits: Limits, s: State, id: string, now: Time, s': State) {
    if id == "" then s' == s
    else
      var entries := s.entries[id := now + limits.ttl];
      && s'.history == s.history + [Hit(id, now)] && s'.clock == Some(now)
      && s'.timely == (InOrder(s, now) && AfterBlocks(s, now))
      && if |entries| > limits.maxEntries then Evict(limits, now, entries, s'.entries) else s'.entries == entries
  }

  /** A look-up: the answer, and the state without the entry if it had expired. */
  function Blocked(s: State, id: string, now: Time): (State, bool) {
    if id == "" then (s, false)
    else
      var s1 := s.(clock := Some(now), timely := InOrder(s, now));
      if id !in s.entries then (s1, false)
      else if s.entries[id] <= now then (s1.(entries := s.entries - {id}), false)
      else (s1, true)
  }

  // ----- invariant -----

  ghost predicate Increasing(history: seq<Hit>) {
    forall i, j :: 0 <= i < j < |history| ==> history[i].time < history[j].time
  }

  ghost predicate Inv(limits: Limits, s: State) {
    && |s.entries| <= limits.maxEntries
    && (forall id :: id in s.entries ==>
          LastBlock(s.history, id).Some? && s.entries[id] == LastBlock(s.history, id).value + limits.ttl)
    && (s.history != [] ==> s.clock.Some?)
    && (s.timely ==>
          && Increasing(s.history)
          && (s.history != [] ==> s.history[|s.history| - 1].time <= s.clock.value)
          && forall id ::
               (Protected(limits, s.history, id) && s.clock.value < LastBlock(s.history, id).value + limits.ttl) ==>
                 id in s.entries)
  }

  /** Blocked before, and fewer than `KeptEntries` other ids since. */
  ghost predicate Protected(limits: Limits, history: seq<Hit>, id: string) {
    LastBlock(history, id).Some? && |OthersSince(history, id)| < KeptEntries(limits.maxEntries)
  }

  lemma HistorySnoc(history: seq<Hit>, hit: Hit, id: string)
    ensures LastBlock(history + [hit], id) == if hit.id == id then Some(hit.time) else LastBlock(history, id)
    ensures OthersSince(history + [hit], id) == if hit.id == id then {} else {hit.id} + OthersSince(history, id)
  {
    assert (history + [hit])[..|history|] == history;
  }

  lemma {:induction false} LastBlockBound(history: seq<Hit>, id: string)
    requires Increasing(history) && LastBlock(history, id).Some?
    ensures history != [] && LastBlock(history, id).value <= history[|history| - 1].time
    ensures history[|history| - 1].id != id ==> LastBlock(history, id).value < history[|history| - 1].time
  {
    if history[|history| - 1].id != id {
      LastBlockBound(history[..|history| - 1], id);
    }
  }

  /** An id blocked no earlier than another is among those blocked since. */
  lemma {:induction false} LaterIsSince(history: seq<Hit>, id: string, other: string)
    requires Increasing(history) && id != other
    requires LastBlock(history, id).Some? && LastBlock(history, other).Some?
    requires LastBlock(history, id).value <= LastBlock(history, other).value
    ensures other in OthersSince(history, id)
  {
    LastBlockBound(history, other);
    var last := history[|history| - 1];
    if last.id != id && last.id != other {
      LaterIsSince(history[..|history| - 1], id, other);
    }
  }

  /** Eviction by number never takes a protected id. */
  lemma EvictSparesProtected(limits: Limits, history: seq<Hit>, now: Time,
                             e: map<string, Time>, e': map<string, Time>, id: string)
    requires Evict(limits, now, e, e') && Increasing(history) && Protected(limits, history, id)
    requires forall x :: x in e ==> LastBlock(history, x).Some? && e[x] == LastBlock(history, x).value + limits.ttl
    requires id in e && now < e[id]
    ensures id in e'
  {
    if id !in e' {
      forall other | other in e' ensures other in OthersSince(history, id) {
        LaterIsSince(history, id, other);
      }
      SubsetSize(e'.Keys, OthersSince(history, id));
    }
  }

  lemma BlockEntries(limits: Limits, s: State, id: string, now: Time, s': State)
    requires Inv(limits, s) && Block(limits, s, id, now, s') && id != ""
    ensures |s'.entries| <= limits.maxEntries
    ensures forall x :: x in s.entries[id := now + limits.ttl] ==>
              && LastBlock(s'.history, x).Some?
              && s.entries[id := now + limits.ttl][x] == LastBlock(s'.history, x).value + limits.ttl
    ensures forall x :: x in s'.entries ==>
                x in s.entries[id := now + limits.ttl] && s'.entries[x] == s.entries[id := now + limits.ttl][x]
  {
    forall x ensures LastBlock(s'.history, x) == if x == id then Some(now) else LastBlock(s.history, x) {
      HistorySnoc(s.history, Hit(id, now), x);
    }
  }

  lemma BlockKeepsProtected(limits: Limits, s: State, id: string, now: Time, s': State, x: string)
    requires Inv(limits, s) && Block(limits, s, id, now, s') && id != "" && s'.timely
    requires Protected(limits, s'.history, x) && now < LastBlock(s'.history, x).value + limits.ttl
    ensures x in s'.entries
  {
    var e: map<string, Time> := s.entries[id := now + limits.ttl];
    BlockEntries(limits, s, id, now, s');
    HistorySnoc(s.history, Hit(id, now), x);
    if x != id {
      SubsetSize(OthersSince(s.history, x), OthersSince(s'.history, x));
      assert Protected(limits, s.history, x) && s.history != [];
    }
    assert x in e;
    if |e| > limits.maxEntries {
      EvictSparesProtected(limits, s'.history, now, e, s'.entries, x);
    }
  }

  lemma BlockKeepsInv(limits: Limits, s: State, id: string, now: Time, s': State)
    requires Inv(limits, s) && Block(limits, s, id, now, s')
    ensures Inv(limits, s')
  {
    if id != "" {
      BlockEntries(limits, s, id, now, s');
      if s'.timely {
        forall x | Protected(limits, s'.history, x) && now < LastBlock(s'.history, x).value + limits.ttl
          ensures x in s'.entries
        {
          BlockKeepsProtected(limits, s, id, now, s', x);
        }
      }
    }
  }

  lemma BlockedKeepsInv(limits: Limits, s: State, id: string, now: Time)
    requires Inv(limits, s)
    ensures Inv(limits, Blocked(s, id, now).0)
  {
    hide OthersSince, KeptEntries;
  }

  /** What a look-up answers.  Yes only within the TTL of the last block, for any clock;
      and with calls in order, yes for every unexpired protected id. */
  lemma BlockedIsRight(limits: Limits, s: State, id: string, now: Time)
    requires Inv(limits, s)
    ensures Blocked(s, id, now).1 ==>
                LastBlock(s.history, id).Some? && now < LastBlock(s.history, id).value + limits.ttl
    ensures id != "" && InOrder(s, now) && Protected(limits, s.history, id) ==>
              (Blocked(s, id, now).1 <==> now < LastBlock(s.history, id).value + limits.ttl)
  {
  }

  // ----- what eviction by number may take, for any clock -----

  /** The other unexpired entries that expire no earlier than `id`. */
  function NoEarlier(live: map<string, Time>, id: string): set<string>
    requires id in live
  {
    set k | k in live && k != id && live[id] <= live[k]
  }

  /** No entry outside `top` expires later than one inside. */
  ghost predicate UpperSet(live: map<string, Time>, top: set<string>) {
    top <= live.Keys && forall r, k :: r in live && r !in top && k in top ==> live[r] <= live[k]
  }

  lemma {:induction false} Earliest(live: map<string, Time>, top: set<string>) returns (m: string)
    requires top <= live.Keys && top != {}
    ensures m in top && forall k :: k in top ==> live[m] <= live[k]
  {
    m :| m in top;
    if top - {m} != {} {
      var rest := Earliest(live, top - {m});
      if live[rest] < live[m] { m := rest; }
    }
  }

  /** An upper set can be narrowed, earliest first, to any smaller size. */
  lemma {:induction false} Narrow(live: map<string, Time>, top: set<string>, size: nat) returns (kept: set<string>)
    requires UpperSet(live, top) && size <= |top|
    ensures kept <= top && UpperSet(live, kept) && |kept| == size
    decreases |top|
  {
    kept := top;
    if |top| > size {
      var m := Earliest(live, top);
      kept := Narrow(live, top - {m}, size);
    }
  }

  /** When at least `KeptEntries` others expire no earlier, some eviction takes the id. */
  lemma EvictionCanTake(limits: Limits, now: Time, e: map<string, Time>, id: string) returns (e': map<string, Time>)
    requires id in Unexpired(e, now) && |Unexpired(e, now)| > limits.maxEntries
    requires |NoEarlier(Unexpired(e, now), id)| >= KeptEntries(limits.maxEntries)
    ensures Evict(limits, now, e, e') && id !in e'
  {
    var live := Unexpired(e, now);
    var kept := Narrow(live, NoEarlier(live, id), KeptEntries(limits.maxEntries));
    e' := map k | k in kept :: live[k];
    assert e'.Keys == kept;
  }

  /** One eviction: what has expired goes and nothing else, unless that leaves too many; then
      floor(8 * max / 10) stay, none that expires before one that goes. */
  lemma EvictionRule(limits: Limits, now: Time, e: map<string, Time>, e': map<string, Time>)
    requires Evict(limits, now, e, e')
    ensures forall id :: id in e' ==> id in e && e'[id] == e[id] && now < e[id]
    ensures var live := set id | id in e && now < e[id];
            if |live| <= limits.maxEntries then e'.Keys == live
            else
              && 10 * |e'| <= 8 * limits.maxEntries < 10 * (|e'| + 1)
              && forall r, k :: r in live && r !in e' && k in e' ==> e[r] <= e[k]
  {
    assert (set id | id in e && now < e[id]) == Unexpired(e, now).Keys;
  }

  /** A Block enters the id for the TTL and takes nothing away, unless that makes more entries
      than the limit; then one eviction follows. */
  lemma BlockRule(limits: Limits, s: State, id: string, now: Time, s': State)
    requires Block(limits, s, id, now, s') && id != ""
    ensures var e := s.entries[id := now + limits.ttl];
            if |s.entries.Keys + {id}| <= limits.maxEntries then s'.entries == e else Evict(limits, now, e, s'.entries)
    ensures s'.history == s.history + [Hit(id, now)]
  {
    assert s.entries[id := now + limits.ttl].Keys == s.entries.Keys + {id};
  }

  /** The empty id is never entered and never blocked. */
  lemma EmptyIdIsIgnored(limits: Limits, s: State, now: Time, s': State)
    requires Block(limits, s, "", now, s')
    ensures s' == s && Blocked(s, "", now) == (s, false)
  {
  }

  /** Whatever the clock did: an unexpired id is sure to survive an eviction exactly when
      nothing has to go by number, or fewer than floor(8 * max / 10) others expire no earlier. */
  lemma SurvivesEveryEviction(limits: Limits, now: Time, e: map<string, Time>, id: string)
    requires id in e && now < e[id]
    ensures (forall e' :: Evict(limits, now, e, e') ==> id in e')
       <==> (|set k | k in e && now < e[k]| <= limits.maxEntries
             || 10 * (|set k | k in e && now < e[k] && k != id && e[id] <= e[k]| + 1) <= 8 * limits.maxEntries)
  {
    var live := Unexpired(e, now);
    assert (set k | k in e && now < e[k]) == live.Keys;
    assert (set k | k in e && now < e[k] && k != id && e[id] <= e[k]) == NoEarlier(live, id);
    KeptEntriesIs(limits.maxEntries);
    hide KeptEntries;
    if |live| > limits.maxEntries {
      if |NoEarlier(live, id)| >= KeptEntries(limits.maxEntries) {
        var e' := EvictionCanTake(limits, now, e, id);
      } else {
        forall e' | Evict(limits, now, e, e') ensures id in e' {
          if id !in e' { SubsetSize(e'.Keys, NoEarlier(live, id)); }
        }
      }
    }
  }

  /** Blocks of one instant, from the start: the id blocked last is gone at once, though
      it has the whole TTL before it. */
  lemma TieCanEvictNewest(limits: Limits, now: Time) returns (s1: State, s2: State, s3: State)
    requires limits.ttl > 0 && limits.maxEntries == 2
    ensures Block(limits, Start(), "a", now, s1) && Block(limits, s1, "b", now, s2) && Block(limits, s2, "c", now, s3)
    ensures s3.history[|s3.history| - 1] == Hit("c", now) && "c" !in s3.entries && !Blocked(s3, "c", now).1
  {
    var t := now + limits.ttl;
    s1 := State(map["a" := t], [Hit("a", now)], Some(now), true);
    s2 := State(map["a" := t, "b" := t], [Hit("a", now), Hit("b", now)], Some(now), false);
    s3 := State(map["a" := t], [Hit("a", now), Hit("b", now), Hit("c", now)], Some(now), false);
    assert |map["a" := t].Keys| == 1;
    assert s2.entries.Keys == {"a", "b"};
    var e := s2.entries["c" := t];
    assert e.Keys == {"a", "b", "c"};
    assert Unexpired(e, now) == e;
  }
}
