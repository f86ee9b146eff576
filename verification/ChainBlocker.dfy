/** The chain blocker and the parser that uses it, in place. */
module ChainBlockers {
  import opened Base
  import opened Sorting
  import opened M = ChainModel
  import opened ParserModel

  const CHAIN_BLOCKER_MAX_ENTRIES: nat := 100_000

  class ChainBlocker {
    const ttl: int
    const maxEntries: nat
    var entries: map<string, Time>

    ghost var history: seq<Hit>
    ghost var clock: Option<Time>
    ghost var timely: bool

    ghost function Limits(): Limits {
      M.Limits(ttl, maxEntries)
    }

    ghost function State(): State
      reads this
    {
      M.State(entries, history, clock, timely)
    }

    ghost predicate Valid()
      reads this
    {
      ttl > 0 && maxEntries > 0 && Inv(Limits(), State())
    }

    constructor (ttl: int, maxEntries: int)
      requires ttl > 0
      ensures Valid() && State() == Start() && this.ttl == ttl
      ensures this.maxEntries == if maxEntries <= 0 then CHAIN_BLOCKER_MAX_ENTRIES else maxEntries
    {
      this.ttl := ttl;
      this.maxEntries := if maxEntries <= 0 then CHAIN_BLOCKER_MAX_ENTRIES else maxEntries;
      entries := map[];
      history, clock, timely := [], None, true;
    }

    method Block(logID: string, now: Time)
      requires Valid()
      modifies this
      ensures Valid() && M.Block(Limits(), old(State()), logID, now, State())
    {
      hide Inv, Evict;
      if logID == "" {
        return;
      }
      ghost var s := State();
      timely := InOrder(s, now) && AfterBlocks(s, now);
      history, clock := history + [Hit(logID, now)], Some(now);
      entries := entries[logID := now + ttl];
      if |entries| > maxEntries {
        EvictLocked(now);
      }
      BlockKeepsInv(Limits(), s, logID, now, State());
    }

    method Blocked(logID: string, now: Time) returns (blocked: bool)
      requires Valid()
      modifies this
      ensures Valid() && (State(), blocked) == M.Blocked(old(State()), logID, now)
      ensures blocked ==> LastBlock(history, logID).Some? && now < LastBlock(history, logID).value + ttl
      ensures timely && logID != "" && Protected(Limits(), history, logID) ==>
                (blocked <==> now < LastBlock(history, logID).value + ttl)
    {
      hide Inv;
      ghost var s := State();
      BlockedKeepsInv(Limits(), s, logID, now);
      BlockedIsRight(Limits(), s, logID, now);
      if logID == "" {
        return false;
      }
      timely, clock := InOrder(s, now), Some(now);
      if logID !in entries {
        return false;
      }
      var expireAt := entries[logID];
      if expireAt <= now {
        entries := entries - {logID};
        return false;
      }
      return true;
    }

    method EvictLocked(now: Time)
      modifies this`entries
      ensures Evict(Limits(), now, old(entries), entries)
    {
      DropExpired(now);
      if |entries| <= maxEntries {
        return;
      }
      var items := Items();
      var sorted := SortByStamp(items);
      EnumeratesSorted(items, sorted, entries);
      var target := maxEntries * 8 / 10;
      DropOldest(sorted, target);
    }

    method DropExpired(now: Time)
      modifies this`entries
      ensures entries == Unexpired(old(entries), now)
    {
      var todo := entries.Keys;
      while todo != {}
        invariant todo <= entries.Keys <= old(entries).Keys
        invariant forall id :: id in entries ==> entries[id] == old(entries)[id]
        invariant forall id :: id in old(entries) ==> (id in entries <==> id in todo || now < old(entries)[id])
        decreases todo
      {
        var id :| id in todo;
        todo := todo - {id};
        if entries[id] <= now {
          entries := entries - {id};
        }
      }
    }

    method Items() returns (items: seq<Stamped>)
      ensures Enumerates(items, entries)
    {
      hide Enumerates;
      items := [];
      var todo := entries.Keys;
      EnumeratesNothing(entries - todo);
      while todo != {}
        invariant todo <= entries.Keys && Enumerates(items, entries - todo)
        decreases todo
      {
        var id :| id in todo;
        EnumeratesOneMore(items, entries, todo, id);
        items := items + [Stamped(id, entries[id])];
        todo := todo - {id};
      }
      assert entries - todo == entries;
    }

    method DropOldest(sorted: seq<Stamped>, target: nat)
      requires Enumerates(sorted, entries) && SortedByStamp(sorted) && target <= |entries|
      modifies this`entries
      ensures entries.Keys <= old(entries).Keys && |entries| == target
      ensures forall id :: id in entries ==> entries[id] == old(entries)[id]
      ensures forall r, k :: r in old(entries) && r !in entries && k in entries ==> old(entries)[r] <= entries[k]
    {
      hide Enumerates, SortedByStamp;
      ghost var e := entries;
      WithoutNone(e, sorted);
      var i := 0;
      while i < |sorted| && |entries| > target
        invariant Without(e, entries, sorted, i) && |entries| >= target
      {
        WithoutOneMore(e, entries, sorted, i);
        entries := entries - {sorted[i].key};
        i := i + 1;
      }
      if i == |sorted| { WithoutAll(e, entries, sorted); }
      OldestGone(e, entries, sorted, i);
    }
  }

  /** `nil` when the TTL disables the filter; every call on it then does nothing. */
  method NewChainBlocker(ttl: int, maxEntries: int) returns (b: ChainBlocker?)
    ensures b == null <==> ttl <= 0
    ensures b != null ==> fresh(b) && b.Valid() && b.State() == Start() && b.ttl == ttl
                          && b.maxEntries == (if maxEntries <= 0 then 100_000 else maxEntries)
  {
    b := null;
    if ttl > 0 {
      b := new ChainBlocker(ttl, maxEntries);
    }
  }

  /** The decision part of Parse; a missing blocker blocks nothing. */
  method Parse(unknownLogID: string, blocker: ChainBlocker?, f: Facts, now: Time) returns (event: Option<Parsed>)
    requires blocker != null ==> blocker.Valid()
    modifies blocker
    ensures blocker != null ==>
              && blocker.Valid()
              && ParseStep(blocker.Limits(), unknownLogID, old(blocker.State()), f, now, blocker.State(), event)
    ensures blocker == null ==>
              forall id :: IsLogID(unknownLogID, f, id) ==> Decides(unknownLogID, f, id, false, event)
  {
    hide Inv, M.Block;
    if f.blank {
      return None;
    }
    var logID, level, alert := unknownLogID, "", false;
    if f.json {
      if f.jsonLevel.Some? {
        level, alert := f.jsonLevel.value, true;
      }
      if f.jsonLogID.Some? {
        logID := f.jsonLogID.value;
      }
    }
    if level == "" && f.textLevel.Some? {
      level, alert := f.textLevel.value, true;
    }
    if logID == unknownLogID {
      if f.messageLogID.Some? {
        logID := f.messageLogID.value;
      } else if f.lineLogID.Some? {
        logID := f.lineLogID.value;
      }
    }
    if Excluded(f) {
      if logID != unknownLogID && blocker != null {
        blocker.Block(logID, now);
      }
      return None;
    }
    if logID != unknownLogID && blocker != null {
      var blocked := blocker.Blocked(logID, now);
      if blocked {
        return None;
      }
    }
    if !alert && logID == unknownLogID {
      return None;
    }
    return Some(Parsed(logID, level, alert));
  }
}
