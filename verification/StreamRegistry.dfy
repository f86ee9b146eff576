/** The registry of log streams, in place: the maps `active` and `ids` under one lock.
    Each method is a step of StreamRegistryModel.dfy. */
module StreamRegistry {
  import opened Base
  import opened M = StreamRegistryModel

  class Registry {
    var active: map<string, ActiveStream>
    var ids: map<string, string>

    ghost var streams: map<nat, Stream>
    ghost var running: set<nat>
    ghost var cancelled: set<nat>

    ghost function State(): State
      reads this
    {
      M.State(active, ids, streams, running, cancelled)
    }

    ghost predicate Valid()
      reads this
    {
      IdsArePointers(State()) && EntriesAreStreams(State())
    }

    constructor ()
      ensures Valid() && State() == Start()
    {
      active, ids := map[], map[];
      streams, running, cancelled := map[], {}, {};
    }

    /** Registers a stream with the given cancel function, unless it is already there;
        the caller cancels the one returned. */
    method Activate(name: string, id: string, cancel: nat) returns (start: bool, cancelPrevious: Option<nat>)
      requires Valid() && cancel !in streams
      modifies this
      ensures Valid() && State() == M.Activate(old(State()), name, id, cancel)
      ensures start <==> !AlreadyActive(old(State()), name, id)
      ensures cancelled == old(cancelled) + if cancelPrevious.Some? then {cancelPrevious.value} else {}
      ensures cancelPrevious.Some? ==> cancelPrevious.value in old(running)
    {
      StepKeepsPointers(State(), ActivateStep(name, id, cancel));
      ActivateKeepsEntries(State(), name, id, cancel);
      hide IdsArePointers;
      cancelPrevious := None;
      if name in active {
        var current := active[name];
        if current.id == id {
          return false, None;
        }
        ids := ids - {current.id};
        cancelPrevious := Some(current.cancel);
      } else if id in ids && ids[id] != name {
        var previousName := ids[id];
        if previousName in active && active[previousName].id == id {
          cancelPrevious := Some(active[previousName].cancel);
          active := active - {previousName};
        }
        ids := ids - {id};
      }
      if cancelPrevious.Some? {
        cancelled := cancelled + {cancelPrevious.value};
      }
      active := active[name := ActiveStream(id, cancel)];
      ids := ids[id := name];
      streams, running := streams[cancel := Stream(name, id)], running + {cancel};
      start := true;
    }

    /** Also covers ids that point nowhere, which no valid registry has. */
    method Stop(id: string) returns (cancel: Option<nat>)
      modifies this
      ensures State() == M.Stop(old(State()), id)
      ensures cancelled == old(cancelled) + if cancel.Some? then {cancel.value} else {}
      ensures old(Valid()) ==> Valid() && (cancel.Some? <==> id in old(ids))
    {
      if Valid() {
        StepKeepsPointers(State(), StopStep(id));
        StepKeepsEntries(State(), StopStep(id));
      }
      if id !in ids {
        return None;
      }
      var name := ids[id];
      if name !in active || active[name].id != id {
        ids := ids - {id};
        return None;
      }
      cancel := Some(active[name].cancel);
      active, ids := active - {name}, ids - {id};
      cancelled := cancelled + {cancel.value};
    }

    /** Visits the entries in any order; both maps end up empty. */
    method StopAll() returns (cancels: seq<nat>)
      requires Valid()
      modifies this`active, this`ids, this`cancelled
      ensures Valid() && State() == M.StopAll(old(State()))
      ensures active == map[] && ids == map[]
      ensures forall c :: c in cancels <==> c in CancelsOf(old(active))
    {
      hide IdsArePointers, EntriesAreStreams;
      cancels := [];
      ghost var s := State();
      ghost var all: set<nat> := {};
      while active != map[]
        invariant ids - IdsOf(active) == s.ids - IdsOf(s.active) && cancelled == s.cancelled
        invariant all + CancelsOf(active) == CancelsOf(s.active) && forall c :: c in all <==> c in cancels
        decreases active.Keys
      {
        var name :| name in active;
        var stream := active[name];
        OneFewer(active, name);
        cancels, all := cancels + [stream.cancel], all + {stream.cancel};
        ids := ids - {stream.id};
        active := active - {name};
      }
      assert IdsOf(map[]) == {} && CancelsOf(map[]) == {};
      cancelled := cancelled + all;
      assert ids - {} == ids;
      assert State() == M.StopAll(s);
      StepKeepsPointers(s, StopAllStep);
      StepKeepsEntries(s, StopAllStep);
      PointersAllGone(s);
    }

    method RemoveActive(name: string, id: string)
      requires Valid()
      modifies this`active, this`ids
      ensures Valid() && State() == M.RemoveActive(old(State()), name, id)
    {
      if name !in active || active[name].id != id {
        return;
      }
      active, ids := active - {name}, ids - {id};
    }
  }
}
