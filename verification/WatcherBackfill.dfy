/** The backfill part of the watcher, in place.  Each method is one atomic step: a locked
    section, or one call of the aggregator.  BackfillModel.dfy proves what holds under
    every interleaving of these steps. */
module WatcherBackfill {
  import opened Base
  import opened BackfillModel
  import A = AggregatorModel
  import opened Aggregators

  ghost function Longest(window: seq<int>): int
    requires window != []
  {
    if |window| == 1 then window[0] else Max(Longest(window[..|window| - 1]), window[|window| - 1])
  }

  /** The longest disconnect is one of them, and none is longer. */
  lemma {:induction false} LongestIsMaximum(window: seq<int>)
    requires window != []
    ensures Longest(window) in window && forall d :: d in window ==> d <= Longest(window)
  {
    if |window| > 1 {
      var init, last := window[..|window| - 1], window[|window| - 1];
      assert window == init + [last];
      LongestIsMaximum(init);
    }
  }

  class Watcher {
    const controller: Aggregator
    var activeStreamBackfills: int
    var backfillStartedAt: Time
    var backfillMaxDisconnect: int

    // Phases of the states begun, the state each stream holds, and the disconnect
    // times of the states begun since the counter last left 0.
    ghost var phases: map<nat, Phase>
    ghost var held: map<nat, nat>
    ghost var window: seq<int>

    ghost function System(): System
      reads this, controller`activeBackfills
    {
      BackfillModel.System(activeStreamBackfills, controller.activeBackfills, phases, held)
    }

    ghost predicate Valid()
      reads this, controller`activeBackfills
    {
      && Inv(System())
      && (activeStreamBackfills > 0 ==> window != [] && backfillMaxDisconnect == Longest(window))
    }

    constructor (controller: Aggregator)
      requires controller.activeBackfills == 0
      ensures Valid() && System() == Start() && this.controller == controller
    {
      this.controller := controller;
      activeStreamBackfills, backfillStartedAt, backfillMaxDisconnect := 0, ZERO_TIME, 0;
      phases, held, window := map[], map[], [];
    }

    method BeginLocked(stream: nat, ghost id: nat, disconnectedFor: int, reconnectAt: Time) returns (isFirst: bool)
      requires Valid() && Enabled(true, System(), Begin(stream, id))
      modifies this
      ensures Valid() && System() == Apply(old(System()), Begin(stream, id))
      ensures isFirst <==> phases[id] == Entering
      ensures window == (if isFirst then [disconnectedFor] else old(window) + [disconnectedFor])
      ensures backfillStartedAt == if isFirst then reconnectAt else old(backfillStartedAt)
    {
      hide Inv;
      StepKeepsInv(true, System(), Begin(stream, id));
      activeStreamBackfills := activeStreamBackfills + 1;
      isFirst := activeStreamBackfills == 1;
      if isFirst {
        backfillStartedAt := reconnectAt;
        backfillMaxDisconnect := disconnectedFor;
        window := [disconnectedFor];
      } else {
        if disconnectedFor > backfillMaxDisconnect {
          backfillMaxDisconnect := disconnectedFor;
        }
        window := window + [disconnectedFor];
        assert window[..|window| - 1] == old(window);
      }
      phases, held := phases[id := if isFirst then Entering else Open], held[stream := id];
    }

    method CallEnter(ghost id: nat)
      requires Valid() && controller.Valid() && Enabled(true, System(), EnterCall(id))
      modifies this`phases, controller
      ensures Valid() && controller.Valid() && System() == Apply(old(System()), EnterCall(id))
      ensures controller.State() == A.EnterBackfill(old(controller.State()))
    {
      hide Inv, A.Inv, Aggregator.Groups, Aggregator.Distinct;
      StepKeepsInv(true, System(), EnterCall(id));
      controller.EnterBackfill();
      phases := phases[id := Open];
    }

    /** What the last to leave reports: the longest disconnect of the window. */
    method EndLocked(ghost id: nat) returns (last: bool, maxDisconnect: int, startedAt: Time)
      requires Valid() && id in phases && phases[id] == Open
      modifies this
      ensures Valid() && System() == BackfillModel.EndLocked(old(System()), id)
      ensures last <==> phases[id] == Exiting
      ensures window == old(window)
      ensures backfillStartedAt == if last then ZERO_TIME else old(backfillStartedAt)
      ensures backfillMaxDisconnect == if last then 0 else old(backfillMaxDisconnect)
      ensures old(window) != [] && maxDisconnect == Longest(old(window)) && startedAt == old(backfillStartedAt)
    {
      hide Inv;
      EndKeepsInv(System(), id);
      if activeStreamBackfills > 0 {
        activeStreamBackfills := activeStreamBackfills - 1;
      }
      last := activeStreamBackfills == 0;
      maxDisconnect, startedAt := backfillMaxDisconnect, backfillStartedAt;
      if last {
        backfillStartedAt, backfillMaxDisconnect := ZERO_TIME, 0;
      }
      phases := phases[id := if last then Exiting else Done];
    }

    /** The Exit never takes the underflow branch of the aggregator. */
    method CallExit(ghost id: nat) returns (alerts: int)
      requires Valid() && controller.Valid() && Enabled(true, System(), ExitCall(id))
      modifies this`phases, controller
      ensures Valid() && controller.Valid() && System() == Apply(old(System()), ExitCall(id))
      ensures (controller.State(), alerts) == A.ExitBackfill(old(controller.State()))
      ensures controller.activeBackfills == old(controller.activeBackfills) - 1
    {
      hide Inv, A.Inv, Aggregator.Groups, Aggregator.Distinct;
      PhasesAreCounted(System(), id);
      StepKeepsInv(true, System(), ExitCall(id));
      alerts := controller.ExitBackfill();
      phases := phases[id := Done];
    }
  }
}
