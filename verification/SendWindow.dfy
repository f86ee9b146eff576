/** The send window of the DingTalk sink: waits are serialised, rate-limit notes are not,
    so a note can fall between the start and the end of a wait. */
module SendWindow {
  import opened Base

  /** What the timing depends on, and the grants so far. */
  datatype Timing = Timing(nextSendAt: Time, blockedUntil: Time, waiting: Option<Time>, grants: seq<Time>)

  datatype Config = Config(sendInterval: int, rateLimitBackoff: int)

  /** A wait reads its deadline, then is granted at or after it, or is cancelled. */
  datatype Step = Begin(now: Time) | Grant(now: Time) | Cancel(now: Time) | Note(now: Time)

  function Start(): Timing {
    Timing(ZERO_TIME, ZERO_TIME, None, [])
  }

  predicate Enabled(s: Timing, step: Step) {
    match step
    case Begin(now) => s.waiting == None
    case Grant(now) => s.waiting.Some? && s.waiting.value <= now
    case Cancel(now) => s.waiting.Some?
    case Note(now) => true
  }

  function Apply(cfg: Config, s: Timing, step: Step): Timing {
    match step
    case Begin(now) => s.(waiting := Some(Max(s.nextSendAt, s.blockedUntil)))
    case Grant(now) => s.(waiting := None, grants := s.grants + [now],
                          nextSendAt := if cfg.sendInterval > 0 then now + cfg.sendInterval else s.nextSendAt)
    case Cancel(now) => s.(waiting := None)
    case Note(now) =>
      if cfg.rateLimitBackoff <= 0 then s
      else s.(blockedUntil := Max(s.blockedUntil, now + cfg.rateLimitBackoff))
  }

  predicate IsRun(cfg: Config, steps: seq<Step>, states: seq<Timing>) {
    && |states| == |steps| + 1 && states[0] == Start()
    && (forall i :: 0 <= i < |steps| ==>
            Enabled(states[i], steps[i]) && states[i + 1] == Apply(cfg, states[i], steps[i]))
    && forall i, j :: 0 <= i < j < |steps| ==> steps[i].now <= steps[j].now
  }

  ghost predicate Spaced(cfg: Config, grants: seq<Time>) {
    forall i :: 0 <= i < |grants| - 1 ==> grants[i] + cfg.sendInterval <= grants[i + 1]
  }

  ghost predicate Inv(cfg: Config, s: Timing) {
    cfg.sendInterval > 0 ==>
      && Spaced(cfg, s.grants)
      && (s.grants != [] ==> s.nextSendAt == s.grants[|s.grants| - 1] + cfg.sendInterval)
      && (s.waiting.Some? ==> s.nextSendAt <= s.waiting.value)
  }

  lemma StepKeepsInv(cfg: Config, s: Timing, step: Step)
    requires Inv(cfg, s) && Enabled(s, step)
    ensures Inv(cfg, Apply(cfg, s, step))
  {
  }

  lemma {:induction false} RunKeepsInv(cfg: Config, steps: seq<Step>, states: seq<Timing>, n: nat)
    requires IsRun(cfg, steps, states) && n <= |steps|
    ensures Inv(cfg, states[n])
  {
    if n > 0 {
      RunKeepsInv(cfg, steps, states, n - 1);
      StepKeepsInv(cfg, states[n - 1], steps[n - 1]);
    }
  }

  lemma {:induction false} SpacedSpan(cfg: Config, grants: seq<Time>, i: nat, k: nat)
    requires Spaced(cfg, grants) && i + k < |grants|
    ensures grants[i] + k * cfg.sendInterval <= grants[i + k]
  {
    if k > 0 {
      SpacedSpan(cfg, grants, i, k - 1);
      assert grants[i + k - 1] + cfg.sendInterval <= grants[i + k];
      assert k * cfg.sendInterval == (k - 1) * cfg.sendInterval + cfg.sendInterval;
    }
  }

  /** Rate.  In every run, cancelled waits included, the i-th and (i+k)-th grants are at
      least k intervals apart. */
  lemma GrantsAreSpaced(cfg: Config, steps: seq<Step>, states: seq<Timing>, n: nat, i: nat, k: nat)
    requires IsRun(cfg, steps, states) && n <= |steps| && cfg.sendInterval > 0
    requires i + k < |states[n].grants|
    ensures states[n].grants[i] + k * cfg.sendInterval <= states[n].grants[i + k]
  {
    RunKeepsInv(cfg, steps, states, n);
    SpacedSpan(cfg, states[n].grants, i, k);
  }

  /** At the default interval of four seconds a half-open minute holds at most 15 grants. */
  lemma FifteenAMinute(cfg: Config, steps: seq<Step>, states: seq<Timing>, n: nat, start: Time, i: nat, count: nat)
    requires IsRun(cfg, steps, states) && n <= |steps| && cfg.sendInterval == 4 * SECOND
    requires i + count <= |states[n].grants|
    requires forall j :: i <= j < i + count ==> start <= states[n].grants[j] < start + 60 * SECOND
    ensures count <= 15
  {
    if count > 15 {
      GrantsAreSpaced(cfg, steps, states, n, i, 15);
    }
  }

  lemma {:induction false} BlockedStays(cfg: Config, steps: seq<Step>, states: seq<Timing>, m: nat, n: nat)
    requires IsRun(cfg, steps, states) && m <= n <= |steps|
    ensures states[m].blockedUntil <= states[n].blockedUntil
  {
    if m < n {
      BlockedStays(cfg, steps, states, m, n - 1);
      assert states[n] == Apply(cfg, states[n - 1], steps[n - 1]);
    }
  }

  lemma {:induction false} DeadlineStays(cfg: Config, steps: seq<Step>, states: seq<Timing>, b: nat, n: nat)
    requires IsRun(cfg, steps, states) && b < n <= |steps| && steps[b].Begin?
    requires forall j :: b < j < n ==> steps[j].Note?
    ensures states[n].waiting == Some(Max(states[b].nextSendAt, states[b].blockedUntil))
  {
    assert states[n] == Apply(cfg, states[n - 1], steps[n - 1]);
    if n > b + 1 {
      DeadlineStays(cfg, steps, states, b, n - 1);
    }
  }

  /** Cooldown.  A wait that begins after a rate-limit note is not granted before the
      cooldown of that note ends. */
  lemma CooldownIsKept(cfg: Config, steps: seq<Step>, states: seq<Timing>, m: nat, b: nat, g: nat)
    requires IsRun(cfg, steps, states) && cfg.rateLimitBackoff > 0 && m < b < g < |steps|
    requires steps[m].Note? && steps[b].Begin? && steps[g].Grant? && forall j :: b < j < g ==> steps[j].Note?
    ensures steps[m].now + cfg.rateLimitBackoff <= steps[g].now
  {
    assert states[m + 1] == Apply(cfg, states[m], steps[m]);
    BlockedStays(cfg, steps, states, m + 1, b);
    DeadlineStays(cfg, steps, states, b, g);
    assert Enabled(states[g], steps[g]);
  }

  /** Every note between the start of a wait at `b` and step `n` ends by `t`. */
  predicate NotesEndBy(cfg: Config, steps: seq<Step>, b: nat, n: nat, t: Time)
    requires n <= |steps|
  {
    cfg.rateLimitBackoff <= 0 || forall j :: b < j < n && steps[j].Note? ==> steps[j].now + cfg.rateLimitBackoff <= t
  }

  /** What the deadline of a wait covers: the cooldowns noted when it began, and of those
      noted since exactly the ones that end by then. */
  lemma {:induction false} DeadlineCovers(cfg: Config, steps: seq<Step>, states: seq<Timing>, b: nat, n: nat, t: Time)
    requires IsRun(cfg, steps, states) && b < n <= |steps| && steps[b].Begin?
    requires forall j :: b < j < n ==> steps[j].Note?
    requires states[b].blockedUntil <= t
    ensures states[n].blockedUntil <= t <==> NotesEndBy(cfg, steps, b, n, t)
  {
    assert states[n] == Apply(cfg, states[n - 1], steps[n - 1]);
    if n > b + 1 {
      DeadlineCovers(cfg, steps, states, b, n - 1, t);
    }
  }

  /** When no grant comes before a noted cooldown ends: a wait is sure not to be granted
      early exactly when every note during it ends by its deadline; and the grant it gets
      is not early exactly when every such note ends by the time of the grant. */
  lemma GrantRespectsCooldowns(cfg: Config, steps: seq<Step>, states: seq<Timing>, b: nat, g: nat)
    requires IsRun(cfg, steps, states) && b < g < |steps|
    requires steps[b].Begin? && steps[g].Grant? && forall j :: b < j < g ==> steps[j].Note?
    ensures states[g].waiting.Some?
    ensures states[g].blockedUntil <= states[g].waiting.value <==> NotesEndBy(cfg, steps, b, g, states[g].waiting.value)
    ensures states[g].blockedUntil <= steps[g].now <==> NotesEndBy(cfg, steps, b, g, steps[g].now)
  {
    DeadlineStays(cfg, steps, states, b, g);
    assert Enabled(states[g], steps[g]);
    DeadlineCovers(cfg, steps, states, b, g, states[g].waiting.value);
    DeadlineCovers(cfg, steps, states, b, g, steps[g].now);
  }

  function GrantTimes(steps: seq<Step>): seq<Time> {
    if steps == [] then []
    else GrantTimes(steps[..|steps| - 1]) + if steps[|steps| - 1].Grant? then [steps[|steps| - 1].now] else []
  }

  /** `grants` are the times of the grants, in order. */
  lemma {:induction false} GrantsAreRecorded(cfg: Config, steps: seq<Step>, states: seq<Timing>, n: nat)
    requires IsRun(cfg, steps, states) && n <= |steps|
    ensures states[n].grants == GrantTimes(steps[..n])
  {
    if n > 0 {
      GrantsAreRecorded(cfg, steps, states, n - 1);
      assert steps[..n][..n - 1] == steps[..n - 1];
      assert states[n] == Apply(cfg, states[n - 1], steps[n - 1]);
    }
  }

  /** Everything before step `n` that a wait has to keep away from is over by `t`: an
      interval after each grant, a cooldown after each note. */
  predicate AllOverBy(cfg: Config, steps: seq<Step>, n: nat, t: Time)
    requires n <= |steps|
  {
    && 0 <= t
    && (forall j :: 0 <= j < n && steps[j].Grant? && cfg.sendInterval > 0 ==> steps[j].now + cfg.sendInterval <= t)
    && (forall j :: 0 <= j < n && steps[j].Note? && cfg.rateLimitBackoff > 0 ==>
          steps[j].now + cfg.rateLimitBackoff <= t)
  }

  lemma {:induction false} TimesCover(cfg: Config, steps: seq<Step>, states: seq<Timing>, n: nat, t: Time)
    requires IsRun(cfg, steps, states) && n <= |steps|
    ensures Max(states[n].nextSendAt, states[n].blockedUntil) <= t <==> AllOverBy(cfg, steps, n, t)
  {
    if n > 0 {
      TimesCover(cfg, steps, states, n - 1, t);
      var last := steps[n - 1];
      assert states[n] == Apply(cfg, states[n - 1], last);
      BlockedStays(cfg, steps, states, 0, n - 1);
      if last.Grant? && cfg.sendInterval > 0 {
        LastGrantIsLatest(cfg, steps, states, n - 1);
      }
    }
  }

  lemma {:induction false} LastGrantIsLatest(cfg: Config, steps: seq<Step>, states: seq<Timing>, n: nat)
    requires IsRun(cfg, steps, states) && n < |steps| && cfg.sendInterval > 0
    ensures states[n].nextSendAt == ZERO_TIME || states[n].nextSendAt <= steps[n].now + cfg.sendInterval
  {
    if n > 0 {
      LastGrantIsLatest(cfg, steps, states, n - 1);
      assert states[n] == Apply(cfg, states[n - 1], steps[n - 1]);
    }
  }

  /** The deadline of a wait is the earliest time it can be: a time is not before it exactly
      when every interval and every cooldown from before the wait is over by then. */
  lemma DeadlineIsEarliest(cfg: Config, steps: seq<Step>, states: seq<Timing>, b: nat, t: Time)
    requires IsRun(cfg, steps, states) && b < |steps| && steps[b].Begin?
    ensures states[b + 1].waiting.Some?
    ensures states[b + 1].waiting.value <= t <==> AllOverBy(cfg, steps, b, t)
  {
    TimesCover(cfg, steps, states, b, t);
    assert states[b + 1] == Apply(cfg, states[b], steps[b]);
  }

  /** A note that arrives during a wait does not hold that wait back. */
  lemma NoteDuringWaitIsMissed(cfg: Config, t: Time) returns (steps: seq<Step>, states: seq<Timing>)
    requires cfg.rateLimitBackoff > 0 && t >= 0
    ensures IsRun(cfg, steps, states) && steps == [Begin(t), Note(t), Grant(t)]
    ensures states[3].grants == [t] && t < t + cfg.rateLimitBackoff == states[2].blockedUntil
  {
    steps := [Begin(t), Note(t), Grant(t)];
    var s1 := Apply(cfg, Start(), steps[0]);
    var s2 := Apply(cfg, s1, steps[1]);
    states := [Start(), s1, s2, Apply(cfg, s2, steps[2])];
  }

  // ----- in place -----

  class DingTalkStore {
    const cfg: Config
    var nextSendAt: Time
    var blockedUntil: Time

    // The deadline of the wait that holds the send lock, and the windows granted.
    ghost var waiting: Option<Time>
    ghost var grants: seq<Time>

    ghost function State(): Timing
      reads this
    {
      Timing(nextSendAt, blockedUntil, waiting, grants)
    }

    ghost predicate Valid()
      reads this
    {
      Inv(cfg, State())
    }

    constructor (sendInterval: int, rateLimitBackoff: int)
      ensures Valid() && State() == Start() && cfg == Config(sendInterval, rateLimitBackoff)
    {
      cfg := Config(sendInterval, rateLimitBackoff);
      nextSendAt, blockedUntil := ZERO_TIME, ZERO_TIME;
      waiting, grants := None, [];
    }

    /** The start of a wait, up to the timer. */
    method BeginWait(ghost now: Time) returns (waitUntil: Time)
      requires Valid() && waiting == None
      modifies this`waiting
      ensures Valid() && State() == Apply(cfg, old(State()), Begin(now)) && waiting == Some(waitUntil)
    {
      waitUntil := nextSendAt;
      if blockedUntil > waitUntil {
        waitUntil := blockedUntil;
      }
      waiting := Some(waitUntil);
    }

    /** The end of a wait: the context was cancelled, or the timer fired. */
    method EndWait(now: Time, cancelled: bool) returns (granted: bool)
      requires Valid() && waiting.Some? && (!cancelled ==> waiting.value <= now)
      modifies this`nextSendAt, this`waiting, this`grants
      ensures granted == !cancelled
      ensures Valid() && State() == Apply(cfg, old(State()), if cancelled then Cancel(now) else Grant(now))
    {
      waiting := None;
      if cancelled {
        return false;
      }
      grants := grants + [now];
      if cfg.sendInterval > 0 {
        nextSendAt := now + cfg.sendInterval;
      }
      return true;
    }

    method NoteRateLimit(now: Time)
      requires Valid()
      modifies this`blockedUntil
      ensures Valid() && State() == Apply(cfg, old(State()), Note(now))
    {
      if cfg.rateLimitBackoff <= 0 {
        return;
      }
      var until := now + cfg.rateLimitBackoff;
      if until > blockedUntil {
        blockedUntil := until;
      }
    }
  }
}
