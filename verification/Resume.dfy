/** Log cursors, and what a stream delivers over any sequence of disconnects. */
module Resume {
  import opened Base

  // ----- what Docker serves -----

  /** FormatSince: whole seconds. */
  function FloorSecond(t: Time): Time {
    t - t % SECOND
  }

  /** The timestamps of a container's lines, in the order they are served. */
  ghost predicate InTimeOrder(log: seq<Time>) {
    forall i, j :: 0 <= i < j < |log| ==> log[i] <= log[j]
  }

  /** The first line not before `t`. */
  function FirstAt(log: seq<Time>, t: Time): (n: nat)
    ensures n <= |log|
  {
    if log == [] || log[0] >= t then 0 else 1 + FirstAt(log[1..], t)
  }

  /** Where a stream opened with `since` starts; without one it starts at the beginning. */
  function StartOf(log: seq<Time>, since: Time): (n: nat)
    ensures n <= |log|
  {
    if since == ZERO_TIME then 0 else FirstAt(log, FloorSecond(since))
  }

  lemma {:induction false} FirstAtSplits(log: seq<Time>, t: Time)
    requires InTimeOrder(log)
    ensures forall p :: 0 <= p < |log| ==> (log[p] < t <==> p < FirstAt(log, t))
  {
    if log != [] && log[0] < t {
      FirstAtSplits(log[1..], t);
      forall p | 0 <= p < |log| ensures log[p] < t <==> p < FirstAt(log, t) {
        if p > 0 { assert log[p] == log[1..][p - 1]; }
      }
    }
  }

  lemma StartIsMonotone(log: seq<Time>, a: Time, b: Time)
    requires InTimeOrder(log) && a <= b && (b == ZERO_TIME ==> a == b)
    ensures StartOf(log, a) <= StartOf(log, b)
  {
    if a != ZERO_TIME {
      FirstAtSplits(log, FloorSecond(a));
      FirstAtSplits(log, FloorSecond(b));
      assert FloorSecond(a) <= FloorSecond(b);
      var p := StartOf(log, b);
      assert p < |log| ==> log[p] >= FloorSecond(b);
    }
  }

  /** The start of a stream splits the log at the whole second of its `since`. */
  lemma StartSplits(log: seq<Time>, since: Time)
    requires InTimeOrder(log)
    ensures since == ZERO_TIME ==> StartOf(log, since) == 0
    ensures since != ZERO_TIME ==>
              forall p :: 0 <= p < |log| ==> (p < StartOf(log, since) <==> log[p] < FloorSecond(since))
    ensures FloorSecond(since) <= since < FloorSecond(since) + SECOND && FloorSecond(since) % SECOND == 0
  {
    FirstAtSplits(log, FloorSecond(since));
  }

  // ----- one stream -----

  /** The positions from `a` up to `b`, each once and in order. */
  function Range(a: nat, b: nat): (r: seq<nat>)
    ensures |r| == (if a < b then b - a else 0) && forall i :: 0 <= i < |r| ==> r[i] == a + i
  {
    if b <= a then [] else Range(a, b - 1) + [b - 1]
  }

  function See(lastSeen: Time, t: Time): Time {
    if t != ZERO_TIME && t > lastSeen then t else lastSeen
  }

  /** The last-seen time after the lines from `a` up to `b`. */
  function SeenAfter(log: seq<Time>, seen: Time, a: nat, b: nat): (lastSeen: Time)
    requires b <= |log|
    ensures seen <= lastSeen
  {
    if b <= a then seen else See(SeenAfter(log, seen, a, b - 1), log[b - 1])
  }

  /** It is the latest of `seen` and the timestamps of those lines. */
  lemma {:induction false} SeenAfterIsLatest(log: seq<Time>, seen: Time, a: nat, b: nat)
    requires b <= |log|
    ensures forall p :: a <= p < b && log[p] != ZERO_TIME ==> log[p] <= SeenAfter(log, seen, a, b)
    ensures SeenAfter(log, seen, a, b) == seen
            || exists p :: a <= p < b && log[p] == SeenAfter(log, seen, a, b) && log[p] != ZERO_TIME
  {
    if a < b {
      SeenAfterIsLatest(log, seen, a, b - 1);
    }
  }

  /** Everything from `from` to `upto` has been delivered, and `lastSeen` is up to date. */
  ghost predicate CaughtUp(log: seq<Time>, from: nat, upto: nat, lastSeen: Time) {
    && from <= upto <= |log|
    && from <= StartOf(log, lastSeen) <= upto
    && forall p :: from <= p < upto && log[p] != ZERO_TIME ==> log[p] <= lastSeen
  }

  /** Line `p` arrives, the next one or one seen before. */
  lemma LineArrives(log: seq<Time>, from: nat, upto: nat, lastSeen: Time, p: nat)
    requires InTimeOrder(log) && CaughtUp(log, from, upto, lastSeen) && from <= p <= upto && p < |log|
    ensures CaughtUp(log, from, Max(upto, p + 1), See(lastSeen, log[p]))
  {
    var now := See(lastSeen, log[p]);
    StartIsMonotone(log, lastSeen, now);
    if now != lastSeen {
      FirstAtSplits(log, FloorSecond(now));
      assert FloorSecond(log[p]) <= log[p];
    }
  }

  /** A connection broken before line `end` delivers whatever was missing before it. */
  lemma {:induction false} ConnectionCatchesUp(log: seq<Time>, from: nat, upto: nat, seen: Time, end: nat)
    requires InTimeOrder(log) && CaughtUp(log, from, upto, seen) && end <= |log|
    ensures CaughtUp(log, from, Max(upto, end), SeenAfter(log, seen, StartOf(log, seen), end))
    decreases end
  {
    if end > StartOf(log, seen) {
      ConnectionCatchesUp(log, from, upto, seen, end - 1);
      LineArrives(log, from, Max(upto, end - 1), SeenAfter(log, seen, StartOf(log, seen), end - 1), end - 1);
    }
  }

  /** Of what was delivered before, a stream opened at `since` delivers again only lines
      of that very second (or without a timestamp, if `since` lies before the zero time). */
  lemma RedeliveredInSameSecond(log: seq<Time>, from: nat, upto: nat, since: Time, p: nat)
    requires InTimeOrder(log) && CaughtUp(log, from, upto, since) && since != ZERO_TIME
    requires StartOf(log, since) <= p < upto
    ensures FloorSecond(log[p]) == FloorSecond(since) || (since < ZERO_TIME && log[p] == ZERO_TIME)
  {
    StartSplits(log, since);
    assert FloorSecond(since) <= log[p];
  }

  // ----- a stream over many connections -----

  /** Connection `i` is opened with `sinces[i]` and ends before line `ends[i]`; the next one
      is opened with the time last seen. */
  ghost predicate Reconnects(log: seq<Time>, sinces: seq<Time>, ends: seq<nat>) {
    && |sinces| == |ends| + 1
    && forall i :: 0 <= i < |ends| ==>
        ends[i] <= |log| && sinces[i + 1] == SeenAfter(log, sinces[i], StartOf(log, sinces[i]), ends[i])
  }

  function Furthest(from: nat, ends: seq<nat>): nat {
    if ends == [] then from else Max(Furthest(from, ends[..|ends| - 1]), ends[|ends| - 1])
  }

  lemma {:induction false} FurthestIsMaximum(from: nat, ends: seq<nat>)
    ensures from <= Furthest(from, ends) && forall e :: e in ends ==> e <= Furthest(from, ends)
    ensures Furthest(from, ends) == from || Furthest(from, ends) in ends
  {
    if ends != [] {
      var init, last := ends[..|ends| - 1], ends[|ends| - 1];
      assert ends == init + [last];
      FurthestIsMaximum(from, init);
    }
  }

  lemma {:induction false} RunCatchesUp(log: seq<Time>, sinces: seq<Time>, ends: seq<nat>, n: nat)
    requires InTimeOrder(log) && Reconnects(log, sinces, ends) && n <= |ends|
    ensures var from := StartOf(log, sinces[0]);
            CaughtUp(log, from, Furthest(from, ends[..n]), sinces[n]) && sinces[0] <= sinces[n]
  {
    hide InTimeOrder, CaughtUp;
    var from := StartOf(log, sinces[0]);
    if n == 0 {
      CaughtUpAtStart(log, sinces[0]);
    } else {
      RunCatchesUp(log, sinces, ends, n - 1);
      assert ends[..n][..n - 1] == ends[..n - 1];
      ConnectionCatchesUp(log, from, Furthest(from, ends[..n - 1]), sinces[n - 1], ends[n - 1]);
    }
  }

  lemma CaughtUpAtStart(log: seq<Time>, since: Time)
    ensures CaughtUp(log, StartOf(log, since), StartOf(log, since), since)
  {
  }

  ghost predicate DeliveredBefore(log: seq<Time>, sinces: seq<Time>, ends: seq<nat>, n: nat, p: nat)
    requires |sinces| > |ends| >= n
  {
    exists j :: 0 <= j < n && StartOf(log, sinces[j]) <= p < ends[j]
  }

  /** Nothing is skipped: together the first `n` connections deliver one contiguous range,
      from the start of the first to the furthest line reached. */
  lemma {:induction false} NothingIsSkipped(log: seq<Time>, sinces: seq<Time>, ends: seq<nat>, n: nat, p: nat)
    requires InTimeOrder(log) && Reconnects(log, sinces, ends) && n <= |ends|
    ensures var from := StartOf(log, sinces[0]);
            DeliveredBefore(log, sinces, ends, n, p) <==> from <= p < Furthest(from, ends[..n])
  {
    if n > 0 {
      var m := n - 1;
      var from := StartOf(log, sinces[0]);
      NothingIsSkipped(log, sinces, ends, m, p);
      RunCatchesUp(log, sinces, ends, m);
      assert ends[..n][..m] == ends[..m];
      assert DeliveredBefore(log, sinces, ends, n, p) <==>
          DeliveredBefore(log, sinces, ends, m, p) || StartOf(log, sinces[m]) <= p < ends[m];
    }
  }

  /** Whatever connection `n` delivers again lies within the second it was opened with.
      Only a stream without a since, or with one before the zero time, can repeat more. */
  lemma RepeatsStayInOneSecond(log: seq<Time>, sinces: seq<Time>, ends: seq<nat>, n: nat, p: nat)
    requires InTimeOrder(log) && Reconnects(log, sinces, ends) && n < |ends|
    requires StartOf(log, sinces[n]) <= p < ends[n] && DeliveredBefore(log, sinces, ends, n, p)
    ensures || FloorSecond(log[p]) == FloorSecond(sinces[n])
            || sinces[n] == ZERO_TIME || (sinces[n] < ZERO_TIME && log[p] == ZERO_TIME)
    ensures ZERO_TIME < sinces[0] ==> ZERO_TIME < sinces[n] && FloorSecond(log[p]) == FloorSecond(sinces[n])
  {
    NothingIsSkipped(log, sinces, ends, n, p);
    RunCatchesUp(log, sinces, ends, n);
    var from := StartOf(log, sinces[0]);
    if sinces[n] != ZERO_TIME {
      RedeliveredInSameSecond(log, from, Furthest(from, ends[..n]), sinces[n], p);
    }
  }

  // ----- cursors -----

  predicate IsSpace(c: char) {
    IsSpaceCode(c as int)
  }

  function TrimSpace(s: string): (t: string)
    ensures t != "" ==> !IsSpace(t[0]) && !IsSpace(t[|t| - 1])
  {
    if s != "" && IsSpace(s[0]) then TrimSpace(s[1..])
    else if s != "" && IsSpace(s[|s| - 1]) then TrimSpace(s[..|s| - 1])
    else s
  }

  /** Only white space goes, and only at the two ends. */
  lemma {:induction false} TrimSpaceCutsEnds(s: string) returns (a: string, b: string)
    ensures s == a + TrimSpace(s) + b
    ensures (forall c :: c in a ==> IsSpace(c)) && (forall c :: c in b ==> IsSpace(c))
  {
    if s != "" && IsSpace(s[0]) {
      a, b := TrimSpaceCutsEnds(s[1..]);
      a := [s[0]] + a;
    } else if s != "" && IsSpace(s[|s| - 1]) {
      a, b := TrimSpaceCutsEnds(s[..|s| - 1]);
      b := b + [s[|s| - 1]];
    } else {
      a, b := "", "";
    }
  }

  function CursorKeys(id: string, name: string): (keys: seq<string>)
    ensures forall i, j :: 0 <= i < j < |keys| ==> keys[i] != keys[j]
    ensures forall k :: k in keys <==>
              || (k == "id:" + TrimSpace(id) && TrimSpace(id) != "")
              || (k == "name:" + TrimSpace(name) && TrimSpace(name) != "")
  {
    var i := TrimSpace(id);
    var n := TrimSpace(name);
    assert ("id:" + i)[0] != ("name:" + n)[0];
    (if i != "" then ["id:" + i] else []) + (if n != "" then ["name:" + n] else [])
  }

  function CursorAt(cursors: map<string, Time>, key: string): Time {
    if key in cursors then cursors[key] else ZERO_TIME
  }

  /** An unset cursor, or an earlier one, moves to the timestamp. */
  function Moved(cursor: Time, ours: bool, timestamp: Time): Time {
    if ours && (cursor == ZERO_TIME || timestamp > cursor) then timestamp else cursor
  }

  /** The latest of the base time and the cursors under the keys. */
  function Latest(cursors: map<string, Time>, keys: seq<string>, base: Time): Time {
    if keys == [] then base
    else Max(Latest(cursors, keys[..|keys| - 1], base), CursorAt(cursors, keys[|keys| - 1]))
  }

  lemma {:induction false} LatestBounds(cursors: map<string, Time>, keys: seq<string>, base: Time)
    ensures base <= Latest(cursors, keys, base)
    ensures forall k :: k in keys ==> CursorAt(cursors, k) <= Latest(cursors, keys, base)
    ensures || Latest(cursors, keys, base) == base
            || exists k :: k in keys && CursorAt(cursors, k) == Latest(cursors, keys, base)
  {
    if keys != [] {
      var init := keys[..|keys| - 1];
      assert keys == init + [keys[|keys| - 1]];
      LatestBounds(cursors, init, base);
    }
  }

  lemma {:induction false} LatestIs(cursors: map<string, Time>, keys: seq<string>, base: Time, t: Time)
    requires base <= t && forall k :: k in keys ==> CursorAt(cursors, k) == t
    ensures Latest(cursors, keys, base) == if keys == [] then base else t
  {
    if keys != [] {
      LatestIs(cursors, keys[..|keys| - 1], base, t);
    }
  }

  lemma {:induction false} LatestSame(c1: map<string, Time>, c2: map<string, Time>, keys: seq<string>, base: Time)
    requires forall k :: k in keys ==> CursorAt(c1, k) == CursorAt(c2, k)
    ensures Latest(c1, keys, base) == Latest(c2, keys, base)
  {
    if keys != [] {
      LatestSame(c1, c2, keys[..|keys| - 1], base);
    }
  }

  /** A first stream starts where a stream from the base would exactly when none of the
      lines from there on is older than the second of the cursor it found. */
  lemma CursorSkipsNothing(log: seq<Time>, cursors: map<string, Time>, keys: seq<string>, base: Time)
    requires InTimeOrder(log) && ZERO_TIME < base
    ensures var since := Latest(cursors, keys, base);
            StartOf(log, since) == StartOf(log, base)
            <==> forall p :: StartOf(log, base) <= p < |log| ==> log[p] >= FloorSecond(since)
  {
    var since := Latest(cursors, keys, base);
    LatestBounds(cursors, keys, base);
    StartSplits(log, since);
    StartIsMonotone(log, base, since);
    if StartOf(log, base) < StartOf(log, since) {
      assert log[StartOf(log, base)] < FloorSecond(since);
    }
  }

  /** While the last-seen time moves from `seen` to `lastSeen` the container's cursors
      move with it; if it stands still so do they, and no other key changes. */
  ghost predicate CursorsFollow(before: map<string, Time>, after: map<string, Time>, keys: seq<string>,
                                seen: Time, lastSeen: Time) {
    forall k :: CursorAt(after, k) == if k in keys && lastSeen != seen then lastSeen else CursorAt(before, k)
  }

  lemma CursorsAtLastSeen(before: map<string, Time>, after: map<string, Time>, keys: seq<string>,
                          base: Time, lastSeen: Time)
    requires CursorsFollow(before, after, keys, Latest(before, keys, base), lastSeen)
    requires Latest(before, keys, base) <= lastSeen && keys != []
    ensures Latest(after, keys, base) == lastSeen
  {
    LatestBounds(before, keys, base);
    if lastSeen == Latest(before, keys, base) {
      LatestSame(before, after, keys, base);
    } else {
      LatestIs(after, keys, base, lastSeen);
    }
  }

  lemma NamesOfTwo()
    ensures CursorKeys("x", "web") == ["id:x", "name:web"]
    ensures CursorKeys("y", "web") == ["id:y", "name:web"]
  {
    assert TrimSpace("x") == "x" && TrimSpace("y") == "y" && TrimSpace("web") == "web";
    assert "id:" + "x" == "id:x" && "id:" + "y" == "id:y" && "name:" + "web" == "name:web";
  }

  lemma LatestOfTwo(cursors: map<string, Time>, k1: string, k2: string, base: Time)
    ensures Latest(cursors, [k1, k2], base) == Max(Max(base, CursorAt(cursors, k1)), CursorAt(cursors, k2))
  {
    assert [k1, k2][..1] == [k1] && [k1][..0] == [];
    assert Latest(cursors, [], base) == base;
    assert Latest(cursors, [k1], base) == Max(base, CursorAt(cursors, k1));
  }

  lemma TwoLines(startedAt: Time, seen: Time)
    requires 0 < startedAt && startedAt + SECOND < FloorSecond(seen)
    ensures StartOf([seen], startedAt) == 0 && SeenAfter([seen], startedAt, 0, 1) == seen
    ensures StartOf([startedAt + SECOND, seen], startedAt) == 0
    ensures StartOf([startedAt + SECOND, seen], seen) == 1
  {
    assert [startedAt + SECOND, seen][1..] == [seen];
    assert FirstAt([seen], FloorSecond(seen)) == 0;
    assert SeenAfter([seen], startedAt, 0, 0) == startedAt;
  }

  // ----- in place -----

  class Watcher {
    const startedAt: Time
    const initialSince: int
    var cursors: map<string, Time>

    constructor (startedAt: Time, initialSince: int)
      ensures cursors == map[] && this.startedAt == startedAt && this.initialSince == initialSince
    {
      this.startedAt, this.initialSince := startedAt, initialSince;
      cursors := map[];
    }

    function BaseSince(): Time {
      if initialSince > 0 then startedAt - initialSince else startedAt
    }

    method InitialLogSince(id: string, name: string) returns (since: Time)
      ensures since == Latest(cursors, CursorKeys(id, name), BaseSince())
      ensures startedAt - Max(initialSince, 0) <= since
      ensures forall k :: k in CursorKeys(id, name) && k in cursors ==> cursors[k] <= since
      ensures || since == startedAt - Max(initialSince, 0)
              || exists k :: k in CursorKeys(id, name) && CursorAt(cursors, k) == since
    {
      LatestBounds(cursors, CursorKeys(id, name), BaseSince());
      since := BaseSince();
      var keys := CursorKeys(id, name);
      for i := 0 to |keys|
        invariant since == Latest(cursors, keys[..i], BaseSince())
      {
        assert keys[..i + 1][..i] == keys[..i];
        var ts := CursorAt(cursors, keys[i]);
        if ts > since {
          since := ts;
        }
      }
      assert keys[..|keys|] == keys;
    }

    /** Cursors never go back, and no other key changes. */
    method RecordLogTimestamp(id: string, name: string, timestamp: Time)
      modifies this`cursors
      ensures timestamp == ZERO_TIME ==> cursors == old(cursors)
      ensures timestamp != ZERO_TIME ==> forall k :: k in CursorKeys(id, name) ==>
                k in cursors && (if CursorAt(old(cursors), k) == ZERO_TIME then cursors[k] == timestamp
                                 else cursors[k] == Max(old(cursors)[k], timestamp))
      ensures forall k :: k !in CursorKeys(id, name) ==> CursorAt(cursors, k) == CursorAt(old(cursors), k)
      ensures timestamp != ZERO_TIME ==>
                forall k :: CursorAt(cursors, k)
                    == Moved(CursorAt(old(cursors), k), k in CursorKeys(id, name), timestamp)
    {
      if timestamp == ZERO_TIME {
        return;
      }
      var keys := CursorKeys(id, name);
      for i := 0 to |keys|
        invariant forall k :: CursorAt(cursors, k) == Moved(CursorAt(old(cursors), k), k in keys[..i], timestamp)
      {
        var previous := CursorAt(cursors, keys[i]);
        if previous == ZERO_TIME || timestamp > previous {
          cursors := cursors[keys[i] := timestamp];
        }
      }
      forall k | k in keys ensures CursorAt(cursors, k) == Moved(CursorAt(old(cursors), k), true, timestamp) {
        assert k in keys[..|keys|];
      }
    }

    /** One stream over any number of connections. */
    method RunStream(id: string, name: string, log: seq<Time>, ends: seq<nat>)
        returns (connections: seq<seq<nat>>, sinces: seq<Time>)
      requires InTimeOrder(log) && forall e :: e in ends ==> e <= |log|
      modifies this`cursors
      ensures |connections| == |ends| && Reconnects(log, sinces, ends)
      ensures sinces[0] == Latest(old(cursors), CursorKeys(id, name), BaseSince())
      ensures forall i :: 0 <= i < |ends| ==> connections[i] == Range(StartOf(log, sinces[i]), ends[i])
      ensures CursorsFollow(old(cursors), cursors, CursorKeys(id, name), sinces[0], sinces[|ends|])
      ensures CursorKeys(id, name) != [] ==> Latest(cursors, CursorKeys(id, name), BaseSince()) == sinces[|ends|]
    {
      hide Latest, StartOf, Range, SeenAfter;
      ghost var keys := CursorKeys(id, name);
      var lastSeen := InitialLogSince(id, name);
      LatestBounds(cursors, keys, BaseSince());
      connections, sinces := [], [lastSeen];
      for i := 0 to |ends|
        invariant |connections| == i && Reconnects(log, sinces, ends[..i]) && lastSeen == sinces[i]
        invariant sinces[0] == Latest(old(cursors), keys, BaseSince()) <= lastSeen
        invariant forall j :: 0 <= j < i ==> connections[j] == Range(StartOf(log, sinces[j]), ends[j])
        invariant CursorsFollow(old(cursors), cursors, keys, sinces[0], lastSeen)
      {
        assert ends[i] in ends && ends[..i + 1] == ends[..i] + [ends[i]];
        var delivered;
        delivered, lastSeen := Connection(id, name, log, ends[i], lastSeen);
        connections, sinces := connections + [delivered], sinces + [lastSeen];
      }
      assert ends[..|ends|] == ends;
      if keys != [] {
        CursorsAtLastSeen(old(cursors), cursors, keys, BaseSince(), lastSeen);
      }
    }

    /** One connection, and the handler's bookkeeping for each line. */
    method Connection(id: string, name: string, log: seq<Time>, end: nat, seen: Time)
        returns (delivered: seq<nat>, lastSeen: Time)
      requires end <= |log| && forall k :: k in CursorKeys(id, name) ==> CursorAt(cursors, k) <= seen
      modifies this`cursors
      ensures delivered == Range(StartOf(log, seen), end)
      ensures lastSeen == SeenAfter(log, seen, StartOf(log, seen), end)
      ensures CursorsFollow(old(cursors), cursors, CursorKeys(id, name), seen, lastSeen)
    {
      hide StartOf;
      lastSeen, delivered := seen, [];
      var p := StartOf(log, seen);
      while p < end
        invariant StartOf(log, seen) <= p <= Max(end, StartOf(log, seen))
        invariant delivered == Range(StartOf(log, seen), p)
        invariant lastSeen == SeenAfter(log, seen, StartOf(log, seen), p) && p <= |log|
        invariant CursorsFollow(old(cursors), cursors, CursorKeys(id, name), seen, lastSeen)
      {
        delivered := delivered + [p];
        if log[p] != ZERO_TIME && log[p] > lastSeen {
          lastSeen := log[p];
          RecordLogTimestamp(id, name, log[p]);
        }
        p := p + 1;
      }
    }
  }

  /** Two containers of one name share a cursor: once the first has delivered a line at
      `seen`, the first stream of the second skips its lines before that second. */
  method SharedNameSkips(startedAt: Time, seen: Time) returns (since: Time)
    requires 0 < startedAt && startedAt + SECOND < FloorSecond(seen)
    ensures since == seen
    ensures var log := [startedAt + SECOND, seen];
            InTimeOrder(log) && StartOf(log, startedAt) == 0 && StartOf(log, since) == 1
  {
    hide StartOf, SeenAfter, CursorKeys;
    NamesOfTwo();
    TwoLines(startedAt, seen);
    var w := new Watcher(startedAt, 0);
    LatestOfTwo(w.cursors, "id:x", "name:web", startedAt);
    var connections, sinces := w.RunStream("x", "web", [seen], [1]);
    LatestOfTwo(w.cursors, "id:y", "name:web", startedAt);
    since := w.InitialLogSince("y", "web");
  }
}
