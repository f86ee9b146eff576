/** Keys with a time, sorted by it: what `sort.Slice` over such pairs may give. */
module Sorting {
  import opened Base

  datatype Stamped = Stamped(key: string, time: Time)

  ghost predicate SortedByStamp(cs: seq<Stamped>) {
    forall i, j :: 0 <= i < j < |cs| ==> cs[i].time <= cs[j].time
  }

  /** Some order by time; callers may not rely on how ties fall. */
  method SortByStamp(cs: seq<Stamped>) returns (sorted: seq<Stamped>)
    ensures SortedByStamp(sorted) && multiset(sorted) == multiset(cs)
  {
    sorted := [];
    for n := 0 to |cs|
      invariant SortedByStamp(sorted) && multiset(sorted) == multiset(cs[..n])
    {
      assert cs[..n + 1] == cs[..n] + [cs[n]];
      InsertedByStamp(sorted, cs[n]);
      InsertedIsSortedByStamp(sorted, cs[n]);
      sorted := InsertByStamp(sorted, cs[n]);
    }
    assert cs[..|cs|] == cs;
  }

  function InsertByStamp(sorted: seq<Stamped>, c: Stamped): seq<Stamped> {
    if sorted == [] then [c]
    else
      var n := |sorted| - 1;
      if sorted[n].time <= c.time then sorted + [c] else InsertByStamp(sorted[..n], c) + [sorted[n]]
  }

  lemma {:induction false} InsertedByStamp(sorted: seq<Stamped>, c: Stamped)
    ensures multiset(InsertByStamp(sorted, c)) == multiset(sorted) + multiset{c}
  {
    if sorted != [] && sorted[|sorted| - 1].time > c.time {
      var init, last := sorted[..|sorted| - 1], sorted[|sorted| - 1];
      assert sorted == init + [last];
      InsertedByStamp(init, c);
      assert InsertByStamp(sorted, c) == InsertByStamp(init, c) + [last];
    }
  }

  lemma {:induction false} InsertedIsSortedByStamp(sorted: seq<Stamped>, c: Stamped)
    requires SortedByStamp(sorted)
    ensures SortedByStamp(InsertByStamp(sorted, c))
  {
    if sorted != [] {
      var init, last := sorted[..|sorted| - 1], sorted[|sorted| - 1];
      if last.time > c.time {
        InsertedIsSortedByStamp(init, c);
        InsertedByStamp(init, c);
        forall x | x in InsertByStamp(init, c) ensures x.time <= last.time {
          assert x in multiset(InsertByStamp(init, c));
          assert x in init || x == c;
        }
        SnocIsSorted(InsertByStamp(init, c), last);
      } else {
        SnocIsSorted(sorted, c);
      }
    }
  }

  lemma SnocIsSorted(cs: seq<Stamped>, c: Stamped)
    requires SortedByStamp(cs) && forall x :: x in cs ==> x.time <= c.time
    ensures SortedByStamp(cs + [c])
  {
  }

  lemma TwiceInMultiset(cs: seq<Stamped>, i: nat, j: nat)
    requires i < j < |cs| && cs[i] == cs[j]
    ensures multiset(cs)[cs[i]] >= 2
  {
    assert cs == cs[..i] + [cs[i]] + cs[i + 1..j] + [cs[j]] + cs[j + 1..];
  }

  lemma {:induction false} OnceInMultiset(cs: seq<Stamped>, c: Stamped)
    requires forall i, j :: 0 <= i < j < |cs| ==> cs[i].key != cs[j].key
    ensures multiset(cs)[c] <= 1
  {
    if cs != [] {
      var n := |cs| - 1;
      assert cs == cs[..n] + [cs[n]];
      OnceInMultiset(cs[..n], c);
      assert c == cs[n] ==> c !in cs[..n];
    }
  }

  /** `items` holds every entry of a map of times once. */
  ghost predicate Enumerates(items: seq<Stamped>, e: map<string, Time>) {
    && (forall i :: 0 <= i < |items| ==> items[i].key in e && e[items[i].key] == items[i].time)
    && (forall i, j :: 0 <= i < j < |items| ==> items[i].key != items[j].key)
    && (forall id :: id in e ==> Stamped(id, e[id]) in items)
  }

  lemma EnumeratesNothing(e: map<string, Time>)
    requires e.Keys == {}
    ensures Enumerates([], e)
  {
  }

  lemma EnumeratesOneMore(items: seq<Stamped>, e: map<string, Time>, todo: set<string>, id: string)
    requires id in todo && id in e && Enumerates(items, e - todo)
    ensures Enumerates(items + [Stamped(id, e[id])], e - (todo - {id}))
  {
    var items' := items + [Stamped(id, e[id])];
    forall x | x in e - (todo - {id}) ensures Stamped(x, e[x]) in items' {
      if x != id { assert x in e - todo; }
    }
  }

  lemma EnumeratesSorted(items: seq<Stamped>, sorted: seq<Stamped>, e: map<string, Time>)
    requires Enumerates(items, e) && multiset(sorted) == multiset(items)
    ensures Enumerates(sorted, e)
  {
    forall c ensures c in sorted <==> c in items {
      assert c in multiset(sorted) <==> c in multiset(items);
    }
    forall i | 0 <= i < |sorted| ensures sorted[i].key in e && e[sorted[i].key] == sorted[i].time {
      assert sorted[i] in items;
    }
    forall i, j | 0 <= i < j < |sorted| ensures sorted[i].key != sorted[j].key {
      if sorted[i].key == sorted[j].key {
        assert sorted[i] in items && sorted[j] in items;
        TwiceInMultiset(sorted, i, j);
        OnceInMultiset(items, sorted[i]);
      }
    }
  }

  // ----- removing the oldest -----

  /** `e` without the first `i` items. */
  ghost predicate Without(e: map<string, Time>, e': map<string, Time>, sorted: seq<Stamped>, i: nat) {
    && i <= |sorted| && e'.Keys <= e.Keys && |e'| == |e| - i
    && (forall id :: id in e' ==> e'[id] == e[id])
    && forall id :: id in e ==> (id in e' <==> forall j :: 0 <= j < i ==> sorted[j].key != id)
  }

  lemma WithoutNone(e: map<string, Time>, sorted: seq<Stamped>)
    ensures Without(e, e, sorted, 0)
  {
  }

  lemma WithoutCounts(e: map<string, Time>, e': map<string, Time>, sorted: seq<Stamped>, i: nat)
    requires Without(e, e', sorted, i)
    ensures |e'| == |e| - i
  {
  }

  lemma WithoutOneMore(e: map<string, Time>, e': map<string, Time>, sorted: seq<Stamped>, i: nat)
    requires Enumerates(sorted, e) && Without(e, e', sorted, i) && i < |sorted|
    ensures sorted[i].key in e' && Without(e, e' - {sorted[i].key}, sorted, i + 1)
  {
    var key := sorted[i].key;
    var e'' := e' - {key};
    assert key in e';
    assert e''.Keys == e'.Keys - {key};
    forall id | id in e ensures id in e'' <==> forall j :: 0 <= j < i + 1 ==> sorted[j].key != id {
      if id in e'' { assert forall j :: 0 <= j < i ==> sorted[j].key != id; }
    }
  }

  lemma WithoutAll(e: map<string, Time>, e': map<string, Time>, sorted: seq<Stamped>)
    requires Enumerates(sorted, e) && Without(e, e', sorted, |sorted|)
    ensures |e'| == 0
  {
    forall id | id in e ensures id !in e' {
      var j :| 0 <= j < |sorted| && sorted[j] == Stamped(id, e[id]);
    }
    assert e'.Keys == {};
  }

  lemma OldestGone(e: map<string, Time>, e': map<string, Time>, sorted: seq<Stamped>, i: nat)
    requires Enumerates(sorted, e) && SortedByStamp(sorted) && Without(e, e', sorted, i)
    ensures forall r, k :: r in e && r !in e' && k in e' ==> e[r] <= e'[k]
  {
    forall r, k | r in e && r !in e' && k in e' ensures e[r] <= e'[k] {
      var a :| 0 <= a < i && sorted[a].key == r;
      var b :| 0 <= b < |sorted| && sorted[b] == Stamped(k, e[k]);
      assert b >= i;
    }
  }
}
