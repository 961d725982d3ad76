/** Arrival events and the order the simulators process them in. */
module Events {
  import opened Shards

  type RequestId = nat

  /** Times are microseconds on one clock; `start` is when the event's request began. */
  datatype Event = Event(arrival: int, request: RequestId, shard: ShardId, start: int)

  /** Order by arrival time, then request, then shard; the start time does not take part. */
  predicate AtMost(a: Event, b: Event) {
    || a.arrival < b.arrival
    || (a.arrival == b.arrival && (a.request < b.request || (a.request == b.request && a.shard <= b.shard)))
  }

  predicate Ordered(events: seq<Event>) {
    forall i, j | 0 <= i < j < |events| :: AtMost(events[i], events[j])
  }

  function InsertEvent(events: seq<Event>, e: Event): (r: seq<Event>)
    ensures |r| == |events| + 1
  {
    if events == [] || AtMost(events[|events| - 1], e) then events + [e]
    else InsertEvent(events[..|events| - 1], e) + [events[|events| - 1]]
  }

  lemma {:induction false} InsertEventElements(events: seq<Event>, e: Event)
    ensures multiset(InsertEvent(events, e)) == multiset(events) + multiset{e}
  {
    if events != [] && !AtMost(events[|events| - 1], e) {
      var front, last := events[..|events| - 1], events[|events| - 1];
      InsertEventElements(front, e);
      assert events == front + [last];
    }
  }

  lemma {:induction false} InsertEventBound(events: seq<Event>, e: Event, last: Event)
    requires AtMost(e, last) && forall i | 0 <= i < |events| :: AtMost(events[i], last)
    ensures forall i | 0 <= i < |InsertEvent(events, e)| :: AtMost(InsertEvent(events, e)[i], last)
  {
    if events != [] { InsertEventBound(events[..|events| - 1], e, last); }
  }

  lemma {:induction false} InsertEventKeepsOrder(events: seq<Event>, e: Event)
    requires Ordered(events)
    ensures Ordered(InsertEvent(events, e))
  {
    if events != [] && !AtMost(events[|events| - 1], e) {
      var front, last := events[..|events| - 1], events[|events| - 1];
      InsertEventKeepsOrder(front, e);
      InsertEventBound(front, e, last);
    }
  }

  function SortEvents(events: seq<Event>): (r: seq<Event>)
    ensures |r| == |events|
  {
    if events == [] then [] else InsertEvent(SortEvents(events[..|events| - 1]), events[|events| - 1])
  }

  lemma {:induction false} SortEventsSorts(events: seq<Event>)
    ensures multiset(SortEvents(events)) == multiset(events) && Ordered(SortEvents(events))
  {
    if events != [] {
      var front, last := events[..|events| - 1], events[|events| - 1];
      SortEventsSorts(front);
      InsertEventElements(SortEvents(front), last);
      InsertEventKeepsOrder(SortEvents(front), last);
      assert events == front + [last];
    }
  }

  /** Any sorted permutation; which one is left open. */
  method SortedCopy(events: seq<Event>) returns (r: seq<Event>)
    ensures multiset(r) == multiset(events) && Ordered(r)
  {
    SortEventsSorts(events);
    return SortEvents(events);
  }

  /** Events of one request share its start, and no shard arrives before it. */
  predicate ConsistentStarts(events: seq<Event>) {
    && (forall i, j | 0 <= i < |events| && 0 <= j < |events| && events[i].request == events[j].request ::
          events[i].start == events[j].start)
    && forall i | 0 <= i < |events| :: events[i].arrival >= events[i].start
  }

  lemma SameElements(a: seq<Event>, b: seq<Event>, i: nat) returns (j: nat)
    requires multiset(a) == multiset(b) && i < |a|
    ensures j < |b| && b[j] == a[i]
  {
    assert a[i] in multiset(a);
    j :| 0 <= j < |b| && b[j] == a[i];
  }

  lemma StartsOfPermutation(a: seq<Event>, b: seq<Event>)
    requires multiset(a) == multiset(b) && ConsistentStarts(a)
    ensures ConsistentStarts(b)
  {
    forall i, j | 0 <= i < |b| && 0 <= j < |b| && b[i].request == b[j].request
      ensures b[i].start == b[j].start && b[i].arrival >= b[i].start
    {
      var x := SameElements(b, a, i);
      var y := SameElements(b, a, j);
    }
  }

  lemma SameLast(a: seq<Event>, b: seq<Event>)
    requires multiset(a) == multiset(b) && Ordered(a) && Ordered(b) && ConsistentStarts(a)
    requires a != [] && b != []
    ensures a[|a| - 1] == b[|b| - 1]
  {
    var i := SameElements(b, a, |b| - 1);
    var j := SameElements(a, b, |a| - 1);
    assert a[i].request == a[|a| - 1].request ==> a[i].start == a[|a| - 1].start;
    assert AtMost(b[j], b[|b| - 1]) && AtMost(a[i], a[|a| - 1]);
  }

  lemma SameFronts(a: seq<Event>, b: seq<Event>)
    requires multiset(a) == multiset(b) && a != [] && b != [] && a[|a| - 1] == b[|b| - 1]
    ensures multiset(a[..|a| - 1]) == multiset(b[..|b| - 1])
  {
    WithoutLast(a);
    WithoutLast(b);
  }

  lemma WithoutLast(a: seq<Event>)
    requires a != []
    ensures multiset(a[..|a| - 1]) == multiset(a) - multiset{a[|a| - 1]}
  {
    assert a == a[..|a| - 1] + [a[|a| - 1]];
  }

  /** With consistent starts, equal keys mean equal events, so there is only one sorted permutation. */
  lemma {:induction false} SortedPermutationIsUnique(a: seq<Event>, b: seq<Event>)
    requires multiset(a) == multiset(b) && Ordered(a) && Ordered(b) && ConsistentStarts(a)
    ensures a == b
  {
    assert |multiset(a)| == |a| && |multiset(b)| == |b|;
    if a != [] {
      SameLast(a, b);
      SameFronts(a, b);
      SortedPermutationIsUnique(a[..|a| - 1], b[..|b| - 1]);
      assert a == a[..|a| - 1] + [a[|a| - 1]] && b == b[..|b| - 1] + [b[|b| - 1]];
    }
  }
}
