/** When a cluster simulation finishes instead of throwing. */
module ClusterFinish {
  import opened Shards
  import opened Graphs
  import opened Policy
  import opened Queueing
  import opened Events
  import opened ClusterSimulator
  import opened NaturalCompletion
  import Equivalence = SimulatorEquivalence
  import Sweep

  /** Estimates and the wait oracle keep to their contracts. */
  ghost predicate SaneCosts(c: Config) {
    && (forall plan: DecodePlan :: c.service(plan) > 0)
    && forall id: RequestId, now: int :: c.wait(id, now) >= 0
  }

  /** Every event comes at or after time t, which is not negative, and names a shard of the code. */
  predicate InBounds(events: seq<Event>, n: nat, t: int) {
    forall e | e in events :: e.arrival >= 0 && e.arrival >= t && e.shard < n
  }

  predicate ArrivesEver(events: seq<Event>, id: RequestId, shard: ShardId) {
    exists e | e in events :: e.request == id && e.shard == shard
  }

  /** Every request receives all its systematic shards in the end. */
  predicate AllArrive(events: seq<Event>, k: nat) {
    forall id | id in RequestsOf(events) :: forall shard: ShardId | shard < k :: ArrivesEver(events, id, shard)
  }

  lemma DecideSucceeds(c: Config, q: Queue, o: Outcomes, tracker: Arrivals, id: RequestId, now: int)
    requires ValidConfig(c) && QueueFits(q) && |tracker| == c.n && SaneCosts(c) && q.now <= now
    ensures Decide(c, q, o, tracker, id, now).Some?
    ensures Decide(c, q, o, tracker, id, now).value.0.now == q.now
  {
    var plan := c.policy(tracker);
    assert c.service(plan) > 0 && c.wait(id, now) >= 0;
  }

  lemma GroupSucceeds(c: Config, events: seq<Event>, i: nat, s: Sim)
    requires ValidConfig(c) && Fits(c.n, s) && Tracked(events, s) && SaneCosts(c) && i < |events|
    requires (forall x | 0 <= x < |events| :: events[x].shard < c.n) && s.queue.now <= events[i].arrival
    ensures HandleGroup(c, events, i, s).Some? && HandleGroup(c, events, i, s).value.queue.now == s.queue.now
  {
    var e, j := events[i], GroupEnd(events, i);
    Equivalence.MarkAllSucceeds(events, i, j, s.trackers[e.request]);
    DecideSucceeds(c, s.queue, s.outcomes, MarkAll(events, i, j, s.trackers[e.request]).value, e.request, e.arrival);
  }

  lemma {:induction false} RestFinishes(c: Config, events: seq<Event>, i: nat, s: Sim)
    requires ValidConfig(c) && Fits(c.n, s) && Tracked(events, s) && SaneCosts(c) && Ordered(events) && i <= |events|
    requires forall x | 0 <= x < |events| :: events[x].shard < c.n && events[x].arrival >= 0
    requires i < |events| ==> s.queue.now <= events[i].arrival
    ensures Rest(c, events, i, s).Finished?
    decreases |events| - i
  {
    if i < |events| {
      var ready := if Opens(events, i) then OpenTime(s, events[i].arrival).value else s;
      var j := GroupEnd(events, i);
      GroupSucceeds(c, events, i, ready);
      assert j < |events| ==> AtMost(events[i], events[j]);
      RestFinishes(c, events, j, HandleGroup(c, events, i, ready).value);
    }
  }

  /** When all arrive, the end of the run knows every request's natural completion. */
  lemma AllComplete(c: Config, q: Queue, events: seq<Event>, id: RequestId)
    requires ValidConfig(c) && QueueFits(q) && Ordered(events) && Rest(c, events, 0, Start(c.n, events, q)).Finished?
    requires AllArrive(events, c.k) && id in RequestsOf(events)
    ensures id in Rest(c, events, 0, Start(c.n, events, q)).sim.outcomes.natural
  {
    var start := Start(c.n, events, q);
    StartInv(c, q, events);
    RestKeepsInv(c, events, 0, start);
    var end := Rest(c, events, 0, start).sim;
    assert id in end.trackers && NaturalFits(c, events, end, id);
    forall shard: ShardId | shard < c.k ensures end.trackers[id][shard].Some? {
      assert ArrivesEver(events, id, shard);
      var e :| e in events && e.request == id && e.shard == shard;
      var x :| 0 <= x < |events| && events[x] == e;
      assert SeenBefore(events, |events|, id, shard);
    }
  }

  lemma OrderedFinishes(c: Config, q: Queue, ordered: seq<Event>)
    requires ValidConfig(c) && QueueFits(q) && Ordered(ordered) && SaneCosts(c) && ConsistentStarts(ordered)
    requires InBounds(ordered, c.n, q.now) && AllArrive(ordered, c.k)
    ensures RunInOrder(c, q, ordered).0.Some?
  {
    forall x | 0 <= x < |ordered|
      ensures ordered[x].shard < c.n && ordered[x].arrival >= 0 && ordered[x].arrival >= q.now
    {
      assert ordered[x] in ordered;
    }
    RestFinishes(c, ordered, 0, Start(c.n, ordered, q));
    forall id | id in RequestsOf(ordered)
      ensures id in Rest(c, ordered, 0, Start(c.n, ordered, q)).sim.outcomes.natural
    {
      AllComplete(c, q, ordered, id);
    }
  }

  lemma FinishedIsInBounds(c: Config, q: Queue, ordered: seq<Event>, e: Event)
    requires ValidConfig(c) && QueueFits(q) && Ordered(ordered) && RunInOrder(c, q, ordered).0.Some? && e in ordered
    ensures e.arrival >= 0 && e.arrival >= q.now && e.shard < c.n
  {
    var x :| 0 <= x < |ordered| && ordered[x] == e;
    var start := Start(c.n, ordered, q);
    assert OpenTime(start, ordered[0].arrival).Some?;
    assert x > 0 ==> AtMost(ordered[0], ordered[x]);
    if e.shard >= c.n { Equivalence.StrayThrows(c, ordered, 0, start, x); }
  }

  lemma FinishedAllArrive(c: Config, q: Queue, ordered: seq<Event>)
    requires ValidConfig(c) && QueueFits(q) && Ordered(ordered) && RunInOrder(c, q, ordered).0.Some?
    ensures AllArrive(ordered, c.k)
  {
    NaturalIsFirstComplete(c, q, ordered);
    var o := Rest(c, ordered, 0, Start(c.n, ordered, q)).sim.outcomes;
    forall id, shard: ShardId | id in RequestsOf(ordered) && shard < c.k ensures ArrivesEver(ordered, id, shard) {
      assert ArrivesBy(ordered, id, shard, o.natural[id]);
      var i :| 0 <= i < |ordered| && ordered[i].request == id && ordered[i].shard == shard;
      assert ordered[i] in ordered;
    }
  }

  /**
   * Events of one request share its start and none precedes it, no time is negative or before t, all shards belong to
   * the code, and every request receives all its systematic shards.
   */
  predicate WellPosed(events: seq<Event>, k: nat, n: nat, t: int) {
    ConsistentStarts(events) && InBounds(events, n, t) && AllArrive(events, k)
  }

  lemma OrderedFinishesIff(c: Config, q: Queue, ordered: seq<Event>)
    requires ValidConfig(c) && QueueFits(q) && Ordered(ordered) && SaneCosts(c)
    ensures RunInOrder(c, q, ordered).0.Some? <==> WellPosed(ordered, c.k, c.n, q.now)
  {
    if RunInOrder(c, q, ordered).0.Some? {
      FinishedAllArrive(c, q, ordered);
      forall e | e in ordered ensures e.arrival >= 0 && e.arrival >= q.now && e.shard < c.n {
        FinishedIsInBounds(c, q, ordered, e);
      }
    }
    if WellPosed(ordered, c.k, c.n, q.now) { OrderedFinishes(c, q, ordered); }
  }

  lemma ArrivalsPermute(a: seq<Event>, b: seq<Event>, k: nat)
    requires multiset(a) == multiset(b) && AllArrive(a, k)
    ensures AllArrive(b, k)
  {
    Sweep.SameRequests(a, b);
    forall id, shard: ShardId | id in RequestsOf(b) && shard < k ensures ArrivesEver(b, id, shard) {
      assert ArrivesEver(a, id, shard);
      var e :| e in a && e.request == id && e.shard == shard;
      assert e in multiset(a) && e in multiset(b);
    }
  }

  lemma WellPosedPermutes(a: seq<Event>, b: seq<Event>, k: nat, n: nat, t: int)
    requires multiset(a) == multiset(b) && WellPosed(a, k, n, t)
    ensures WellPosed(b, k, n, t)
  {
    StartsOfPermutation(a, b);
    ArrivalsPermute(a, b, k);
    forall e | e in b ensures e.arrival >= 0 && e.arrival >= t && e.shard < n {
      assert e in multiset(b) && e in multiset(a);
    }
  }

  /** With positive service estimates and non-negative wait costs, a run finishes if and only if it is well posed. */
  lemma FinishesIff(c: Config, q: Queue, events: seq<Event>)
    requires ValidConfig(c) && QueueFits(q) && SaneCosts(c)
    ensures Outcome(c, q, events).0.Some? <==> WellPosed(events, c.k, c.n, q.now)
  {
    var ordered := SortEvents(events);
    SortEventsSorts(events);
    OrderedFinishesIff(c, q, ordered);
    if WellPosed(ordered, c.k, c.n, q.now) { WellPosedPermutes(ordered, events, c.k, c.n, q.now); }
    if WellPosed(events, c.k, c.n, q.now) { WellPosedPermutes(events, ordered, c.k, c.n, q.now); }
  }
}
