/** When a request completes without help: the first time by which all its systematic shards have arrived. */
module NaturalCompletion {
  import opened Shards
  import opened Policy
  import opened Queueing
  import opened Events
  import opened ClusterSimulator

  predicate ArrivesBy(events: seq<Event>, id: RequestId, shard: ShardId, t: int) {
    exists i | 0 <= i < |events| :: events[i].request == id && events[i].shard == shard && events[i].arrival <= t
  }

  predicate CompleteBy(events: seq<Event>, k: nat, id: RequestId, t: int) {
    forall shard: ShardId | shard < k :: ArrivesBy(events, id, shard, t)
  }

  ghost predicate FirstComplete(events: seq<Event>, k: nat, id: RequestId, t: int) {
    CompleteBy(events, k, id, t) && forall earlier: int | earlier < t :: !CompleteBy(events, k, id, earlier)
  }

  predicate SeenBefore(events: seq<Event>, i: nat, id: RequestId, shard: ShardId)
    requires i <= |events|
  {
    exists x | 0 <= x < i :: events[x].request == id && events[x].shard == shard
  }

  /** A tracker knows exactly the shards of its request among the events so far. */
  predicate TrackerMatches(events: seq<Event>, i: nat, id: RequestId, tracker: Arrivals)
    requires i <= |events|
  {
    forall shard | 0 <= shard < |tracker| :: tracker[shard].Some? <==> SeenBefore(events, i, id, shard)
  }

  /** A natural completion is recorded exactly for complete requests, with the first time that completes them. */
  ghost predicate NaturalFits(c: Config, events: seq<Event>, s: Sim, id: RequestId)
    requires Fits(c.n, s) && c.k <= c.n && id in s.trackers
  {
    && (id in s.outcomes.natural <==> SystematicComplete(c.k, s.trackers[id]))
    && (id in s.outcomes.natural ==> FirstComplete(events, c.k, id, s.outcomes.natural[id]))
  }

  ghost predicate Inv(c: Config, events: seq<Event>, i: nat, s: Sim)
    requires i <= |events|
  {
    && ValidConfig(c) && Fits(c.n, s) && Tracked(events, s)
    && (0 < i < |events| ==> !SameGroup(events[i - 1], events[i]))
    && (forall id | id in s.trackers :: TrackerMatches(events, i, id, s.trackers[id]))
    && s.outcomes.natural.Keys <= s.trackers.Keys
    && forall id | id in s.trackers :: NaturalFits(c, events, s, id)
  }

  lemma {:induction false} MarkAllMarks(events: seq<Event>, i: nat, j: nat, tracker: Arrivals)
    requires i <= j <= |events| && MarkAll(events, i, j, tracker).Some?
    ensures forall x | 0 <= x < |tracker| ::
      MarkAll(events, i, j, tracker).value[x].Some? <==>
        tracker[x].Some? || exists y | i <= y < j :: events[y].shard == x
  {
    if i < j { MarkAllMarks(events, i, j - 1, tracker); }
  }

  /** Marking a whole group brings its request's tracker up to date. */
  lemma MarkAllMatches(events: seq<Event>, i: nat, tracker: Arrivals)
    requires i < |events| && TrackerMatches(events, i, events[i].request, tracker)
    requires MarkAll(events, i, GroupEnd(events, i), tracker).Some?
    ensures TrackerMatches(events, GroupEnd(events, i), events[i].request,
                           MarkAll(events, i, GroupEnd(events, i), tracker).value)
  {
    var j := GroupEnd(events, i);
    MarkAllMarks(events, i, j, tracker);
    forall shard | 0 <= shard < |tracker|
      ensures SeenBefore(events, j, events[i].request, shard)
        <==> SeenBefore(events, i, events[i].request, shard) || exists y | i <= y < j :: events[y].shard == shard
    {
      if y :| i <= y < j && events[y].shard == shard { assert SameGroup(events[y], events[i]); }
    }
  }

  lemma OthersMatch(events: seq<Event>, i: nat, id: RequestId, tracker: Arrivals)
    requires i < |events| && TrackerMatches(events, i, id, tracker) && id != events[i].request
    ensures TrackerMatches(events, GroupEnd(events, i), id, tracker)
  {
    var j := GroupEnd(events, i);
    forall x | i <= x < j ensures events[x].request != id { assert SameGroup(events[x], events[i]); }
    forall shard | 0 <= shard < |tracker|
      ensures SeenBefore(events, j, id, shard) <==> SeenBefore(events, i, id, shard)
    {}
  }

  /** The group that completes a request arrives at its completion time. */
  lemma {:induction false} CompletingGroup(events: seq<Event>, k: nat, i: nat, before: Arrivals, after: Arrivals)
    requires Ordered(events) && i < |events| && k <= |before| == |after|
    requires TrackerMatches(events, i, events[i].request, before) && !SystematicComplete(k, before)
    requires TrackerMatches(events, GroupEnd(events, i), events[i].request, after) && SystematicComplete(k, after)
    ensures FirstComplete(events, k, events[i].request, events[i].arrival)
  {
    var id, now, j := events[i].request, events[i].arrival, GroupEnd(events, i);
    forall shard: ShardId | shard < k ensures ArrivesBy(events, id, shard, now) {
      assert after[shard].Some?;
      var x :| 0 <= x < j && events[x].request == id && events[x].shard == shard;
      if x > i { assert SameGroup(events[x], events[i]); } else if x < i { assert AtMost(events[x], events[i]); }
    }
    forall x | i < x < |events| ensures events[x].arrival >= now { assert AtMost(events[i], events[x]); }
    var absent: nat :| absent < k && before[absent].None?;
    assert !SeenBefore(events, i, id, absent);
    forall earlier: int | earlier < now ensures !CompleteBy(events, k, id, earlier) {
      assert !ArrivesBy(events, id, absent, earlier);
    }
  }

  lemma GroupKeepsTrackers(c: Config, events: seq<Event>, i: nat, s: Sim)
    requires i < |events| && Inv(c, events, i, s) && HandleGroup(c, events, i, s).Some?
    ensures var s' := HandleGroup(c, events, i, s).value;
      forall id | id in s'.trackers :: TrackerMatches(events, GroupEnd(events, i), id, s'.trackers[id])
  {
    var s' := HandleGroup(c, events, i, s).value;
    MarkAllMatches(events, i, s.trackers[events[i].request]);
    forall id | id in s'.trackers && id != events[i].request
      ensures TrackerMatches(events, GroupEnd(events, i), id, s'.trackers[id])
    {
      OthersMatch(events, i, id, s.trackers[id]);
    }
  }

  lemma {:induction false} MarkAllKeeps(events: seq<Event>, i: nat, j: nat, tracker: Arrivals, k: nat)
    requires i <= j <= |events| && MarkAll(events, i, j, tracker).Some? && k <= |tracker|
    requires SystematicComplete(k, tracker)
    ensures SystematicComplete(k, MarkAll(events, i, j, tracker).value)
  {
    MarkAllMarks(events, i, j, tracker);
  }

  lemma GroupKeepsNatural(c: Config, events: seq<Event>, i: nat, s: Sim, id: RequestId)
    requires Ordered(events) && i < |events| && Inv(c, events, i, s) && HandleGroup(c, events, i, s).Some?
    requires id in s.trackers
    ensures NaturalFits(c, events, HandleGroup(c, events, i, s).value, id)
  {
    var s', j := HandleGroup(c, events, i, s).value, GroupEnd(events, i);
    if id == events[i].request {
      GroupKeepsTrackers(c, events, i, s);
      if SystematicComplete(c.k, s.trackers[id]) {
        MarkAllKeeps(events, i, j, s.trackers[id], c.k);
      } else if SystematicComplete(c.k, s'.trackers[id]) {
        CompletingGroup(events, c.k, i, s.trackers[id], s'.trackers[id]);
      }
    }
  }

  lemma GroupKeepsInv(c: Config, events: seq<Event>, i: nat, s: Sim)
    requires Ordered(events) && i < |events| && Inv(c, events, i, s) && HandleGroup(c, events, i, s).Some?
    ensures Inv(c, events, GroupEnd(events, i), HandleGroup(c, events, i, s).value)
  {
    var s', j := HandleGroup(c, events, i, s).value, GroupEnd(events, i);
    GroupKeepsTrackers(c, events, i, s);
    forall id | id in s'.trackers ensures NaturalFits(c, events, s', id) {
      GroupKeepsNatural(c, events, i, s, id);
    }
    assert s'.outcomes.natural.Keys <= s.outcomes.natural.Keys + {events[i].request};
    assert SameGroup(events[j - 1], events[i]);
  }

  lemma {:induction false} RestKeepsInv(c: Config, events: seq<Event>, i: nat, s: Sim)
    requires i <= |events| && Ordered(events) && Inv(c, events, i, s) && Rest(c, events, i, s).Finished?
    ensures Inv(c, events, |events|, Rest(c, events, i, s).sim)
    decreases |events| - i
  {
    if i < |events| {
      var ready := if Opens(events, i) then OpenTime(s, events[i].arrival).value else s;
      GroupKeepsInv(c, events, i, ready);
      RestKeepsInv(c, events, GroupEnd(events, i), HandleGroup(c, events, i, ready).value);
    }
  }

  lemma StartInv(c: Config, q: Queue, events: seq<Event>)
    requires ValidConfig(c) && QueueFits(q)
    ensures Inv(c, events, 0, Start(c.n, events, q))
  {
    assert NoArrivals(c.n)[0].None?;
    assert !SystematicComplete(c.k, NoArrivals(c.n));
  }

  /** In a finished run every request's natural completion is the first time all its systematic shards have arrived. */
  lemma NaturalIsFirstComplete(c: Config, q: Queue, events: seq<Event>)
    requires ValidConfig(c) && QueueFits(q) && Ordered(events) && RunInOrder(c, q, events).0.Some?
    ensures var end := Rest(c, events, 0, Start(c.n, events, q));
      && end.Finished?
      && forall id | id in RequestsOf(events) ::
           id in end.sim.outcomes.natural && FirstComplete(events, c.k, id, end.sim.outcomes.natural[id])
  {
    StartInv(c, q, events);
    RestKeepsInv(c, events, 0, Start(c.n, events, q));
  }
}
