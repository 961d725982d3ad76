/** The cluster simulator, run on one request and an idle queue, agrees with the single-request simulator. */
module SimulatorEquivalence {
  import opened Shards
  import opened Graphs
  import opened Policy
  import opened Queueing
  import opened Events
  import opened ClusterSimulator
  import opened NaturalCompletion
  import R = RequestSimulation
  import Sweep

  /** Two trackers that have seen the same shards. */
  predicate SameShards(a: Arrivals, b: Arrivals) {
    |a| == |b| && forall i | 0 <= i < |a| :: a[i].Some? <==> b[i].Some?
  }

  lemma PlansAgree(g: BipartiteGraph, a: Arrivals, b: Arrivals)
    requires ValidGraph(g) && |a| == g.k + g.m && SameShards(a, b)
    ensures PlanFor(g, a) == PlanFor(g, b)
  {
    assert Missing(g.k, a) == Missing(g.k, b);
    assert ArrivedParity(g, a) == ArrivedParity(g, b);
  }

  /** Same code, same policy, a constant service time and the same non-negative wait costs. */
  ghost predicate Alike(c: Config, a: R.Setup, id: RequestId, service: int) {
    && ValidConfig(c) && c.k == a.k && c.n == a.n && service > 0
    && (forall x: Arrivals, y: Arrivals | SameShards(x, y) && |x| == c.n :: c.policy(x) == a.policy(y))
    && (forall plan: DecodePlan :: c.service(plan) == service)
    && (forall now: int :: c.wait(id, now) == a.costs(now).wait >= 0 && a.costs(now).recovery == service)
  }

  predicate Matches(x: R.ShardArrival, y: Event) {
    x.shard == y.shard && x.arrival == y.arrival
  }

  predicate HasEvent(ys: seq<Event>, x: R.ShardArrival) {
    exists j | 0 <= j < |ys| :: Matches(x, ys[j])
  }

  predicate HasArrival(xs: seq<R.ShardArrival>, y: Event) {
    exists i | 0 <= i < |xs| :: Matches(xs[i], y)
  }

  /** The same arrivals, in two orders by time, all of one request and within the code. */
  predicate SameArrivals(xs: seq<R.ShardArrival>, ys: seq<Event>, id: RequestId, n: nat) {
    && R.OrderedByTime(xs) && Ordered(ys)
    && (forall i {:trigger HasEvent(ys, xs[i])} | 0 <= i < |xs| :: HasEvent(ys, xs[i]))
    && (forall j {:trigger HasArrival(xs, ys[j])} | 0 <= j < |ys| :: HasArrival(xs, ys[j]))
    && (forall j | 0 <= j < |ys| :: ys[j].request == id && ys[j].shard < n && ys[j].arrival >= 0)
  }

  /** i and j are where the arrivals after time t begin. */
  predicate SplitAt(xs: seq<R.ShardArrival>, ys: seq<Event>, i: nat, j: nat, t: int) {
    && i <= |xs| && j <= |ys|
    && (forall p | 0 <= p < |xs| :: p < i <==> xs[p].arrival <= t)
    && (forall q | 0 <= q < |ys| :: q < j <==> ys[q].arrival <= t)
  }

  lemma TimeEndSplits(xs: seq<R.ShardArrival>, i: nat)
    requires R.OrderedByTime(xs) && i < |xs|
    ensures forall p | 0 <= p < |xs| :: p < R.TimeEnd(xs, i) <==> xs[p].arrival <= xs[i].arrival
  {
    var end := R.TimeEnd(xs, i);
    assert end < |xs| ==> xs[i].arrival < xs[end].arrival;
    forall p | end <= p < |xs| ensures xs[p].arrival > xs[i].arrival {
      assert p > end ==> xs[end].arrival <= xs[p].arrival;
    }
  }

  lemma GroupEndSplits(ys: seq<Event>, id: RequestId, j: nat)
    requires Ordered(ys) && j < |ys| && forall q | 0 <= q < |ys| :: ys[q].request == id
    ensures forall q | 0 <= q < |ys| :: q < GroupEnd(ys, j) <==> ys[q].arrival <= ys[j].arrival
  {
    var end := GroupEnd(ys, j);
    assert end < |ys| ==> AtMost(ys[j], ys[end]) && !SameGroup(ys[end], ys[j]);
    forall q | end <= q < |ys| ensures ys[q].arrival > ys[j].arrival {
      assert q > end ==> AtMost(ys[end], ys[q]);
    }
    forall q | 0 <= q < end ensures ys[q].arrival <= ys[j].arrival {
      if q < j { assert AtMost(ys[q], ys[j]); } else { assert SameGroup(ys[q], ys[j]); }
    }
  }

  lemma NextTime(xs: seq<R.ShardArrival>, ys: seq<Event>, id: RequestId, n: nat, i: nat, j: nat, t: int)
    requires SameArrivals(xs, ys, id, n) && SplitAt(xs, ys, i, j, t)
    ensures i == |xs| <==> j == |ys|
    ensures i < |xs| ==> xs[i].arrival == ys[j].arrival
  {
    if i < |xs| {
      assert HasEvent(ys, xs[i]);
      var q :| 0 <= q < |ys| && Matches(xs[i], ys[q]);
      assert j <= q && (j < q ==> AtMost(ys[j], ys[q]));
    }
    if j < |ys| {
      assert HasArrival(xs, ys[j]);
      var p :| 0 <= p < |xs| && Matches(xs[p], ys[j]);
      assert i <= p && (i < p ==> xs[i].arrival <= xs[p].arrival);
    }
  }

  lemma NextSplit(xs: seq<R.ShardArrival>, ys: seq<Event>, id: RequestId, n: nat, i: nat, j: nat, t: int)
    requires SameArrivals(xs, ys, id, n) && SplitAt(xs, ys, i, j, t) && i < |xs|
    ensures j < |ys| && t < xs[i].arrival == ys[j].arrival && Opens(ys, j)
    ensures SplitAt(xs, ys, R.TimeEnd(xs, i), GroupEnd(ys, j), xs[i].arrival)
  {
    NextTime(xs, ys, id, n, i, j, t);
    TimeEndSplits(xs, i);
    GroupEndSplits(ys, id, j);
  }

  predicate Seen(xs: seq<R.ShardArrival>, i: nat, shard: ShardId)
    requires i <= |xs|
  {
    exists p | 0 <= p < i :: xs[p].shard == shard
  }

  predicate Knows(xs: seq<R.ShardArrival>, i: nat, tracker: Arrivals)
    requires i <= |xs|
  {
    forall shard | 0 <= shard < |tracker| :: tracker[shard].Some? <==> Seen(xs, i, shard)
  }

  lemma {:induction false} MarkTimeMarks(xs: seq<R.ShardArrival>, i: nat, j: nat, tracker: Arrivals)
    requires i <= j <= |xs| && forall p | i <= p < j :: xs[p].shard < |tracker|
    ensures R.MarkTime(xs, i, j, tracker).Some?
    ensures forall x | 0 <= x < |tracker| ::
      R.MarkTime(xs, i, j, tracker).value[x].Some? <==> tracker[x].Some? || exists y | i <= y < j :: xs[y].shard == x
  {
    if i < j { MarkTimeMarks(xs, i, j - 1, tracker); }
  }

  lemma MarkTimeKnows(xs: seq<R.ShardArrival>, i: nat, j: nat, tracker: Arrivals)
    requires i <= j <= |xs| && Knows(xs, i, tracker) && forall p | i <= p < j :: xs[p].shard < |tracker|
    ensures R.MarkTime(xs, i, j, tracker).Some? && Knows(xs, j, R.MarkTime(xs, i, j, tracker).value)
  {
    MarkTimeMarks(xs, i, j, tracker);
  }

  lemma {:induction false} MarkAllSucceeds(ys: seq<Event>, i: nat, j: nat, tracker: Arrivals)
    requires i <= j <= |ys| && forall q | i <= q < j :: ys[q].shard < |tracker|
    ensures MarkAll(ys, i, j, tracker).Some?
  {
    if i < j { MarkAllSucceeds(ys, i, j - 1, tracker); }
  }

  /** At a split both trackers have seen the same shards. */
  lemma SplitTrackersAgree(xs: seq<R.ShardArrival>, ys: seq<Event>, id: RequestId, n: nat, i: nat, j: nat, t: int,
                           a: Arrivals, b: Arrivals)
    requires SameArrivals(xs, ys, id, n) && SplitAt(xs, ys, i, j, t) && |a| == |b|
    requires Knows(xs, i, a) && TrackerMatches(ys, j, id, b)
    ensures SameShards(a, b)
  {
    forall shard | 0 <= shard < |a| ensures a[shard].Some? <==> b[shard].Some? {
      if Seen(xs, i, shard) {
        var p :| 0 <= p < i && xs[p].shard == shard;
        assert HasEvent(ys, xs[p]);
        var q :| 0 <= q < |ys| && Matches(xs[p], ys[q]);
        assert SeenBefore(ys, j, id, shard);
      }
      if SeenBefore(ys, j, id, shard) {
        var q :| 0 <= q < j && ys[q].request == id && ys[q].shard == shard;
        assert HasArrival(xs, ys[q]);
        var p :| 0 <= p < |xs| && Matches(xs[p], ys[q]);
        assert Seen(xs, i, shard);
      }
    }
  }

  lemma InRange(xs: seq<R.ShardArrival>, ys: seq<Event>, id: RequestId, n: nat, p: nat)
    requires SameArrivals(xs, ys, id, n) && p < |xs|
    ensures xs[p].shard < n && xs[p].arrival >= 0
  {
    assert HasEvent(ys, xs[p]);
    var q :| 0 <= q < |ys| && Matches(xs[p], ys[q]);
  }

  // ---------- the queue of a single request ----------

  /** Nothing outstanding, every slot free. */
  predicate Idle(q: Queue) {
    QueueFits(q) && q.depth == 0 < q.maxDepth && forall x | 0 <= x < |q.slots| :: q.slots[x] <= q.now
  }

  lemma IdleAdvances(q: Queue, now: int)
    requires Idle(q) && q.now <= now
    ensures Advance(q, now).Some? && Idle(Advance(q, now).value) && Advance(q, now).value.now == now
  {}

  lemma IdleQuote(q: Queue, service: int)
    requires Idle(q) && service > 0
    ensures Quote(q, q.now, service) == Cost(service)
  {}

  // ---------- lockstep ----------

  predicate RecoveryAgrees(id: RequestId, recovery: Option<R.Recovery>, o: Outcomes) {
    if recovery.None? then id !in o.recovery else id in o.recovery && o.recovery[id] == recovery.value.completed
  }

  /** Both simulators take the same decision for an incomplete request that has not recovered yet. */
  lemma DecisionsAgree(c: Config, a: R.Setup, id: RequestId, service: int, mine: Arrivals, theirs: Arrivals,
                       q: Queue, o: Outcomes)
    requires Alike(c, a, id, service) && SameShards(theirs, mine) && |theirs| == c.n && Idle(q)
    requires !SystematicComplete(c.k, theirs) && id !in o.natural && id !in o.recovery
    ensures R.Consider(a, mine, q.now).Some? && Decide(c, q, o, theirs, id, q.now).Some?
    ensures var recovery, (q', o') := R.Consider(a, mine, q.now).value, Decide(c, q, o, theirs, id, q.now).value;
      id !in o'.natural && RecoveryAgrees(id, recovery, o') && (recovery.None? ==> q' == q) && q'.now == q.now
  {
    var plan := c.policy(theirs);
    assert plan == a.policy(mine) && c.service(plan) == service;
    assert c.wait(id, q.now) == a.costs(q.now).wait >= 0;
    IdleQuote(q, service);
  }

  ghost predicate InStep(c: Config, a: R.Setup, id: RequestId, service: int, xs: seq<R.ShardArrival>, ys: seq<Event>,
                         i: nat, j: nat, t: int, tracker: Arrivals, recovery: Option<R.Recovery>, s: Sim)
  {
    && Alike(c, a, id, service) && SameArrivals(xs, ys, id, c.n) && SplitAt(xs, ys, i, j, t)
    && |tracker| == c.n && Fits(c.n, s) && Tracked(ys, s) && id in s.trackers
    && Knows(xs, i, tracker) && TrackerMatches(ys, j, id, s.trackers[id])
    && id !in s.outcomes.natural && RecoveryAgrees(id, recovery, s.outcomes)
    && s.queue.now <= Max(t, 0) && (recovery.None? ==> Idle(s.queue))
  }

  predicate ResultsAgree(id: RequestId, m: Option<R.SimulationMetrics>, o: Outcomes) {
    if m.None? then id !in o.natural
    else id in o.natural && o.natural[id] == m.value.natural && RecoveryAgrees(id, m.value.recovery, o)
         && m.value == R.Finished(m.value.natural, m.value.recovery)
  }

  lemma StaysComplete(ys: seq<Event>, j: nat, tracker: Arrivals, k: nat)
    requires j < |ys| && MarkAll(ys, j, GroupEnd(ys, j), tracker).Some?
    requires k <= |tracker| && SystematicComplete(k, tracker)
    ensures SystematicComplete(k, MarkAll(ys, j, GroupEnd(ys, j), tracker).value)
  {
    MarkAllMarks(ys, j, GroupEnd(ys, j), tracker);
  }

  /** Once the request is complete, later arrivals change nothing. */
  lemma {:induction false} CompleteIsFinal(c: Config, id: RequestId, xs: seq<R.ShardArrival>, ys: seq<Event>, j: nat,
                                           s: Sim)
    requires ValidConfig(c) && SameArrivals(xs, ys, id, c.n) && Fits(c.n, s) && Tracked(ys, s) && j <= |ys|
    requires id in s.trackers && SystematicComplete(c.k, s.trackers[id]) && id in s.outcomes.natural
    requires j < |ys| ==> s.queue.now <= ys[j].arrival
    ensures Rest(c, ys, j, s).Finished? && Rest(c, ys, j, s).sim.outcomes == s.outcomes
    decreases |ys| - j
  {
    if j < |ys| {
      var now, end := ys[j].arrival, GroupEnd(ys, j);
      MarkAllSucceeds(ys, j, end, s.trackers[id]);
      StaysComplete(ys, j, s.trackers[id], c.k);
      var ready := if Opens(ys, j) then OpenTime(s, now).value else s;
      var next := HandleGroup(c, ys, j, ready).value;
      assert end < |ys| ==> AtMost(ys[j], ys[end]);
      CompleteIsFinal(c, id, xs, ys, end, next);
    }
  }

  /** What both trackers know once the arrivals of the next time are marked. */
  predicate MarkedAlike(xs: seq<R.ShardArrival>, ys: seq<Event>, id: RequestId, n: nat, i: nat, j: nat,
                        tracker: Arrivals, theirs: Arrivals)
    requires i < |xs| && j < |ys|
  {
    var mine', theirs' := R.MarkTime(xs, i, R.TimeEnd(xs, i), tracker), MarkAll(ys, j, GroupEnd(ys, j), theirs);
    && mine'.Some? && theirs'.Some? && |mine'.value| == |theirs'.value| == n && SameShards(theirs'.value, mine'.value)
    && Knows(xs, R.TimeEnd(xs, i), mine'.value) && TrackerMatches(ys, GroupEnd(ys, j), id, theirs'.value)
  }

  lemma MarksAgree(xs: seq<R.ShardArrival>, ys: seq<Event>, id: RequestId, n: nat, i: nat, j: nat, t: int,
                   tracker: Arrivals, theirs: Arrivals)
    requires SameArrivals(xs, ys, id, n) && SplitAt(xs, ys, i, j, t) && i < |xs|
    requires |tracker| == |theirs| == n && Knows(xs, i, tracker) && TrackerMatches(ys, j, id, theirs)
    ensures j < |ys| && MarkedAlike(xs, ys, id, n, i, j, tracker, theirs)
  {
    NextSplit(xs, ys, id, n, i, j, t);
    var i', j' := R.TimeEnd(xs, i), GroupEnd(ys, j);
    forall p: nat | p < |xs| ensures xs[p].shard < n { InRange(xs, ys, id, n, p); }
    MarkTimeKnows(xs, i, i', tracker);
    MarkAllSucceeds(ys, j, j', theirs);
    MarkAllMatches(ys, j, theirs);
    SplitTrackersAgree(xs, ys, id, n, i', j', xs[i].arrival,
                       R.MarkTime(xs, i, i', tracker).value, MarkAll(ys, j, j', theirs).value);
  }

  lemma TimeAdvances(q: Queue, idle: bool, t: int, now: int)
    requires QueueFits(q) && q.now <= Max(t, 0) && t < now && now >= 0 && (idle ==> Idle(q))
    ensures Advance(q, now).Some? && QueueFits(Advance(q, now).value) && Advance(q, now).value.now == now
    ensures idle ==> Idle(Advance(q, now).value)
  {
    if idle { IdleAdvances(q, now); }
  }

  /** The next time, once the cluster's clock is moved to it. */
  ghost predicate NextReady(c: Config, xs: seq<R.ShardArrival>, ys: seq<Event>, id: RequestId, i: nat, j: nat,
                            tracker: Arrivals, recovery: Option<R.Recovery>, s: Sim, ready: Sim)
    requires id in s.trackers
  {
    && i < |xs| && j < |ys| && Opens(ys, j) && xs[i].arrival == ys[j].arrival >= 0
    && MarkedAlike(xs, ys, id, c.n, i, j, tracker, s.trackers[id])
    && SplitAt(xs, ys, R.TimeEnd(xs, i), GroupEnd(ys, j), xs[i].arrival)
    && Fits(c.n, ready) && ready == s.(queue := ready.queue) && ready.queue.now == xs[i].arrival
    && (recovery.None? ==> Idle(ready.queue))
  }

  /** One time that does not complete the request. */
  lemma StepTogether(c: Config, a: R.Setup, id: RequestId, service: int, xs: seq<R.ShardArrival>, ys: seq<Event>,
                     i: nat, j: nat, t: int, tracker: Arrivals, recovery: Option<R.Recovery>, s: Sim, ready: Sim)
    requires InStep(c, a, id, service, xs, ys, i, j, t, tracker, recovery, s)
    requires NextReady(c, xs, ys, id, i, j, tracker, recovery, s, ready)
    requires !SystematicComplete(c.k, MarkAll(ys, j, GroupEnd(ys, j), s.trackers[id]).value)
    ensures HandleGroup(c, ys, j, ready).Some?
    ensures var mine := R.MarkTime(xs, i, R.TimeEnd(xs, i), tracker).value;
      && (recovery.None? ==> R.Consider(a, mine, xs[i].arrival).Some?)
      && InStep(c, a, id, service, xs, ys, R.TimeEnd(xs, i), GroupEnd(ys, j), xs[i].arrival, mine,
                if recovery.None? then R.Consider(a, mine, xs[i].arrival).value else recovery,
                HandleGroup(c, ys, j, ready).value)
  {
    var mine := R.MarkTime(xs, i, R.TimeEnd(xs, i), tracker).value;
    var theirs := MarkAll(ys, j, GroupEnd(ys, j), s.trackers[id]).value;
    if recovery.None? {
      DecisionsAgree(c, a, id, service, mine, theirs, ready.queue, s.outcomes);
    }
  }

  lemma ClockMoves(c: Config, ys: seq<Event>, j: nat, idle: bool, t: int, s: Sim) returns (ready: Sim)
    requires ValidConfig(c) && Fits(c.n, s) && Tracked(ys, s) && j < |ys| && Opens(ys, j)
    requires s.queue.now <= Max(t, 0) && t < ys[j].arrival && ys[j].arrival >= 0 && (idle ==> Idle(s.queue))
    ensures Fits(c.n, ready) && ready == s.(queue := ready.queue) && ready.queue.now == ys[j].arrival
    ensures idle ==> Idle(ready.queue)
    ensures Rest(c, ys, j, s) == RestOfTime(c, ys, j, ready)
  {
    TimeAdvances(s.queue, idle, t, ys[j].arrival);
    ready := OpenTime(s, ys[j].arrival).value;
  }

  lemma MoveOn(c: Config, a: R.Setup, id: RequestId, service: int, xs: seq<R.ShardArrival>, ys: seq<Event>, i: nat,
               j: nat, t: int, tracker: Arrivals, recovery: Option<R.Recovery>, s: Sim) returns (ready: Sim)
    requires InStep(c, a, id, service, xs, ys, i, j, t, tracker, recovery, s) && i < |xs|
    ensures NextReady(c, xs, ys, id, i, j, tracker, recovery, s, ready)
    ensures Rest(c, ys, j, s) == RestOfTime(c, ys, j, ready)
  {
    NextSplit(xs, ys, id, c.n, i, j, t);
    InRange(xs, ys, id, c.n, i);
    MarksAgree(xs, ys, id, c.n, i, j, t, tracker, s.trackers[id]);
    ready := ClockMoves(c, ys, j, recovery.None?, t, s);
  }

  lemma GoesOn(a: R.Setup, xs: seq<R.ShardArrival>, i: nat, tracker: Arrivals, recovery: Option<R.Recovery>)
    requires a.k <= a.n == |tracker| && i < |xs| && xs[i].arrival >= 0
    requires R.MarkTime(xs, i, R.TimeEnd(xs, i), tracker).Some?
    requires var mine := R.MarkTime(xs, i, R.TimeEnd(xs, i), tracker).value;
      !SystematicComplete(a.k, mine) && (recovery.None? ==> R.Consider(a, mine, xs[i].arrival).Some?)
    ensures var mine := R.MarkTime(xs, i, R.TimeEnd(xs, i), tracker).value;
      R.Continue(a, xs, i, tracker, recovery) ==
        R.Continue(a, xs, R.TimeEnd(xs, i), mine,
                   if recovery.None? then R.Consider(a, mine, xs[i].arrival).value else recovery)
  {}

  /** A time that completes the request ends both simulations. */
  lemma CompleteTogether(c: Config, a: R.Setup, id: RequestId, service: int, xs: seq<R.ShardArrival>, ys: seq<Event>,
                         i: nat, j: nat, t: int, tracker: Arrivals, recovery: Option<R.Recovery>, s: Sim, ready: Sim)
    requires InStep(c, a, id, service, xs, ys, i, j, t, tracker, recovery, s)
    requires NextReady(c, xs, ys, id, i, j, tracker, recovery, s, ready)
    requires SystematicComplete(c.k, MarkAll(ys, j, GroupEnd(ys, j), s.trackers[id]).value)
    ensures RestOfTime(c, ys, j, ready).Finished?
    ensures ResultsAgree(id, R.Continue(a, xs, i, tracker, recovery), RestOfTime(c, ys, j, ready).sim.outcomes)
  {
    var o := s.outcomes.(natural := s.outcomes.natural[id := ys[j].arrival]);
    ClusterCompletes(c, id, xs, ys, j, ready, o);
    assert R.Continue(a, xs, i, tracker, recovery) == Some(R.Finished(xs[i].arrival, recovery));
  }

  lemma ClusterCompletes(c: Config, id: RequestId, xs: seq<R.ShardArrival>, ys: seq<Event>, j: nat, ready: Sim,
                         o: Outcomes)
    requires ValidConfig(c) && SameArrivals(xs, ys, id, c.n) && Fits(c.n, ready) && Tracked(ys, ready) && j < |ys|
    requires id in ready.trackers && id !in ready.outcomes.natural && ready.queue.now == ys[j].arrival
    requires MarkAll(ys, j, GroupEnd(ys, j), ready.trackers[id]).Some?
    requires SystematicComplete(c.k, MarkAll(ys, j, GroupEnd(ys, j), ready.trackers[id]).value)
    requires o == ready.outcomes.(natural := ready.outcomes.natural[id := ys[j].arrival])
    ensures RestOfTime(c, ys, j, ready).Finished? && RestOfTime(c, ys, j, ready).sim.outcomes == o
  {
    var j', next := GroupEnd(ys, j), HandleGroup(c, ys, j, ready);
    assert next.Some? && next.value.outcomes == o && next.value.queue == ready.queue;
    assert j' < |ys| ==> AtMost(ys[j], ys[j']);
    CompleteIsFinal(c, id, xs, ys, j', next.value);
  }

  /** From states in step, both simulators finish with the same result. */
  lemma {:induction false} Lockstep(c: Config, a: R.Setup, id: RequestId, service: int, xs: seq<R.ShardArrival>,
                                    ys: seq<Event>, i: nat, j: nat, t: int, tracker: Arrivals,
                                    recovery: Option<R.Recovery>, s: Sim)
    requires InStep(c, a, id, service, xs, ys, i, j, t, tracker, recovery, s)
    ensures Rest(c, ys, j, s).Finished?
    ensures ResultsAgree(id, R.Continue(a, xs, i, tracker, recovery), Rest(c, ys, j, s).sim.outcomes)
    decreases |xs| - i
  {
    if i == |xs| {
      NextTime(xs, ys, id, c.n, i, j, t);
    } else {
      var ready := MoveOn(c, a, id, service, xs, ys, i, j, t, tracker, recovery, s);
      if SystematicComplete(c.k, MarkAll(ys, j, GroupEnd(ys, j), s.trackers[id]).value) {
        CompleteTogether(c, a, id, service, xs, ys, i, j, t, tracker, recovery, s, ready);
      } else {
        StepTogether(c, a, id, service, xs, ys, i, j, t, tracker, recovery, s, ready);
        var mine, now := R.MarkTime(xs, i, R.TimeEnd(xs, i), tracker).value, xs[i].arrival;
        GoesOn(a, xs, i, tracker, recovery);
        Lockstep(c, a, id, service, xs, ys, R.TimeEnd(xs, i), GroupEnd(ys, j), now, mine,
                 if recovery.None? then R.Consider(a, mine, now).value else recovery,
                 HandleGroup(c, ys, j, ready).value);
      }
    }
  }

  // ---------- the two simulators ----------

  function Tagged(events: seq<R.ShardArrival>, id: RequestId): (r: seq<Event>)
    ensures |r| == |events|
  {
    seq(|events|, i requires 0 <= i < |events| => Event(events[i].arrival, id, events[i].shard, 0))
  }

  lemma OrdersAgree(events: seq<R.ShardArrival>, xs: seq<R.ShardArrival>, ys: seq<Event>, id: RequestId, n: nat)
    requires multiset(xs) == multiset(events) && R.OrderedByTime(xs)
    requires multiset(ys) == multiset(Tagged(events, id)) && Ordered(ys)
    requires forall i | 0 <= i < |events| :: events[i].shard < n && events[i].arrival >= 0
    ensures SameArrivals(xs, ys, id, n)
  {
    var tagged := Tagged(events, id);
    forall i | 0 <= i < |xs| ensures HasEvent(ys, xs[i]) {
      assert xs[i] in multiset(xs) && xs[i] in multiset(events);
      var e :| 0 <= e < |events| && events[e] == xs[i];
      var j := SameElements(tagged, ys, e);
      assert Matches(xs[i], ys[j]);
    }
    forall j | 0 <= j < |ys|
      ensures HasArrival(xs, ys[j]) && ys[j].request == id && ys[j].shard < n && ys[j].arrival >= 0
    {
      var e := SameElements(ys, tagged, j);
      assert events[e] in multiset(events) && events[e] in multiset(xs);
      var i :| 0 <= i < |xs| && xs[i] == events[e];
      assert Matches(xs[i], ys[j]);
    }
  }

  lemma TaggedStarts(events: seq<R.ShardArrival>, id: RequestId)
    requires forall i | 0 <= i < |events| :: events[i].arrival >= 0
    ensures ConsistentStarts(Tagged(events, id))
    ensures RequestsOf(Tagged(events, id)) == if events == [] then {} else {id}
  {
    if events != [] { assert Tagged(events, id)[0].request == id; }
  }

  lemma GraphsAlike(g: BipartiteGraph, service: int, wait: int -> int, id: RequestId)
    requires ValidGraph(g) && service > 0 && forall now: int :: wait(now) >= 0
    ensures Alike(ConfigOf(g, _ => service, (_, now) => wait(now)), R.SetupOf(g, now => R.Costs(wait(now), service)),
                  id, service)
  {
    var c, a := ConfigOf(g, _ => service, (_, now) => wait(now)), R.SetupOf(g, now => R.Costs(wait(now), service));
    forall x: Arrivals, y: Arrivals | SameShards(x, y) && |x| == c.n ensures c.policy(x) == a.policy(y) {
      PlansAgree(g, x, y);
    }
  }

  lemma StartInStep(c: Config, a: R.Setup, id: RequestId, service: int, xs: seq<R.ShardArrival>, ys: seq<Event>,
                    q: Queue)
    requires Alike(c, a, id, service) && SameArrivals(xs, ys, id, c.n) && ys != []
    requires Idle(q) && q.now == 0
    ensures InStep(c, a, id, service, xs, ys, 0, 0, -1, NoArrivals(c.n), None, Start(c.n, ys, q))
  {
    assert ys[0].request == id && id in RequestsOf(ys);
    forall p | 0 <= p < |xs| ensures xs[p].arrival > -1 { InRange(xs, ys, id, c.n, p); }
  }

  /** Both refuse, or both finish with the same latency, win and admission of the one request. */
  predicate SameResult(id: RequestId, alone: Option<R.SimulationMetrics>, cluster: Option<Metrics>) {
    && (cluster.Some? <==> alone.Some?)
    && (cluster.Some? ==> && cluster.value.Keys == {id}
                          && cluster.value[id].latency == alone.value.latency
                          && cluster.value[id].won == alone.value.won
                          && cluster.value[id].admitted == alone.value.recovery.Some?)
  }

  lemma ResultsMeanSame(c: Config, a: R.Setup, id: RequestId, q: Queue, xs: seq<R.ShardArrival>, ys: seq<Event>)
    requires ValidConfig(c) && QueueFits(q) && c.k == a.k && c.n == a.n
    requires ConsistentStarts(ys) && RequestsOf(ys) == {id} && forall j | 0 <= j < |ys| :: ys[j].start == 0
    requires Rest(c, ys, 0, Start(c.n, ys, q)).Finished?
    requires ResultsAgree(id, R.Continue(a, xs, 0, NoArrivals(c.n), None),
                          Rest(c, ys, 0, Start(c.n, ys, q)).sim.outcomes)
    ensures SameResult(id, R.Continue(a, xs, 0, NoArrivals(c.n), None), RunInOrder(c, q, ys).0)
  {
    var i := StartTimesAreStarts(ys, id);
  }

  /** Times are not negative and shards belong to the code. */
  predicate WellFormed(events: seq<R.ShardArrival>, n: nat) {
    forall i | 0 <= i < |events| :: events[i].shard < n && events[i].arrival >= 0
  }

  lemma WellFormedAgree(c: Config, a: R.Setup, id: RequestId, service: int, q: Queue, events: seq<R.ShardArrival>)
    requires Alike(c, a, id, service) && Idle(q) && q.now == 0 && events != [] && WellFormed(events, c.n)
    ensures SameResult(id, R.Simulate(a, events), Outcome(c, q, Tagged(events, id)).0)
  {
    var xs, ys := R.StableSort(events), SortEvents(Tagged(events, id));
    R.StableSortSorts(events);
    SortEventsSorts(Tagged(events, id));
    OrdersAgree(events, xs, ys, id, c.n);
    TaggedStarts(events, id);
    StartsOfPermutation(Tagged(events, id), ys);
    Sweep.SameRequests(Tagged(events, id), ys);
    forall j | 0 <= j < |ys| ensures ys[j].start == 0 { var e := SameElements(ys, Tagged(events, id), j); }
    StartInStep(c, a, id, service, xs, ys, q);
    Lockstep(c, a, id, service, xs, ys, 0, 0, -1, NoArrivals(c.n), None, Start(c.n, ys, q));
    ResultsMeanSame(c, a, id, q, xs, ys);
  }

  // ---------- when the single-request simulator finishes ----------

  ghost predicate ArrivedBy(events: seq<R.ShardArrival>, shard: ShardId, t: int) {
    exists e :: e in events && e.shard == shard && e.arrival <= t
  }

  /** By some time all systematic shards have arrived and no shard outside the code has. */
  ghost predicate CompletesCleanly(events: seq<R.ShardArrival>, k: nat, n: nat) {
    exists t: int :: CleanAt(events, k, n, t)
  }

  ghost predicate CleanAt(events: seq<R.ShardArrival>, k: nat, n: nat, t: int) {
    && (forall shard: ShardId | shard < k :: ArrivedBy(events, shard, t))
    && forall e | e in events && e.arrival <= t :: e.shard < n
  }

  /** The arrivals before index i are marked and do not complete the request. */
  predicate Progress(a: R.Setup, xs: seq<R.ShardArrival>, i: nat, tracker: Arrivals) {
    && a.k <= a.n == |tracker| && i <= |xs| && R.OrderedByTime(xs) && Knows(xs, i, tracker)
    && !SystematicComplete(a.k, tracker)
  }

  /** An incomplete request still has an arrival to come by time t. */
  lemma NextIsInTime(k: nat, xs: seq<R.ShardArrival>, i: nat, tracker: Arrivals, t: int)
    requires k <= |tracker| && i <= |xs| && R.OrderedByTime(xs) && Knows(xs, i, tracker)
    requires !SystematicComplete(k, tracker) && forall shard: ShardId | shard < k :: ArrivedBy(xs, shard, t)
    ensures i < |xs| && xs[i].arrival <= t
  {
    var shard: nat :| shard < k && tracker[shard].None?;
    assert !Seen(xs, i, shard);
    assert ArrivedBy(xs, shard, t);
    var e :| e in xs && e.shard == shard && e.arrival <= t;
    var p :| 0 <= p < |xs| && xs[p] == e;
    assert i <= p;
  }

  lemma CleanSoFar(xs: seq<R.ShardArrival>, i: nat, k: nat, n: nat, t: int)
    requires i < |xs| && xs[i].arrival <= t && CleanAt(xs, k, n, t)
    ensures forall p | i <= p < R.TimeEnd(xs, i) :: xs[p].shard < n
  {
    forall p | i <= p < R.TimeEnd(xs, i) ensures xs[p].shard < n { assert xs[p] in xs; }
  }

  lemma {:induction false} FinishesWhenClean(a: R.Setup, xs: seq<R.ShardArrival>, i: nat, tracker: Arrivals,
                                             recovery: Option<R.Recovery>, t: int)
    requires Progress(a, xs, i, tracker) && CleanAt(xs, a.k, a.n, t)
    requires forall p | 0 <= p < |xs| :: xs[p].arrival >= 0
    requires forall now: int :: a.costs(now).recovery >= 0
    ensures R.Continue(a, xs, i, tracker, recovery).Some?
    decreases |xs| - i
  {
    NextIsInTime(a.k, xs, i, tracker, t);
    CleanSoFar(xs, i, a.k, a.n, t);
    var j, now := R.TimeEnd(xs, i), xs[i].arrival;
    MarkTimeKnows(xs, i, j, tracker);
    var marked := R.MarkTime(xs, i, j, tracker).value;
    if !SystematicComplete(a.k, marked) {
      assert a.costs(now).recovery >= 0;
      FinishesWhenClean(a, xs, j, marked, if recovery.Some? then recovery else R.Consider(a, marked, now).value, t);
    }
  }

  lemma {:induction false} MarkTimeChecks(xs: seq<R.ShardArrival>, i: nat, j: nat, tracker: Arrivals)
    requires i <= j <= |xs| && R.MarkTime(xs, i, j, tracker).Some?
    ensures forall p | i <= p < j :: xs[p].shard < |tracker|
  {
    if i < j { MarkTimeChecks(xs, i, j - 1, tracker); }
  }

  lemma CompleteIsClean(a: R.Setup, xs: seq<R.ShardArrival>, i: nat, marked: Arrivals)
    requires a.k <= a.n == |marked| && i < |xs| && R.OrderedByTime(xs)
    requires Knows(xs, R.TimeEnd(xs, i), marked) && SystematicComplete(a.k, marked)
    requires forall p | 0 <= p < R.TimeEnd(xs, i) :: xs[p].shard < a.n
    ensures CleanAt(xs, a.k, a.n, xs[i].arrival)
  {
    TimeEndSplits(xs, i);
    forall shard: ShardId | shard < a.k ensures ArrivedBy(xs, shard, xs[i].arrival) {
      assert marked[shard].Some?;
      assert Seen(xs, R.TimeEnd(xs, i), shard);
      var p :| 0 <= p < R.TimeEnd(xs, i) && xs[p].shard == shard;
      assert xs[p] in xs;
    }
  }

  lemma {:induction false} CleanWhenFinishes(a: R.Setup, xs: seq<R.ShardArrival>, i: nat, tracker: Arrivals,
                                             recovery: Option<R.Recovery>)
    requires Progress(a, xs, i, tracker)
    requires forall p | 0 <= p < i :: xs[p].shard < a.n
    requires R.Continue(a, xs, i, tracker, recovery).Some?
    ensures CompletesCleanly(xs, a.k, a.n)
    decreases |xs| - i
  {
    var j, now := R.TimeEnd(xs, i), xs[i].arrival;
    MarkTimeChecks(xs, i, j, tracker);
    MarkTimeKnows(xs, i, j, tracker);
    var marked := R.MarkTime(xs, i, j, tracker).value;
    if SystematicComplete(a.k, marked) {
      CompleteIsClean(a, xs, i, marked);
    } else {
      CleanWhenFinishes(a, xs, j, marked, if recovery.Some? then recovery else R.Consider(a, marked, now).value);
    }
  }

  lemma SameElementsSameCleanness(xs: seq<R.ShardArrival>, events: seq<R.ShardArrival>, k: nat, n: nat)
    requires multiset(xs) == multiset(events)
    ensures forall e :: e in xs <==> e in events
    ensures CompletesCleanly(xs, k, n) <==> CompletesCleanly(events, k, n)
  {
    assert forall e :: e in xs <==> e in multiset(xs);
    assert forall e :: e in events <==> e in multiset(events);
    forall t: int ensures CleanAt(xs, k, n, t) <==> CleanAt(events, k, n, t) {
      assert forall shard :: ArrivedBy(xs, shard, t) <==> ArrivedBy(events, shard, t);
    }
  }

  lemma NegativeThrows(a: R.Setup, xs: seq<R.ShardArrival>, e: R.ShardArrival, tracker: Arrivals)
    requires a.k <= a.n == |tracker| && R.OrderedByTime(xs) && e in xs && e.arrival < 0
    ensures R.Continue(a, xs, 0, tracker, None).None?
  {
    var p :| 0 <= p < |xs| && xs[p] == e;
    assert xs[0].arrival <= xs[p].arrival;
  }

  lemma FinishesIffClean(a: R.Setup, xs: seq<R.ShardArrival>, tracker: Arrivals)
    requires Progress(a, xs, 0, tracker) && forall now: int :: a.costs(now).recovery >= 0
    requires forall p | 0 <= p < |xs| :: xs[p].arrival >= 0
    ensures R.Continue(a, xs, 0, tracker, None).Some? <==> CompletesCleanly(xs, a.k, a.n)
  {
    if R.Continue(a, xs, 0, tracker, None).Some? {
      CleanWhenFinishes(a, xs, 0, tracker, None);
    }
    if t: int :| CleanAt(xs, a.k, a.n, t) {
      FinishesWhenClean(a, xs, 0, tracker, None, t);
    }
  }

  /** Alone, a request finishes exactly when no time is negative and it completes before any stray shard arrives. */
  lemma AloneFinishes(a: R.Setup, events: seq<R.ShardArrival>)
    requires 0 < a.k <= a.n && forall now: int :: a.costs(now).recovery >= 0
    ensures R.Simulate(a, events).Some?
      <==> (forall e | e in events :: e.arrival >= 0) && CompletesCleanly(events, a.k, a.n)
  {
    var xs, tracker := R.StableSort(events), NoArrivals(a.n);
    R.StableSortSorts(events);
    SameElementsSameCleanness(xs, events, a.k, a.n);
    if e :| e in events && e.arrival < 0 {
      NegativeThrows(a, xs, e, tracker);
    } else {
      forall p | 0 <= p < |xs| ensures xs[p].arrival >= 0 { assert xs[p] in xs; }
      assert tracker[0].None?;
      FinishesIffClean(a, xs, tracker);
    }
  }

  // ---------- when the cluster simulator cannot finish ----------

  /** A shard outside the code throws whenever it comes, also after completion. */
  lemma {:induction false} StrayThrows(c: Config, ys: seq<Event>, j: nat, s: Sim, stray: nat)
    requires ValidConfig(c) && Fits(c.n, s) && Tracked(ys, s) && j <= stray < |ys| && ys[stray].shard >= c.n
    ensures Rest(c, ys, j, s).Aborted?
    decreases |ys| - j
  {
    var ready := if Opens(ys, j) then OpenTime(s, ys[j].arrival) else Some(s);
    if ready.Some? {
      var end, tracker := GroupEnd(ys, j), ready.value.trackers[ys[j].request];
      if stray < end {
        StrayFails(ys, j, end, tracker, stray);
      } else if HandleGroup(c, ys, j, ready.value).Some? {
        StrayThrows(c, ys, end, HandleGroup(c, ys, j, ready.value).value, stray);
      }
    }
  }

  lemma StrayFails(ys: seq<Event>, i: nat, j: nat, tracker: Arrivals, stray: nat)
    requires i <= stray < j <= |ys| && ys[stray].shard >= |tracker|
    ensures MarkAll(ys, i, j, tracker).None?
  {
    MarkingFailed(ys, i, stray + 1, j, tracker);
  }

  lemma ClusterThrows(c: Config, id: RequestId, q: Queue, events: seq<R.ShardArrival>)
    requires ValidConfig(c) && QueueFits(q) && !WellFormed(events, c.n)
    ensures Outcome(c, q, Tagged(events, id)).0.None?
  {
    var ys := SortEvents(Tagged(events, id));
    SortEventsSorts(Tagged(events, id));
    var i :| 0 <= i < |events| && !(events[i].shard < c.n && events[i].arrival >= 0);
    var j := SameElements(Tagged(events, id), ys, i);
    if ConsistentStarts(ys) {
      StrayThrows(c, ys, 0, Start(c.n, ys, q), j);
    }
  }

  // ---------- exactly where they part ----------

  /**
   * The two inputs they treat differently: no events at all, which only the cluster simulator accepts; and a shard
   * outside the code that comes after the request completed, which only the cluster simulator still looks at.
   */
  ghost predicate Part(g: BipartiteGraph, events: seq<R.ShardArrival>)
    requires ValidGraph(g)
  {
    || events == []
    || (&& (exists e :: e in events && e.shard >= g.k + g.m)
        && (forall e | e in events :: e.arrival >= 0)
        && CompletesCleanly(events, g.k, g.k + g.m))
  }

  lemma AgreeUnlessPart(g: BipartiteGraph, c: Config, a: R.Setup, id: RequestId, service: int, q: Queue,
                        events: seq<R.ShardArrival>)
    requires ValidGraph(g) && Alike(c, a, id, service) && c.k == g.k && c.n == g.k + g.m
    requires Idle(q) && q.now == 0
    ensures SameResult(id, R.Simulate(a, events), Outcome(c, q, Tagged(events, id)).0) <==> !Part(g, events)
  {
    forall now: int ensures a.costs(now).recovery >= 0 { assert c.wait(id, now) == a.costs(now).wait; }
    AloneFinishes(a, events);
    if events == [] {
      EmptyFinishes(c, id, q);
    } else if WellFormed(events, c.n) {
      WellFormedAgree(c, a, id, service, q, events);
      forall e | e in events ensures e.shard < c.n {}
    } else {
      ClusterThrows(c, id, q, events);
      var i :| 0 <= i < |events| && !(events[i].shard < c.n && events[i].arrival >= 0);
      assert events[i] in events;
    }
  }

  lemma EmptyFinishes(c: Config, id: RequestId, q: Queue)
    requires ValidConfig(c) && QueueFits(q)
    ensures Outcome(c, q, Tagged([], id)).0 == Some(map[])
  {
    var ys := SortEvents(Tagged([], id));
    SortEventsSorts(Tagged([], id));
    assert |multiset(ys)| == |ys|;
    assert ys == [];
    assert RequestsOf(ys) == {};
  }

  /**
   * One request, start time 0, an idle queue of depth at least one, a constant positive service time and non-negative
   * wait costs. On every list of events both simulators throw or both finish with the same latency, win and admission,
   * except exactly on the inputs where they part.
   */
  lemma SimulatorsAgree(g: BipartiteGraph, service: int, wait: int -> int, concurrency: nat, maxDepth: nat,
                        events: seq<R.ShardArrival>, id: RequestId)
    requires ValidGraph(g) && service > 0 && concurrency > 0 && maxDepth > 0
    requires forall now: int :: wait(now) >= 0
    ensures SameResult(id, R.Simulate(R.SetupOf(g, now => R.Costs(wait(now), service)), events),
                       Outcome(ConfigOf(g, _ => service, (_, now) => wait(now)), Init(concurrency, maxDepth),
                               Tagged(events, id)).0)
      <==> !Part(g, events)
  {
    var c, a := ConfigOf(g, _ => service, (_, now) => wait(now)), R.SetupOf(g, now => R.Costs(wait(now), service));
    GraphsAlike(g, service, wait, id);
    AgreeUnlessPart(g, c, a, id, service, Init(concurrency, maxDepth), events);
  }
}
