/** The recoveries a cluster simulation admits are jobs of a valid schedule of its queue. */
module RecoverySchedule {
  import opened Shards
  import opened Graphs
  import opened Policy
  import opened Queueing
  import opened Events
  import opened ClusterSimulator
  import opened NaturalCompletion
  import Sweep

  /** No two requests own the same job. */
  predicate Injective(owner: map<RequestId, nat>) {
    forall a, b | a in owner && b in owner && owner[a] == owner[b] :: a == b
  }

  /** The jobs from `prior` on are exactly those the owners have, one each. */
  predicate OwnsAll(jobs: seq<Job>, prior: nat, owner: map<RequestId, nat>) {
    |jobs| == prior + |owner| && (forall id | id in owner :: prior <= owner[id] < |jobs|) && Injective(owner)
  }

  predicate EndsAsPromised(jobs: seq<Job>, recovery: map<RequestId, int>, owner: map<RequestId, nat>) {
    forall id | id in recovery :: id in owner && owner[id] < |jobs| && jobs[owner[id]].end == recovery[id]
  }

  /** Each request with a recovery owns a job that ends when the recovery completes. */
  predicate Owns(jobs: seq<Job>, prior: nat, recovery: map<RequestId, int>, owner: map<RequestId, nat>) {
    OwnsAll(jobs, prior, owner) && owner.Keys == recovery.Keys && EndsAsPromised(jobs, recovery, owner)
  }

  predicate Serves(h: History, prior: nat, q: Queue, recovery: map<RequestId, int>, owner: map<RequestId, nat>) {
    h.queue == q && Owns(h.jobs, prior, recovery, owner)
  }

  lemma InjectiveOneMore(owner: map<RequestId, nat>, id: RequestId, job: nat)
    requires Injective(owner) && forall x | x in owner :: owner[x] != job
    ensures Injective(owner[id := job])
  {}

  lemma OwnsOneMore(jobs: seq<Job>, prior: nat, owner: map<RequestId, nat>, id: RequestId, job: Job)
    requires OwnsAll(jobs, prior, owner) && id !in owner
    ensures OwnsAll(jobs + [job], prior, owner[id := |jobs|])
  {
    var more := owner[id := |jobs|];
    InjectiveOneMore(owner, id, |jobs|);
    assert more.Keys == owner.Keys + {id};
    assert |more| == |more.Keys| && |owner| == |owner.Keys|;
  }

  lemma EndsOneMore(jobs: seq<Job>, recovery: map<RequestId, int>, owner: map<RequestId, nat>, id: RequestId, job: Job)
    requires EndsAsPromised(jobs, recovery, owner) && id !in recovery
    ensures EndsAsPromised(jobs + [job], recovery[id := job.end], owner[id := |jobs|])
  {
    forall x | x in recovery ensures (jobs + [job])[owner[x]].end == recovery[x] {
      assert (jobs + [job])[owner[x]] == jobs[owner[x]];
    }
  }

  lemma ReachSnoc(concurrency: nat, maxDepth: nat, calls: seq<Call>, call: Call)
    requires concurrency > 0
    ensures Reach(concurrency, maxDepth, calls + [call]) == Step(Reach(concurrency, maxDepth, calls), call)
  {
    assert (calls + [call])[..|calls|] == calls;
  }

  /** Admitting a recovery submits one job, which ends at the promised time. */
  lemma AdmittedIsServed(h: History, prior: nat, recovery: map<RequestId, int>, owner: map<RequestId, nat>,
                         id: RequestId, now: int, service: int)
    requires h.queue.slots != [] && h.queue.depth == |h.queue.completions|
    requires Serves(h, prior, h.queue, recovery, owner) && id !in recovery
    requires Quote(h.queue, now, service).Cost?
    ensures Serves(Step(h, SubmitAt(now, service)), prior, Submit(h.queue, now, service).0,
                   recovery[id := now + Quote(h.queue, now, service).cost], owner[id := |h.jobs|])
  {
    var job := NewJob(h.queue, now, service);
    QuoteIsHonest(h, now, service);
    SubmitBooks(h, now, service);
    OwnsOneMore(h.jobs, prior, owner, id, job);
    EndsOneMore(h.jobs, recovery, owner, id, job);
    assert owner[id := |h.jobs|].Keys == recovery[id := job.end].Keys;
  }

  /** Whether a decision admits a recovery. */
  predicate Admits(c: Config, q: Queue, o: Outcomes, tracker: Arrivals, id: RequestId, now: int)
    requires ValidConfig(c) && QueueFits(q) && |tracker| == c.n
  {
    var plan := c.policy(tracker);
    && !SystematicComplete(c.k, tracker) && id !in o.recovery && plan.isRecoverable
    && Quote(q, now, c.service(plan)).Cost?
    && Evaluate(plan, c.wait(id, now), Quote(q, now, c.service(plan)).cost).Recover?
  }

  lemma DecisionCases(c: Config, q: Queue, o: Outcomes, tracker: Arrivals, id: RequestId, now: int)
    requires ValidConfig(c) && QueueFits(q) && |tracker| == c.n && Decide(c, q, o, tracker, id, now).Some?
    ensures var (q', o'), service := Decide(c, q, o, tracker, id, now).value, c.service(c.policy(tracker));
      if Admits(c, q, o, tracker, id, now)
      then && q' == Submit(q, now, service).0
           && o'.recovery == o.recovery[id := now + Quote(q, now, service).cost]
      else q' == q && o'.recovery == o.recovery
  {}

  lemma EitherIsServed(h: History, prior: nat, recovery: map<RequestId, int>, owner: map<RequestId, nat>, id: RequestId,
                       now: int, service: int, admits: bool, q': Queue, recovery': map<RequestId, int>)
    returns (call: Option<Call>, owner': map<RequestId, nat>)
    requires QueueFits(h.queue) && Serves(h, prior, h.queue, recovery, owner)
    requires if admits
             then && id !in recovery && Quote(h.queue, now, service).Cost? && q' == Submit(h.queue, now, service).0
                  && recovery' == recovery[id := now + Quote(h.queue, now, service).cost]
             else q' == h.queue && recovery' == recovery
    ensures Serves(if call.Some? then Step(h, call.value) else h, prior, q', recovery', owner')
  {
    if admits {
      AdmittedIsServed(h, prior, recovery, owner, id, now, service);
      call, owner' := Some(SubmitAt(now, service)), owner[id := |h.jobs|];
    } else {
      call, owner' := None, owner;
    }
  }

  /** A decision leaves queue and recoveries alone, or makes one call that books the request's job. */
  lemma DecisionIsServed(c: Config, h: History, prior: nat, o: Outcomes, owner: map<RequestId, nat>, tracker: Arrivals,
                         id: RequestId, now: int) returns (call: Option<Call>, owner': map<RequestId, nat>)
    requires ValidConfig(c) && QueueFits(h.queue) && |tracker| == c.n
    requires Serves(h, prior, h.queue, o.recovery, owner) && Decide(c, h.queue, o, tracker, id, now).Some?
    ensures var (q', o') := Decide(c, h.queue, o, tracker, id, now).value;
      Serves(if call.Some? then Step(h, call.value) else h, prior, q', o'.recovery, owner')
  {
    DecisionCases(c, h.queue, o, tracker, id, now);
    var d := Decide(c, h.queue, o, tracker, id, now).value;
    call, owner' := EitherIsServed(h, prior, o.recovery, owner, id, now, c.service(c.policy(tracker)),
                                   Admits(c, h.queue, o, tracker, id, now), d.0, d.1.recovery);
  }

  /** The queue at the end is that of a longer history, whether the run finishes or throws. */
  lemma {:induction false} RestIsServed(c: Config, events: seq<Event>, i: nat, s: Sim, prior: nat, concurrency: nat,
                                        maxDepth: nat, calls: seq<Call>, owner: map<RequestId, nat>)
    returns (calls': seq<Call>, owner': map<RequestId, nat>)
    requires ValidConfig(c) && Fits(c.n, s) && Tracked(events, s) && i <= |events| && concurrency > 0
    requires Serves(Reach(concurrency, maxDepth, calls), prior, s.queue, s.outcomes.recovery, owner)
    ensures match Rest(c, events, i, s)
      case Finished(end) =>
        Serves(Reach(concurrency, maxDepth, calls'), prior, end.queue, end.outcomes.recovery, owner')
      case Aborted(left) => Reach(concurrency, maxDepth, calls').queue == left
    decreases |events| - i
  {
    calls', owner' := calls, owner;
    if i < |events| {
      var e, ready := events[i], s;
      if Opens(events, i) {
        if OpenTime(s, e.arrival).None? { return; }
        ready := OpenTime(s, e.arrival).value;
        calls' := calls + [AdvanceTo(e.arrival)];
        ReachSnoc(concurrency, maxDepth, calls, AdvanceTo(e.arrival));
      }
      if HandleGroup(c, events, i, ready).Some? {
        var next := HandleGroup(c, events, i, ready).value;
        calls', owner' := GroupIsServed(c, events, i, ready, prior, concurrency, maxDepth, calls', owner);
        calls', owner' := RestIsServed(c, events, GroupEnd(events, i), next, prior, concurrency, maxDepth,
                                       calls', owner');
      }
    }
  }

  lemma GroupIsServed(c: Config, events: seq<Event>, i: nat, s: Sim, prior: nat, concurrency: nat, maxDepth: nat,
                      calls: seq<Call>, owner: map<RequestId, nat>)
    returns (calls': seq<Call>, owner': map<RequestId, nat>)
    requires ValidConfig(c) && Fits(c.n, s) && Tracked(events, s) && i < |events| && concurrency > 0
    requires Serves(Reach(concurrency, maxDepth, calls), prior, s.queue, s.outcomes.recovery, owner)
    requires HandleGroup(c, events, i, s).Some?
    ensures var next := HandleGroup(c, events, i, s).value;
      Serves(Reach(concurrency, maxDepth, calls'), prior, next.queue, next.outcomes.recovery, owner')
  {
    var e, h := events[i], Reach(concurrency, maxDepth, calls);
    var marked := MarkAll(events, i, GroupEnd(events, i), s.trackers[e.request]).value;
    var call;
    call, owner' := DecisionIsServed(c, h, prior, s.outcomes, owner, marked, e.request, e.arrival);
    calls' := calls;
    if call.Some? {
      ReachSnoc(concurrency, maxDepth, calls, call.value);
      calls' := calls + [call.value];
    }
  }

  /** The requests being recovered at time t. */
  function ServedAt(jobs: seq<Job>, owner: map<RequestId, nat>, t: int): set<RequestId>
    requires forall id | id in owner :: owner[id] < |jobs|
  {
    set id | id in owner && jobs[owner[id]].start <= t < jobs[owner[id]].end
  }

  /** Those whose job is not the last. */
  function Earlier(owner: map<RequestId, nat>, last: nat): (r: map<RequestId, nat>)
    ensures Injective(owner) ==> Injective(r)
  {
    map id | id in owner && owner[id] < last :: owner[id]
  }

  lemma ServedEarlier(jobs: seq<Job>, owner: map<RequestId, nat>, t: int)
    requires jobs != [] && (forall id | id in owner :: owner[id] < |jobs|) && Injective(owner)
    ensures |ServedAt(jobs, owner, t)|
      <= |ServedAt(jobs[..|jobs| - 1], Earlier(owner, |jobs| - 1), t)| + if RunsAt(t)(jobs[|jobs| - 1]) then 1 else 0
  {
    var last := |jobs| - 1;
    var before, now := ServedAt(jobs[..last], Earlier(owner, last), t), ServedAt(jobs, owner, t);
    if id :| id in owner && owner[id] == last {
      assert now <= before + if RunsAt(t)(jobs[last]) then {id} else {};
      SubsetSize(now, before + if RunsAt(t)(jobs[last]) then {id} else {});
    } else {
      SubsetSize(now, before);
    }
  }

  /** Different requests own different jobs, so they are no more than the jobs running. */
  lemma {:induction false} ServedAtMostRunning(jobs: seq<Job>, owner: map<RequestId, nat>, t: int)
    requires (forall id | id in owner :: owner[id] < |jobs|) && Injective(owner)
    ensures |ServedAt(jobs, owner, t)| <= Count(jobs, RunsAt(t))
  {
    if jobs == [] {
      assert ServedAt(jobs, owner, t) == {};
    } else {
      ServedEarlier(jobs, owner, t);
      ServedAtMostRunning(jobs[..|jobs| - 1], Earlier(owner, |jobs| - 1), t);
    }
  }

  /**
   * A request's metrics in terms of events and jobs: it completes naturally at t; it wins exactly when it owns a job
   * that ends before t; and its latency runs from its start to the end of that job, or else to t.
   */
  ghost predicate CompletesAt(events: seq<Event>, k: nat, jobs: seq<Job>, owner: map<RequestId, nat>, id: RequestId,
                              m: RequestMetrics, t: int)
    requires id in owner ==> owner[id] < |jobs|
  {
    && FirstComplete(events, k, id, t)
    && (m.won <==> id in owner && jobs[owner[id]].end < t)
    && forall e | e in events && e.request == id ::
         m.latency == (if m.won then jobs[owner[id]].end else t) - e.start
  }

  ghost predicate ExplainsOne(events: seq<Event>, k: nat, jobs: seq<Job>, owner: map<RequestId, nat>, id: RequestId,
                              m: RequestMetrics)
  {
    && (m.admitted <==> id in owner) && (id in owner ==> owner[id] < |jobs|)
    && exists t: int :: CompletesAt(events, k, jobs, owner, id, m, t)
  }

  /** What a finished run's metrics say in terms of events and jobs. */
  ghost predicate Explains(events: seq<Event>, k: nat, jobs: seq<Job>, owner: map<RequestId, nat>, metrics: Metrics) {
    && metrics.Keys == RequestsOf(events)
    && forall id | id in metrics :: ExplainsOne(events, k, jobs, owner, id, metrics[id])
  }

  lemma StartOf(events: seq<Event>, e: Event)
    requires ConsistentStarts(events) && e in events
    ensures e.request in StartTimes(events) && StartTimes(events)[e.request] == e.start
  {
    var i :| 0 <= i < |events| && events[i] == e;
    assert e.request in RequestsOf(events);
    var j := StartTimesAreStarts(events, e.request);
  }

  lemma OwnerExplains(c: Config, q: Queue, ordered: seq<Event>, jobs: seq<Job>, prior: nat, owner: map<RequestId, nat>,
                      id: RequestId)
    requires ValidConfig(c) && QueueFits(q) && Ordered(ordered) && RunInOrder(c, q, ordered).0.Some?
    requires ConsistentStarts(ordered) && Rest(c, ordered, 0, Start(c.n, ordered, q)).Finished?
    requires Owns(jobs, prior, Rest(c, ordered, 0, Start(c.n, ordered, q)).sim.outcomes.recovery, owner)
    requires id in RunInOrder(c, q, ordered).0.value
    ensures ExplainsOne(ordered, c.k, jobs, owner, id, RunInOrder(c, q, ordered).0.value[id])
  {
    NaturalIsFirstComplete(c, q, ordered);
    var o, m := Rest(c, ordered, 0, Start(c.n, ordered, q)).sim.outcomes, RunInOrder(c, q, ordered).0.value[id];
    forall e | e in ordered && e.request == id ensures StartTimes(ordered)[id] == e.start { StartOf(ordered, e); }
    assert CompletesAt(ordered, c.k, jobs, owner, id, m, o.natural[id]);
  }

  lemma SameEvents(a: seq<Event>, b: seq<Event>)
    requires multiset(a) == multiset(b)
    ensures forall e :: e in a <==> e in b
  {
    assert forall e :: e in a <==> e in multiset(a);
    assert forall e :: e in b <==> e in multiset(b);
  }

  lemma FirstCompletePermutes(a: seq<Event>, b: seq<Event>, k: nat, id: RequestId, t: int)
    requires multiset(a) == multiset(b) && FirstComplete(a, k, id, t)
    ensures FirstComplete(b, k, id, t)
  {
    forall shard: ShardId, u: int ensures ArrivesBy(a, id, shard, u) <==> ArrivesBy(b, id, shard, u) {
      if ArrivesBy(a, id, shard, u) {
        var i :| 0 <= i < |a| && a[i].request == id && a[i].shard == shard && a[i].arrival <= u;
        var j := SameElements(a, b, i);
      }
      if ArrivesBy(b, id, shard, u) {
        var i :| 0 <= i < |b| && b[i].request == id && b[i].shard == shard && b[i].arrival <= u;
        var j := SameElements(b, a, i);
      }
    }
    forall u: int ensures CompleteBy(a, k, id, u) <==> CompleteBy(b, k, id, u) {}
  }

  lemma ExplanationPermutes(a: seq<Event>, b: seq<Event>, k: nat, jobs: seq<Job>, owner: map<RequestId, nat>,
                            id: RequestId, m: RequestMetrics)
    requires multiset(a) == multiset(b) && ExplainsOne(a, k, jobs, owner, id, m)
    ensures ExplainsOne(b, k, jobs, owner, id, m)
  {
    var t: int :| CompletesAt(a, k, jobs, owner, id, m, t);
    FirstCompletePermutes(a, b, k, id, t);
    SameEvents(a, b);
    assert CompletesAt(b, k, jobs, owner, id, m, t);
  }

  lemma AtMostServed(concurrency: nat, maxDepth: nat, calls: seq<Call>, owner: map<RequestId, nat>)
    requires concurrency > 0 && Injective(owner)
    requires forall id | id in owner :: owner[id] < |Reach(concurrency, maxDepth, calls).jobs|
    ensures forall t: int :: |ServedAt(Reach(concurrency, maxDepth, calls).jobs, owner, t)| <= concurrency
  {
    ScheduleIsValid(concurrency, maxDepth, calls);
    forall t: int ensures |ServedAt(Reach(concurrency, maxDepth, calls).jobs, owner, t)| <= concurrency {
      ServedAtMostRunning(Reach(concurrency, maxDepth, calls).jobs, owner, t);
    }
  }

  lemma OrderedRunIsScheduled(c: Config, concurrency: nat, maxDepth: nat, calls: seq<Call>, ordered: seq<Event>)
    returns (calls': seq<Call>, owner: map<RequestId, nat>)
    requires ValidConfig(c) && concurrency > 0 && Ordered(ordered)
    ensures var before, jobs := Reach(concurrency, maxDepth, calls), Reach(concurrency, maxDepth, calls').jobs;
      var (metrics, left) := RunInOrder(c, before.queue, ordered);
      && left == Reach(concurrency, maxDepth, calls').queue
      && (metrics.Some? ==> && OwnsAll(jobs, |before.jobs|, owner) && metrics.value.Keys == RequestsOf(ordered)
                            && forall id | id in metrics.value ::
                                 ExplainsOne(ordered, c.k, jobs, owner, id, metrics.value[id]))
  {
    var before := Reach(concurrency, maxDepth, calls);
    calls', owner := calls, map[];
    if ConsistentStarts(ordered) {
      var start := Start(c.n, ordered, before.queue);
      calls', owner := RestIsServed(c, ordered, 0, start, |before.jobs|, concurrency, maxDepth, calls, owner);
      if Rest(c, ordered, 0, start).Finished? && RunInOrder(c, before.queue, ordered).0.Some? {
        forall id | id in RunInOrder(c, before.queue, ordered).0.value
          ensures ExplainsOne(ordered, c.k, Reach(concurrency, maxDepth, calls').jobs, owner, id,
                              RunInOrder(c, before.queue, ordered).0.value[id])
        {
          OwnerExplains(c, before.queue, ordered, Reach(concurrency, maxDepth, calls').jobs, |before.jobs|, owner, id);
        }
      }
    }
  }

  lemma ExplainsAll(a: seq<Event>, b: seq<Event>, k: nat, jobs: seq<Job>, owner: map<RequestId, nat>, metrics: Metrics)
    requires multiset(a) == multiset(b) && metrics.Keys == RequestsOf(a)
    requires forall id | id in metrics :: ExplainsOne(a, k, jobs, owner, id, metrics[id])
    ensures Explains(b, k, jobs, owner, metrics)
  {
    Sweep.SameRequests(b, a);
    forall id | id in metrics ensures ExplainsOne(b, k, jobs, owner, id, metrics[id]) {
      ExplanationPermutes(a, b, k, jobs, owner, id, metrics[id]);
    }
  }

  /**
   * Whatever the policy, the estimates, the wait oracle and the events: a run on a queue reached by any calls leaves a
   * queue reached by some calls, also when it throws. When it finishes, the admitted requests own distinct jobs of that
   * schedule, one each and none left over; natural completions and jobs explain every request's win and latency; and at
   * no time are more requests being recovered than there are slots.
   */
  lemma RunIsScheduled(c: Config, concurrency: nat, maxDepth: nat, calls: seq<Call>, events: seq<Event>)
    returns (calls': seq<Call>, owner: map<RequestId, nat>)
    requires ValidConfig(c) && concurrency > 0
    ensures var before, jobs := Reach(concurrency, maxDepth, calls), Reach(concurrency, maxDepth, calls').jobs;
      var (metrics, left) := Outcome(c, before.queue, events);
      && left == Reach(concurrency, maxDepth, calls').queue
      && (metrics.Some? ==> && OwnsAll(jobs, |before.jobs|, owner) && Explains(events, c.k, jobs, owner, metrics.value)
                            && forall t: int :: |ServedAt(jobs, owner, t)| <= concurrency)
  {
    SortEventsSorts(events);
    calls', owner := OrderedRunIsScheduled(c, concurrency, maxDepth, calls, SortEvents(events));
    var metrics := Outcome(c, Reach(concurrency, maxDepth, calls).queue, events).0;
    if metrics.Some? {
      AtMostServed(concurrency, maxDepth, calls', owner);
      ExplainsAll(SortEvents(events), events, c.k, Reach(concurrency, maxDepth, calls').jobs, owner, metrics.value);
    }
  }
}
