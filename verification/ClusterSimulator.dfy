/**
 * The discrete-event cluster simulation. The specification goes from group to group, a group being all events of one
 * request at one time: move the queue's clock if the time is new, mark the arrivals, decide.
 */
module ClusterSimulator {
  import opened Shards
  import opened Graphs
  import opened Policy
  import opened Queueing
  import opened Events

  /** Shard counts, the policy's plan for what has arrived, the service-time estimate of a plan, and the wait oracle. */
  datatype Config = Config(k: nat, n: nat, policy: Arrivals -> DecodePlan, service: DecodePlan -> int,
                           wait: (RequestId, int) -> int)

  predicate ValidConfig(c: Config) { 0 < c.k <= c.n }

  /** The configuration of a code graph. */
  function ConfigOf(g: BipartiteGraph, service: DecodePlan -> int, wait: (RequestId, int) -> int): (c: Config)
    requires ValidGraph(g)
    ensures ValidConfig(c)
  {
    Config(g.k, g.k + g.m, (a: Arrivals) => if |a| == g.k + g.m then PlanFor(g, a) else Unrecoverable, service, wait)
  }

  /** What has been decided so far: completion times by request, and who was refused, waited or could not recover. */
  datatype Outcomes = Outcomes(natural: map<RequestId, int>, recovery: map<RequestId, int>,
                               rejected: set<RequestId>, waited: set<RequestId>, unrecoverable: set<RequestId>)

  datatype Sim = Sim(trackers: map<RequestId, Arrivals>, queue: Queue, outcomes: Outcomes)

  datatype RequestMetrics = RequestMetrics(
    latency: int, won: bool, admitted: bool, rejected: bool, waited: bool, unrecoverable: bool)

  predicate QueueFits(q: Queue) {
    q.slots != [] && q.depth == |q.completions|
  }

  predicate Fits(n: nat, s: Sim) {
    QueueFits(s.queue) && forall id | id in s.trackers :: |s.trackers[id]| == n
  }

  /** Weigh a recoverable request's quote against waiting. None stands for an exception. */
  function Price(c: Config, q: Queue, o: Outcomes, id: RequestId, now: int, plan: DecodePlan)
    : (r: Option<(Queue, Outcomes)>)
    requires QueueFits(q) && plan.isRecoverable
    ensures r.Some? ==> QueueFits(r.value.0)
  {
    var service := c.service(plan);
    match Quote(q, now, service)
    case Invalid => None
    case Full => Some((q, o.(rejected := o.rejected + {id})))
    case Cost(cost) =>
      if c.wait(id, now) < 0 then None
      else if Evaluate(plan, c.wait(id, now), cost).Recover? then
        Some((Submit(q, now, service).0, o.(recovery := o.recovery[id := now + cost])))
      else Some((q, o.(waited := o.waited + {id})))
  }

  /** What a request does once everything that arrives for it at `now` has been marked. */
  function Decide(c: Config, q: Queue, o: Outcomes, tracker: Arrivals, id: RequestId, now: int)
    : (r: Option<(Queue, Outcomes)>)
    requires ValidConfig(c) && QueueFits(q) && |tracker| == c.n
    ensures r.Some? ==> QueueFits(r.value.0)
  {
    if SystematicComplete(c.k, tracker) then
      Some((q, if id in o.natural then o else o.(natural := o.natural[id := now])))
    else if id in o.recovery then Some((q, o))
    else
      var plan := c.policy(tracker);
      if plan.isRecoverable then Price(c, q, o, id, now, plan)
      else Some((q, o.(unrecoverable := o.unrecoverable + {id})))
  }

  function Settle(c: Config, s: Sim, id: RequestId, now: int): (r: Option<Sim>)
    requires ValidConfig(c) && Fits(c.n, s) && id in s.trackers
    ensures r.Some? ==> Fits(c.n, r.value) && r.value.trackers == s.trackers
  {
    var d := Decide(c, s.queue, s.outcomes, s.trackers[id], id, now);
    if d.None? then None else Some(s.(queue := d.value.0, outcomes := d.value.1))
  }

  function OpenTime(s: Sim, now: int): (r: Option<Sim>)
    requires QueueFits(s.queue)
    ensures r.Some? ==> QueueFits(r.value.queue) && r.value == s.(queue := r.value.queue)
  {
    if now < 0 then None
    else
      var q := Advance(s.queue, now);
      if q.Some? then Some(s.(queue := q.value)) else None
  }

  predicate Opens(events: seq<Event>, i: nat)
    requires i < |events|
  {
    i == 0 || events[i - 1].arrival != events[i].arrival
  }

  predicate SameGroup(a: Event, b: Event) {
    a.arrival == b.arrival && a.request == b.request
  }

  /** End of the group that starts at i. */
  function GroupEnd(events: seq<Event>, i: nat): (j: nat)
    requires i < |events|
    ensures i < j <= |events|
    ensures forall x | i <= x < j :: SameGroup(events[x], events[i])
    ensures j < |events| ==> !SameGroup(events[j], events[i])
    decreases |events| - i
  {
    if i + 1 < |events| && SameGroup(events[i + 1], events[i]) then GroupEnd(events, i + 1) else i + 1
  }

  /** A tracker after events i, .., j - 1, or None when a shard id is out of range. */
  function MarkAll(events: seq<Event>, i: nat, j: nat, tracker: Arrivals): (r: Option<Arrivals>)
    requires i <= j <= |events|
    ensures r.Some? ==> |r.value| == |tracker|
  {
    if i == j then Some(tracker)
    else
      var before, e := MarkAll(events, i, j - 1, tracker), events[j - 1];
      if before.Some? && e.shard < |tracker| then Some(Mark(before.value, e.shard, e.arrival)) else None
  }

  lemma {:induction false} MarkingFailed(events: seq<Event>, i: nat, m: nat, j: nat, tracker: Arrivals)
    requires i <= m <= j <= |events| && MarkAll(events, i, m, tracker).None?
    ensures MarkAll(events, i, j, tracker).None?
  {
    if m < j { MarkingFailed(events, i, m, j - 1, tracker); }
  }

  predicate Tracked(events: seq<Event>, s: Sim) {
    forall i | 0 <= i < |events| :: events[i].request in s.trackers
  }

  /** The group that starts at i, once the clock is right: mark and decide. */
  function HandleGroup(c: Config, events: seq<Event>, i: nat, s: Sim): (r: Option<Sim>)
    requires ValidConfig(c) && Fits(c.n, s) && Tracked(events, s) && i < |events|
    ensures r.Some? ==> Fits(c.n, r.value) && r.value.trackers.Keys == s.trackers.Keys
  {
    var e := events[i];
    var marked := MarkAll(events, i, GroupEnd(events, i), s.trackers[e.request]);
    if marked.None? then None
    else Settle(c, s.(trackers := s.trackers[e.request := marked.value]), e.request, e.arrival)
  }

  /** How the event loop ends: with a final state, or with an exception that leaves the queue as it is by then. */
  datatype End = Finished(sim: Sim) | Aborted(queue: Queue)

  predicate EndFits(n: nat, s: Sim, end: End) {
    match end
    case Finished(last) => Fits(n, last) && last.trackers.Keys == s.trackers.Keys
    case Aborted(queue) => QueueFits(queue)
  }

  /** The end of the loop when the events from i on are still to come. */
  function Rest(c: Config, events: seq<Event>, i: nat, s: Sim): (end: End)
    requires ValidConfig(c) && Fits(c.n, s) && Tracked(events, s) && i <= |events|
    ensures EndFits(c.n, s, end)
    decreases |events| - i, 1
  {
    if i == |events| then Finished(s)
    else if !Opens(events, i) then RestOfTime(c, events, i, s)
    else
      var ready := OpenTime(s, events[i].arrival);
      if ready.None? then Aborted(s.queue) else RestOfTime(c, events, i, ready.value)
  }

  /** The same when the clock already shows the time of event i. */
  function RestOfTime(c: Config, events: seq<Event>, i: nat, s: Sim): (end: End)
    requires ValidConfig(c) && Fits(c.n, s) && Tracked(events, s) && i < |events|
    ensures EndFits(c.n, s, end)
    decreases |events| - i, 0
  {
    var next := HandleGroup(c, events, i, s);
    if next.None? then Aborted(s.queue) else Rest(c, events, GroupEnd(events, i), next.value)
  }

  /** The end of the loop when the clock shows `now` and the events from i on are still to come. */
  function RestAt(c: Config, events: seq<Event>, i: nat, now: int, s: Sim): End
    requires ValidConfig(c) && Fits(c.n, s) && Tracked(events, s) && i <= |events|
  {
    if i < |events| && events[i].arrival == now then RestOfTime(c, events, i, s) else Rest(c, events, i, s)
  }

  /** Within one time the clock is not moved again. */
  lemma SameTimeGoesOn(c: Config, events: seq<Event>, i: nat, now: int, s: Sim)
    requires ValidConfig(c) && Fits(c.n, s) && Tracked(events, s) && 0 < i <= |events| && events[i - 1].arrival == now
    ensures RestAt(c, events, i, now, s) == Rest(c, events, i, s)
  {
    assert i < |events| && events[i].arrival == now ==> !Opens(events, i);
  }

  /** One group at the time the clock shows. */
  lemma RestAtStep(c: Config, events: seq<Event>, i: nat, now: int, s: Sim)
    requires ValidConfig(c) && Fits(c.n, s) && Tracked(events, s) && i < |events| && events[i].arrival == now
    ensures var next := HandleGroup(c, events, i, s);
      RestAt(c, events, i, now, s) ==
        if next.None? then Aborted(s.queue) else RestAt(c, events, GroupEnd(events, i), now, next.value)
  {
    var j, next := GroupEnd(events, i), HandleGroup(c, events, i, s);
    assert SameGroup(events[j - 1], events[i]);
    if next.Some? { SameTimeGoesOn(c, events, j, now, next.value); }
  }

  function RequestsOf(events: seq<Event>): set<RequestId> {
    set i | 0 <= i < |events| :: events[i].request
  }

  lemma RequestsOfNext(events: seq<Event>, i: nat)
    requires i < |events|
    ensures RequestsOf(events[..i + 1]) == RequestsOf(events[..i]) + {events[i].request}
    ensures StartTimes(events[..i + 1]) ==
      var before := StartTimes(events[..i]);
      if events[i].request in before then before else before[events[i].request := events[i].start]
  {
    assert events[..i + 1][..i] == events[..i] && events[..i + 1][i] == events[i];
  }

  function NewTrackers(n: nat, events: seq<Event>): (t: map<RequestId, Arrivals>)
    ensures t.Keys == RequestsOf(events)
  {
    map id | id in RequestsOf(events) :: NoArrivals(n)
  }

  function Start(n: nat, events: seq<Event>, q: Queue): (s: Sim)
    ensures Tracked(events, s) && (QueueFits(q) ==> Fits(n, s))
  {
    Sim(NewTrackers(n, events), q, Outcomes(map[], map[], {}, {}, {}))
  }

  /** Start times by request; the first event of a request decides. */
  function StartTimes(events: seq<Event>): (r: map<RequestId, int>)
    ensures r.Keys == RequestsOf(events)
  {
    if events == [] then map[]
    else
      var before, e := StartTimes(events[..|events| - 1]), events[|events| - 1];
      assert RequestsOf(events) == RequestsOf(events[..|events| - 1]) + {e.request};
      if e.request in before then before else before[e.request := e.start]
  }

  lemma {:induction false} StartTimesAreStarts(events: seq<Event>, id: RequestId) returns (i: nat)
    requires id in RequestsOf(events)
    ensures i < |events| && events[i].request == id && events[i].start == StartTimes(events)[id]
  {
    var front := events[..|events| - 1];
    if id in StartTimes(front) { i := StartTimesAreStarts(front, id); } else { i := |front|; }
  }

  /** Every event agrees with the recorded start of its request and does not precede it. */
  predicate MatchStarts(events: seq<Event>, n: nat, starts: map<RequestId, int>)
    requires n <= |events|
  {
    forall i | 0 <= i < n :: && events[i].request in starts && starts[events[i].request] == events[i].start
                             && events[i].arrival >= events[i].start
  }

  /** The first i events are registered: a tracker and a start time per request, and every event fits its start. */
  predicate Registered(n: nat, events: seq<Event>, i: nat, trackers: map<RequestId, Arrivals>,
                       starts: map<RequestId, int>)
    requires i <= |events|
  {
    && trackers == NewTrackers(n, events[..i]) && starts == StartTimes(events[..i]) && MatchStarts(events, i, starts)
  }

  lemma RegisterKnown(n: nat, events: seq<Event>, i: nat, trackers: map<RequestId, Arrivals>,
                      starts: map<RequestId, int>)
    requires i < |events| && Registered(n, events, i, trackers, starts)
    requires events[i].request in starts && starts[events[i].request] == events[i].start
    requires events[i].arrival >= events[i].start
    ensures Registered(n, events, i + 1, trackers, starts)
  {
    RequestsOfNext(events, i);
  }

  lemma RegisterNew(n: nat, events: seq<Event>, i: nat, trackers: map<RequestId, Arrivals>, starts: map<RequestId, int>)
    requires i < |events| && Registered(n, events, i, trackers, starts)
    requires events[i].request !in starts && events[i].arrival >= events[i].start
    ensures Registered(n, events, i + 1, trackers[events[i].request := NoArrivals(n)],
                       starts[events[i].request := events[i].start])
  {
    RequestsOfNext(events, i);
    assert trackers[events[i].request := NoArrivals(n)] == NewTrackers(n, events[..i + 1]);
  }

  lemma StartsDiffer(events: seq<Event>, i: nat)
    requires i < |events| && events[i].request in StartTimes(events[..i])
    requires StartTimes(events[..i])[events[i].request] != events[i].start
    ensures !ConsistentStarts(events)
  {
    var j := StartTimesAreStarts(events[..i], events[i].request);
    assert events[j].request == events[i].request && events[j].start != events[i].start;
  }

  lemma AllRegistered(n: nat, events: seq<Event>, trackers: map<RequestId, Arrivals>, starts: map<RequestId, int>)
    requires Registered(n, events, |events|, trackers, starts)
    ensures ConsistentStarts(events) && starts == StartTimes(events) && trackers == NewTrackers(n, events)
  {
    assert events[..|events|] == events;
  }

  /** A request's metrics: natural completion, unless an admitted recovery completed strictly earlier. */
  function MetricsOf(o: Outcomes, id: RequestId, start: int): RequestMetrics
    requires id in o.natural
  {
    var won := id in o.recovery && o.recovery[id] < o.natural[id];
    RequestMetrics((if won then o.recovery[id] else o.natural[id]) - start, won, id in o.recovery,
                   id in o.rejected, id in o.waited, id in o.unrecoverable)
  }

  type Metrics = map<RequestId, RequestMetrics>

  /** None when some request never completed naturally. */
  function Collect(ids: set<RequestId>, o: Outcomes, starts: map<RequestId, int>): Option<Metrics>
    requires starts.Keys == ids
  {
    if forall id | id in ids :: id in o.natural then Some(map id | id in ids :: MetricsOf(o, id, starts[id])) else None
  }

  /** Metrics, if there are any, and the queue left behind, for events already in order. */
  function RunInOrder(c: Config, q: Queue, events: seq<Event>): (Option<Metrics>, Queue)
    requires ValidConfig(c) && QueueFits(q)
  {
    if !ConsistentStarts(events) then (None, q)
    else
      match Rest(c, events, 0, Start(c.n, events, q))
      case Aborted(left) => (None, left)
      case Finished(s) => (Collect(RequestsOf(events), s.outcomes, StartTimes(events)), s.queue)
  }

  function Outcome(c: Config, q: Queue, events: seq<Event>): (Option<Metrics>, Queue)
    requires ValidConfig(c) && QueueFits(q)
  {
    RunInOrder(c, q, SortEvents(events))
  }

  /** Every sorted permutation gives the same run, so the order of the event list never matters. */
  lemma AnySortedPermutation(c: Config, q: Queue, events: seq<Event>, ordered: seq<Event>)
    requires ValidConfig(c) && QueueFits(q)
    requires multiset(ordered) == multiset(events) && Ordered(ordered)
    ensures RunInOrder(c, q, ordered) == Outcome(c, q, events)
  {
    SortEventsSorts(events);
    if ConsistentStarts(ordered) {
      SortedPermutationIsUnique(ordered, SortEvents(events));
    } else if ConsistentStarts(SortEvents(events)) {
      StartsOfPermutation(SortEvents(events), ordered);
    }
  }

  /** The outcome depends only on the multiset of events: the metrics, or an exception, and the queue left behind. */
  lemma OrderIsIrrelevant(c: Config, q: Queue, a: seq<Event>, b: seq<Event>)
    requires ValidConfig(c) && QueueFits(q)
    requires multiset(a) == multiset(b)
    ensures Outcome(c, q, a) == Outcome(c, q, b)
  {
    SortEventsSorts(a);
    AnySortedPermutation(c, q, b, SortEvents(a));
  }

  // ---------- the object ----------

  class ClusterSimulator {
    const graph: BipartiteGraph
    const service: DecodePlan -> int
    const recoveryQueue: RecoveryQueue
    var trackers: map<RequestId, Arrivals>

    ghost predicate Valid()
      reads this, recoveryQueue
    {
      ValidGraph(graph) && recoveryQueue.Valid()
    }

    constructor (graph: BipartiteGraph, recoveryQueue: RecoveryQueue, service: DecodePlan -> int)
      requires ValidGraph(graph) && recoveryQueue.Valid()
      ensures Valid() && this.graph == graph && this.service == service && this.recoveryQueue == recoveryQueue
    {
      this.graph, this.recoveryQueue, this.service, trackers := graph, recoveryQueue, service, map[];
    }

    /** Opens a tracker per request and checks the start times. */
    method Register(n: nat, events: seq<Event>) returns (ok: bool, starts: map<RequestId, int>)
      modifies this
      ensures ok <==> ConsistentStarts(events)
      ensures ok ==> starts == StartTimes(events)
      ensures ok ==> trackers == NewTrackers(n, events)
    {
      trackers, starts := map[], map[];
      for i := 0 to |events|
        invariant Registered(n, events, i, trackers, starts)
      {
        var e := events[i];
        ghost var trackers', starts' := trackers, starts;
        if e.request !in trackers {
          trackers := trackers[e.request := NoArrivals(n)];
          starts := starts[e.request := e.start];
        } else if starts[e.request] != e.start {
          StartsDiffer(events, i);
          return false, starts;
        }
        if e.arrival < e.start { return false, starts; }
        if e.request in starts' {
          RegisterKnown(n, events, i, trackers', starts');
        } else {
          RegisterNew(n, events, i, trackers', starts');
        }
      }
      AllRegistered(n, events, trackers, starts);
      return true, starts;
    }

    /** The decision of one request at the current time. */
    method DecideRequest(c: Config, id: RequestId, now: int, before: Outcomes) returns (ok: bool, outcomes: Outcomes)
      requires Valid() && ValidConfig(c) && id in trackers && |trackers[id]| == c.n
      modifies recoveryQueue, recoveryQueue.slotAvailableTimes
      ensures Valid()
      ensures var d := Decide(c, old(recoveryQueue.View()), before, trackers[id], id, now);
        if ok then d == Some((recoveryQueue.View(), outcomes))
        else d == None && recoveryQueue.View() == old(recoveryQueue.View())
    {
      var tracker := trackers[id];
      outcomes := before;
      if forall i | 0 <= i < c.k :: tracker[i].Some? {
        if id !in outcomes.natural { outcomes := outcomes.(natural := outcomes.natural[id := now]); }
        return true, outcomes;
      }
      if id in outcomes.recovery { return true, outcomes; }
      var plan := c.policy(tracker);
      if !plan.isRecoverable { return true, outcomes.(unrecoverable := outcomes.unrecoverable + {id}); }
      var serviceTime := c.service(plan);
      var quote := recoveryQueue.GetExpectedRecoveryCost(now, serviceTime);
      if quote.Invalid? { return false, outcomes; }
      if quote.Full? { return true, outcomes.(rejected := outcomes.rejected + {id}); }
      var waitCost := c.wait(id, now);
      if waitCost < 0 { return false, outcomes; }
      match Evaluate(plan, waitCost, quote.cost)
      case Recover =>
        var submission := recoveryQueue.SubmitJob(now, serviceTime);
        return true, outcomes.(recovery := outcomes.recovery[id := now + quote.cost]);
      case Wait => return true, outcomes.(waited := outcomes.waited + {id});
    }

    /** Innermost loop: mark all of one request's events at one time. */
    method MarkRequest(ordered: seq<Event>, from: nat) returns (ok: bool, i: nat)
      requires from < |ordered| && ordered[from].request in trackers
      modifies this`trackers
      ensures var id := ordered[from].request;
        var marked := MarkAll(ordered, from, GroupEnd(ordered, from), old(trackers[id]));
        (ok <==> marked.Some?) && (ok ==> i == GroupEnd(ordered, from) && trackers == old(trackers)[id := marked.value])
    {
      var now, id := ordered[from].arrival, ordered[from].request;
      i := from;
      while i < |ordered| && ordered[i].arrival == now && ordered[i].request == id
        invariant from <= i <= GroupEnd(ordered, from) && id in trackers
        invariant MarkAll(ordered, from, i, old(trackers[id])) == Some(trackers[id])
        invariant trackers == old(trackers)[id := trackers[id]]
      {
        var e := ordered[i];
        if e.shard >= |trackers[id]| {
          MarkingFailed(ordered, from, i + 1, GroupEnd(ordered, from), old(trackers[id]));
          return false, i;
        }
        trackers := trackers[id := Mark(trackers[id], e.shard, e.arrival)];
        i := i + 1;
      }
      return true, i;
    }

    /** Middle loop body: one request at one time. */
    method RunRequest(c: Config, ordered: seq<Event>, from: nat, before: Outcomes)
      returns (ok: bool, i: nat, outcomes: Outcomes)
      requires Valid() && ValidConfig(c) && Fits(c.n, Sim(trackers, recoveryQueue.View(), before))
      requires Tracked(ordered, Sim(trackers, recoveryQueue.View(), before)) && from < |ordered|
      modifies this`trackers, recoveryQueue, recoveryQueue.slotAvailableTimes
      ensures Valid()
      ensures ok ==> i == GroupEnd(ordered, from)
      ensures HandleGroup(c, ordered, from, Sim(old(trackers), old(recoveryQueue.View()), before))
        == if ok then Some(Sim(trackers, recoveryQueue.View(), outcomes)) else None
      ensures !ok ==> recoveryQueue.View() == old(recoveryQueue.View())
    {
      outcomes := before;
      ok, i := MarkRequest(ordered, from);
      if ok {
        ok, outcomes := DecideRequest(c, ordered[from].request, ordered[from].arrival, before);
      }
    }

    /** Outer loop body: everything that arrives at one time. */
    method RunTime(c: Config, ordered: seq<Event>, from: nat, before: Outcomes)
      returns (ok: bool, i: nat, outcomes: Outcomes)
      requires Valid() && ValidConfig(c) && Fits(c.n, Sim(trackers, recoveryQueue.View(), before))
      requires Tracked(ordered, Sim(trackers, recoveryQueue.View(), before)) && from < |ordered| && Opens(ordered, from)
      modifies this`trackers, recoveryQueue, recoveryQueue.slotAvailableTimes
      ensures Valid()
      ensures ok ==> from < i <= |ordered| && (i < |ordered| ==> Opens(ordered, i))
      ensures ok ==> Fits(c.n, Sim(trackers, recoveryQueue.View(), outcomes)) && trackers.Keys == old(trackers.Keys)
      ensures Rest(c, ordered, from, Sim(old(trackers), old(recoveryQueue.View()), before))
        == if ok then Rest(c, ordered, i, Sim(trackers, recoveryQueue.View(), outcomes))
           else Aborted(recoveryQueue.View())
    {
      ghost var end := Rest(c, ordered, from, Sim(trackers, recoveryQueue.View(), before));
      i, outcomes := from, before;
      var now := ordered[i].arrival;
      if now < 0 { return false, i, outcomes; }
      ok := recoveryQueue.AdvanceTime(now);
      if !ok { return; }
      while i < |ordered| && ordered[i].arrival == now
        invariant from <= i <= |ordered| && Valid() && trackers.Keys == old(trackers.Keys)
        invariant i == from || ordered[i - 1].arrival == now
        invariant Fits(c.n, Sim(trackers, recoveryQueue.View(), outcomes))
        invariant end == RestAt(c, ordered, i, now, Sim(trackers, recoveryQueue.View(), outcomes))
      {
        RestAtStep(c, ordered, i, now, Sim(trackers, recoveryQueue.View(), outcomes));
        ok, i, outcomes := RunRequest(c, ordered, i, outcomes);
        if !ok { return; }
      }
      return true, i, outcomes;
    }

    /** Outer loop. */
    method RunEvents(c: Config, ordered: seq<Event>, before: Outcomes) returns (ok: bool, outcomes: Outcomes)
      requires Valid() && ValidConfig(c) && Fits(c.n, Sim(trackers, recoveryQueue.View(), before))
      requires Tracked(ordered, Sim(trackers, recoveryQueue.View(), before))
      modifies this`trackers, recoveryQueue, recoveryQueue.slotAvailableTimes
      ensures Valid()
      ensures Rest(c, ordered, 0, Sim(old(trackers), old(recoveryQueue.View()), before))
        == if ok then Finished(Sim(trackers, recoveryQueue.View(), outcomes)) else Aborted(recoveryQueue.View())
    {
      var i := 0;
      ok, outcomes := true, before;
      while i < |ordered|
        invariant i <= |ordered| && Valid() && (i < |ordered| ==> Opens(ordered, i))
        invariant trackers.Keys == old(trackers.Keys)
        invariant Fits(c.n, Sim(trackers, recoveryQueue.View(), outcomes))
        invariant Rest(c, ordered, 0, Sim(old(trackers), old(recoveryQueue.View()), before))
          == Rest(c, ordered, i, Sim(trackers, recoveryQueue.View(), outcomes))
      {
        ok, i, outcomes := RunTime(c, ordered, i, outcomes);
        if !ok { return; }
      }
      return true, outcomes;
    }

    method RunOrdered(c: Config, ordered: seq<Event>) returns (r: Option<Metrics>)
      requires Valid() && ValidConfig(c)
      modifies this, recoveryQueue, recoveryQueue.slotAvailableTimes
      ensures Valid()
      ensures RunInOrder(c, old(recoveryQueue.View()), ordered) == (r, recoveryQueue.View())
    {
      var consistent, starts := Register(c.n, ordered);
      if !consistent { return None; }
      var nothing := Outcomes(map[], map[], {}, {}, {});
      assert Sim(trackers, recoveryQueue.View(), nothing) == Start(c.n, ordered, recoveryQueue.View());
      var ids := trackers.Keys;
      var ok, outcomes := RunEvents(c, ordered, nothing);
      if !ok { return None; }
      return Collect(ids, outcomes, starts);
    }

    /**
     * The event loop over any sorted copy: the metrics, or None for an exception anywhere, and the queue left behind
     * are those of the specified outcome.
     */
    method Run(events: seq<Event>, wait: (RequestId, int) -> int) returns (r: Option<Metrics>)
      requires Valid()
      modifies this, recoveryQueue, recoveryQueue.slotAvailableTimes
      ensures Valid()
      ensures Outcome(ConfigOf(graph, service, wait), old(recoveryQueue.View()), events) == (r, recoveryQueue.View())
    {
      var c := ConfigOf(graph, service, wait);
      var ordered := SortedCopy(events);
      AnySortedPermutation(c, recoveryQueue.View(), events, ordered);
      r := RunOrdered(c, ordered);
    }
  }
}
