/** The single-request simulator: one tracker, a cost oracle, and the first decision to recover. */
module RequestSimulation {
  import opened Shards
  import opened Graphs
  import opened Policy

  datatype ShardArrival = ShardArrival(shard: ShardId, arrival: int)

  datatype Costs = Costs(wait: int, recovery: int)

  datatype Recovery = Recovery(started: int, completed: int)

  datatype SimulationMetrics = SimulationMetrics(natural: int, recovery: Option<Recovery>, latency: int, won: bool)

  predicate OrderedByTime(events: seq<ShardArrival>) {
    forall i, j | 0 <= i < j < |events| :: events[i].arrival <= events[j].arrival
  }

  /** After the last event that is not later. */
  function InsertByTime(events: seq<ShardArrival>, e: ShardArrival): (r: seq<ShardArrival>) {
    if events == [] || events[|events| - 1].arrival <= e.arrival then events + [e]
    else InsertByTime(events[..|events| - 1], e) + [events[|events| - 1]]
  }

  function StableSort(events: seq<ShardArrival>): seq<ShardArrival> {
    if events == [] then [] else InsertByTime(StableSort(events[..|events| - 1]), events[|events| - 1])
  }

  lemma {:induction false} InsertByTimeElements(events: seq<ShardArrival>, e: ShardArrival)
    ensures multiset(InsertByTime(events, e)) == multiset(events) + multiset{e}
  {
    if events != [] && events[|events| - 1].arrival > e.arrival {
      InsertByTimeElements(events[..|events| - 1], e);
      assert events == events[..|events| - 1] + [events[|events| - 1]];
    }
  }

  lemma {:induction false} InsertByTimeBound(events: seq<ShardArrival>, e: ShardArrival, t: int)
    requires e.arrival <= t && forall i | 0 <= i < |events| :: events[i].arrival <= t
    ensures forall i | 0 <= i < |InsertByTime(events, e)| :: InsertByTime(events, e)[i].arrival <= t
  {
    if events != [] { InsertByTimeBound(events[..|events| - 1], e, t); }
  }

  lemma {:induction false} InsertByTimeKeepsOrder(events: seq<ShardArrival>, e: ShardArrival)
    requires OrderedByTime(events)
    ensures OrderedByTime(InsertByTime(events, e))
  {
    if events != [] && events[|events| - 1].arrival > e.arrival {
      InsertByTimeKeepsOrder(events[..|events| - 1], e);
      InsertByTimeBound(events[..|events| - 1], e, events[|events| - 1].arrival);
    }
  }

  lemma {:induction false} StableSortElements(events: seq<ShardArrival>)
    ensures multiset(StableSort(events)) == multiset(events)
  {
    if events != [] {
      var front, last := events[..|events| - 1], events[|events| - 1];
      StableSortElements(front);
      InsertByTimeElements(StableSort(front), last);
      assert events == front + [last];
    }
  }

  lemma {:induction false} StableSortOrders(events: seq<ShardArrival>)
    ensures OrderedByTime(StableSort(events))
  {
    if events != [] {
      StableSortOrders(events[..|events| - 1]);
      InsertByTimeKeepsOrder(StableSort(events[..|events| - 1]), events[|events| - 1]);
    }
  }

  lemma StableSortSorts(events: seq<ShardArrival>)
    ensures multiset(StableSort(events)) == multiset(events) && OrderedByTime(StableSort(events))
  {
    StableSortElements(events);
    StableSortOrders(events);
  }

  /** End of the events that arrive together with event i. */
  function TimeEnd(events: seq<ShardArrival>, i: nat): (j: nat)
    requires i < |events|
    ensures i < j <= |events|
    ensures forall x | i <= x < j :: events[x].arrival == events[i].arrival
    ensures j < |events| ==> events[j].arrival != events[i].arrival
    decreases |events| - i
  {
    if i + 1 < |events| && events[i + 1].arrival == events[i].arrival then TimeEnd(events, i + 1) else i + 1
  }

  function MarkTime(events: seq<ShardArrival>, i: nat, j: nat, tracker: Arrivals): (r: Option<Arrivals>)
    requires i <= j <= |events|
    ensures r.Some? ==> |r.value| == |tracker|
  {
    if i == j then Some(tracker)
    else
      var before, e := MarkTime(events, i, j - 1, tracker), events[j - 1];
      if before.Some? && e.shard < |tracker| then Some(Mark(before.value, e.shard, e.arrival)) else None
  }

  lemma {:induction false} MarkTimeFailed(events: seq<ShardArrival>, i: nat, m: nat, j: nat, tracker: Arrivals)
    requires i <= m <= j <= |events| && MarkTime(events, i, m, tracker).None?
    ensures MarkTime(events, i, j, tracker).None?
  {
    if m < j { MarkTimeFailed(events, i, m, j - 1, tracker); }
  }

  function Finished(now: int, recovery: Option<Recovery>): SimulationMetrics {
    var won := recovery.Some? && recovery.value.completed < now;
    SimulationMetrics(now, recovery, if won then recovery.value.completed else now, won)
  }

  /** Shard counts, the policy's plan for what has arrived, and the cost oracle. */
  datatype Setup = Setup(k: nat, n: nat, policy: Arrivals -> DecodePlan, costs: int -> Costs)

  function SetupOf(g: BipartiteGraph, costs: int -> Costs): Setup
    requires ValidGraph(g)
  {
    Setup(g.k, g.k + g.m, (a: Arrivals) => if |a| == g.k + g.m then PlanFor(g, a) else Unrecoverable, costs)
  }

  /** The decision at one time; the outer None stands for an exception. */
  function Consider(c: Setup, tracker: Arrivals, now: int): Option<Option<Recovery>> {
    var costs := c.costs(now);
    if !Evaluate(c.policy(tracker), costs.wait, costs.recovery).Recover? then Some(None)
    else if costs.recovery < 0 then None
    else Some(Some(Recovery(now, now + costs.recovery)))
  }

  /** The result when the events from i on are still to come. Only the first decision to recover counts. */
  function Continue(c: Setup, events: seq<ShardArrival>, i: nat, tracker: Arrivals, recovery: Option<Recovery>)
    : Option<SimulationMetrics>
    requires c.k <= c.n == |tracker| && i <= |events|
    decreases |events| - i
  {
    if i == |events| || events[i].arrival < 0 then None
    else
      var now, j := events[i].arrival, TimeEnd(events, i);
      var marked := MarkTime(events, i, j, tracker);
      if marked.None? then None
      else if SystematicComplete(c.k, marked.value) then Some(Finished(now, recovery))
      else if recovery.Some? then Continue(c, events, j, marked.value, recovery)
      else
        var decided := Consider(c, marked.value, now);
        if decided.None? then None else Continue(c, events, j, marked.value, decided.value)
  }

  function Simulate(c: Setup, events: seq<ShardArrival>): Option<SimulationMetrics>
    requires c.k <= c.n
  {
    Continue(c, StableSort(events), 0, NoArrivals(c.n), None)
  }

  class RequestSimulation {
    const graph: BipartiteGraph
    const events: seq<ShardArrival>
    const getCosts: int -> Costs

    constructor (graph: BipartiteGraph, events: seq<ShardArrival>, getCosts: int -> Costs)
      requires ValidGraph(graph)
      ensures this.graph == graph && this.events == events && this.getCosts == getCosts
    {
      this.graph, this.events, this.getCosts := graph, events, getCosts;
    }

    /** Inner loop: mark everything that arrives at one time. */
    method MarkArrivals(ordered: seq<ShardArrival>, from: nat, tracker: ShardArrivalTracker) returns (ok: bool, i: nat)
      requires from < |ordered| && tracker.Valid()
      modifies tracker.arrivals
      ensures var marked := MarkTime(ordered, from, TimeEnd(ordered, from), old(tracker.arrivals[..]));
        (ok <==> marked.Some?) && (ok ==> i == TimeEnd(ordered, from) && tracker.arrivals[..] == marked.value)
    {
      i := from;
      while i < |ordered| && ordered[i].arrival == ordered[from].arrival
        invariant from <= i <= TimeEnd(ordered, from)
        invariant MarkTime(ordered, from, i, old(tracker.arrivals[..])) == Some(tracker.arrivals[..])
      {
        ok := tracker.MarkArrived(ordered[i].shard, ordered[i].arrival);
        if !ok {
          MarkTimeFailed(ordered, from, i + 1, TimeEnd(ordered, from), old(tracker.arrivals[..]));
          return;
        }
        i := i + 1;
      }
      return true, i;
    }

    method DecideNow(tracker: ShardArrivalTracker, now: int) returns (ok: bool, recovery: Option<Recovery>)
      requires ValidGraph(graph) && tracker.Valid()
      requires tracker.systematicCount == graph.k && tracker.parityCount == graph.m
      requires !SystematicComplete(graph.k, tracker.arrivals[..])
      ensures Consider(SetupOf(graph, getCosts), tracker.arrivals[..], now) == if ok then Some(recovery) else None
    {
      var costs := getCosts(now);
      var decision := EvaluateTracker(graph, tracker, costs.wait, costs.recovery);
      if !decision.value.Recover? { return true, None; }
      if costs.recovery < 0 { return false, None; }
      return true, Some(Recovery(now, now + costs.recovery));
    }

    method Run() returns (r: Option<SimulationMetrics>)
      requires ValidGraph(graph)
      ensures r == Simulate(SetupOf(graph, getCosts), events)
    {
      ghost var c := SetupOf(graph, getCosts);
      var ordered := StableSort(events);
      var tracker := new ShardArrivalTracker(graph.k, graph.m);
      var recovery: Option<Recovery> := None;
      var i := 0;
      while i < |ordered|
        invariant i <= |ordered| && tracker.Valid() && fresh(tracker) && fresh(tracker.arrivals)
        invariant tracker.systematicCount == graph.k && tracker.parityCount == graph.m
        invariant Continue(c, ordered, i, tracker.arrivals[..], recovery) == Simulate(c, events)
      {
        var now := ordered[i].arrival;
        if now < 0 { return None; }
        var ok;
        ok, i := MarkArrivals(ordered, i, tracker);
        if !ok { return None; }
        var complete := tracker.IsSystematicComplete();
        if complete { return Some(Finished(now, recovery)); }
        if recovery.None? {
          ok, recovery := DecideNow(tracker, now);
          if !ok { return None; }
        }
      }
      return None;
    }
  }
}
