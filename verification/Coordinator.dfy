/** The coordinator's locked sections, as functions on request states and as methods of the object. */
module Coordinator {
  import opened Shards
  import opened Graphs
  import opened Policy
  import Executor
  import Planner
  import Staging

  type RequestId = Executor.RequestId

  datatype Status = Pending | NaturalComplete | Recovered | Failed

  datatype Request = Request(
    arrivals: Arrivals, shards: Slots, status: Status,
    submitted: bool, rejected: bool, closed: bool, lateArrivals: nat, wordCount: nat)

  function NewRequest(n: nat): Request {
    Request(NoArrivals(n), Staging.EmptySlots(n), Pending, false, false, false, 0, 0)
  }

  /** First half of an arrival: what the coordinator decides before it hands the shard to the executor. */
  datatype Reception = Threw | Ignored(request: Request) | Stored(request: Request)

  function Receive(r: Request, shard: ShardId, payload: Shard): Reception {
    if !r.status.Pending? then Ignored(r.(lateArrivals := r.lateArrivals + 1))
    else if shard >= |r.shards| || payload == [] then Threw
    else if r.wordCount != 0 && r.wordCount != |payload| then Threw
    else
      var sized := r.(wordCount := |payload|);
      if r.shards[shard].Some? then Ignored(sized) else Stored(sized)
  }

  datatype Action = NoAction | CancelTask | SubmitTask(plan: DecodePlan, shards: Slots)

  function Store(r: Request, shard: ShardId, payload: Shard, now: int): Request
    requires shard < |r.shards| == |r.arrivals|
  {
    r.(shards := r.shards[shard := Some(payload)], arrivals := Mark(r.arrivals, shard, now))
  }

  /** What to do about a request once a shard is recorded, given the plan for what has arrived. */
  function Decide(k: nat, stored: Request, plan: DecodePlan, estimate: Option<nat>, waitCost: int): (Request, Action)
    requires k <= |stored.arrivals|
  {
    if SystematicComplete(k, stored.arrivals) then (stored.(status := NaturalComplete), CancelTask)
    else if stored.closed || stored.submitted || !plan.isRecoverable then (stored, NoAction)
    else if estimate.None? then (stored.(rejected := true, closed := true), NoAction)
    else if Evaluate(plan, waitCost, estimate.value).Recover? then
      (stored.(submitted := true), SubmitTask(plan, stored.shards))
    else (stored, NoAction)
  }

  /** Second half, still under the lock: record the shard, notice natural completion, or decide to submit once. */
  function Record(g: BipartiteGraph, r: Request, shard: ShardId, payload: Shard, now: int,
                  estimate: Option<nat>, waitCost: int): (Request, Action)
    requires ValidGraph(g) && shard < |r.shards| == |r.arrivals| == g.k + g.m
  {
    var stored := Store(r, shard, payload, now);
    Decide(g.k, stored, PlanFor(g, stored.arrivals), estimate, waitCost)
  }

  /**
   * The decision on a recorded shard, in terms of what has arrived: the request completes when all data is there; an
   * open, unsubmitted request that nothing stops from being recovered is submitted when there is room and recovering is
   * strictly cheaper, and rejected and closed when there is no room.
   */
  ghost function Decided(g: BipartiteGraph, r: Request, shard: ShardId, payload: Shard, now: int, full: bool,
                         cheaper: bool): (Request, Action) -> bool
    requires ValidGraph(g) && shard < |r.shards| == |r.arrivals| == g.k + g.m
  {
    (r': Request, action: Action) =>
      && r'.shards == r.shards[shard := Some(payload)] && |r'.arrivals| == g.k + g.m
      && MarksEarliest(r.arrivals, shard, now, r'.arrivals)
      && DecidedOn(g.k, r, r', PlanFor(g, r'.arrivals), Stopped(g, r'.arrivals), full, cheaper, action)
  }

  predicate MarksEarliest(a: Arrivals, shard: ShardId, now: int, a': Arrivals)
    requires shard < |a|
  {
    && |a'| == |a| && (forall i | 0 <= i < |a| && i != shard :: a'[i] == a[i])
    && a'[shard] == Some(if a[shard].Some? && a[shard].value < now then a[shard].value else now)
  }

  predicate DecidedOn(k: nat, r: Request, r': Request, plan: DecodePlan, stopped: bool, full: bool, cheaper: bool,
                      action: Action)
    requires k <= |r'.arrivals|
  {
    var complete := forall i | 0 <= i < k :: r'.arrivals[i].Some?;
    var mayRecover := !complete && !r.closed && !r.submitted && !stopped;
    && r'.status == (if complete then NaturalComplete else r.status)
    && (r'.rejected <==> r.rejected || (mayRecover && full))
    && (r'.closed <==> r.closed || (mayRecover && full))
    && (r'.submitted <==> r.submitted || (mayRecover && !full && cheaper))
    && r'.wordCount == r.wordCount && r'.lateArrivals == r.lateArrivals
    && action == if complete then CancelTask
                 else if mayRecover && !full && cheaper then SubmitTask(plan, r'.shards) else NoAction
  }

  lemma DecideIsDecided(k: nat, stored: Request, plan: DecodePlan, estimate: Option<nat>, waitCost: int, cheaper: bool)
    requires k <= |stored.arrivals| && (estimate.Some? ==> (cheaper <==> estimate.value < waitCost))
    ensures var (r', action) := Decide(k, stored, plan, estimate, waitCost);
      && r'.arrivals == stored.arrivals && r'.shards == stored.shards
      && DecidedOn(k, stored, r', plan, !plan.isRecoverable, estimate.None?, cheaper, action)
  {}

  lemma RecordIsDecided(g: BipartiteGraph, r: Request, shard: ShardId, payload: Shard, now: int, estimate: Option<nat>,
                        waitCost: int, cheaper: bool)
    requires ValidGraph(g) && shard < |r.shards| == |r.arrivals| == g.k + g.m
    requires estimate.Some? ==> (cheaper <==> estimate.value < waitCost)
    ensures var (r', action) := Record(g, r, shard, payload, now, estimate, waitCost);
      Decided(g, r, shard, payload, now, estimate.None?, cheaper)(r', action)
  {
    var stored := Store(r, shard, payload, now);
    var plan := PlanFor(g, stored.arrivals);
    var (r', action) := Decide(g.k, stored, plan, estimate, waitCost);
    DecideIsDecided(g.k, stored, plan, estimate, waitCost, cheaper);
    PlanForStopped(g, stored.arrivals);
    StoreMarks(r, shard, payload, now);
    assert DecidedOn(g.k, stored, r', plan, Stopped(g, r'.arrivals), estimate.None?, cheaper, action);
    SameDecision(g.k, stored, r, r', plan, Stopped(g, r'.arrivals), estimate.None?, cheaper, action);
  }

  lemma StoreMarks(r: Request, shard: ShardId, payload: Shard, now: int)
    requires shard < |r.shards| == |r.arrivals|
    ensures MarksEarliest(r.arrivals, shard, now, Store(r, shard, payload, now).arrivals)
  {}

  lemma SameDecision(k: nat, stored: Request, r: Request, r': Request, plan: DecodePlan, stopped: bool, full: bool,
                     cheaper: bool, action: Action)
    requires k <= |r'.arrivals| && DecidedOn(k, stored, r', plan, stopped, full, cheaper, action)
    requires stored == r.(shards := stored.shards, arrivals := stored.arrivals)
    ensures DecidedOn(k, r, r', plan, stopped, full, cheaper, action)
  {}

  /** A refused submission closes recovery for a request that is still pending. */
  function NoteRefusal(r: Request): Request {
    if r.status.Pending? then r.(submitted := false, rejected := true, closed := true) else r
  }

  /** Completion callback; a terminal request ignores it. */
  function RecoveryDone(r: Request, result: Option<Slots>): Request {
    if !r.status.Pending? then r
    else if result.None? then r.(status := Failed)
    else r.(shards := result.value, status := Recovered)
  }

  /** Plan from the parities that have arrived and the systematic shards that have not. */
  method PlanArrived(g: BipartiteGraph, arrivals: Arrivals) returns (plan: DecodePlan)
    requires ValidGraph(g) && |arrivals| == g.k + g.m
    ensures plan == PlanFor(g, arrivals)
  {
    EquationIds(g);
    var available := set p | p in g.equations.Keys && arrivals[p].Some?;
    assert available == ArrivedParity(g, arrivals);
    var r := Planner.CreatePlan(g, Missing(g.k, arrivals), available);
    return r.value;
  }

  class RecoveryCoordinator {
    const graph: BipartiteGraph
    var requests: map<RequestId, Request>
    var transportAttached: bool

    constructor (graph: BipartiteGraph)
      requires ValidGraph(graph)
      ensures this.graph == graph && requests == map[] && !transportAttached
    {
      this.graph, requests, transportAttached := graph, map[], false;
    }

    method AttachTransport()
      modifies this`transportAttached
      ensures transportAttached
    {
      transportAttached := true;
    }

    /** Refused without a wait oracle, without a transport, or for an id that is already active. */
    method StartRequest(id: RequestId, hasOracle: bool) returns (ok: bool)
      modifies this`requests
      ensures ok <==> hasOracle && transportAttached && id !in old(requests)
      ensures requests == if ok then old(requests)[id := NewRequest(graph.k + graph.m)] else old(requests)
      ensures ok ==>
        var n := graph.k + graph.m;
        requests[id] == Request(seq(n, _ => None), seq(n, _ => None), Pending, false, false, false, 0, 0)
    {
      if !hasOracle || !transportAttached || id in requests { return false; }
      requests := requests[id := NewRequest(graph.k + graph.m)];
      return true;
    }

    /** Opening of the arrival handler. */
    method ReceiveShard(id: RequestId, shard: ShardId, payload: Shard) returns (r: Reception)
      modifies this`requests
      ensures r == if id in old(requests) then Receive(old(requests)[id], shard, payload) else Threw
      ensures requests == if r.Threw? then old(requests) else old(requests)[id := r.request]
      ensures var known := id in old(requests);
        var wellFormed := known && shard < |old(requests)[id].shards| && payload != []
                          && (old(requests)[id].wordCount == 0 || old(requests)[id].wordCount == |payload|);
        && (r.Threw? <==> !known || (old(requests)[id].status.Pending? && !wellFormed))
        && (r.Stored? <==> wellFormed && old(requests)[id].status.Pending? && old(requests)[id].shards[shard].None?)
      ensures !r.Threw? ==>
        var before := old(requests)[id];
        requests[id] == if before.status.Pending? then before.(wordCount := |payload|)
                        else before.(lateArrivals := before.lateArrivals + 1)
    {
      if id !in requests { return Threw; }
      var request := requests[id];
      if request.status != Pending {
        request := request.(lateArrivals := request.lateArrivals + 1);
        requests := requests[id := request];
        return Ignored(request);
      }
      if shard >= |request.shards| || payload == [] { return Threw; }
      if request.wordCount == 0 {
        request := request.(wordCount := |payload|);
      } else if request.wordCount != |payload| {
        return Threw;
      }
      requests := requests[id := request];
      return if request.shards[shard].Some? then Ignored(request) else Stored(request);
    }

    /** Rest of the locked section, after the executor has been given the shard. */
    method RecordShard(id: RequestId, shard: ShardId, payload: Shard, now: int, executor: Executor.CudaRecoveryExecutor,
                       waitCost: int)
      returns (action: Action)
      requires ValidGraph(graph) && id in requests && executor.concurrency > 0
      requires shard < |requests[id].shards| == |requests[id].arrivals| == graph.k + graph.m
      modifies this`requests
      ensures (requests, action) ==
        var (request, decided) := Record(graph, old(requests)[id], shard, payload, now,
                                         Executor.EstimateRecoveryCost(executor.View()), waitCost);
        (old(requests)[id := request], decided)
      ensures requests.Keys == old(requests).Keys
      ensures forall j | j in requests && j != id :: requests[j] == old(requests)[j]
      ensures var estimate := Executor.EstimateRecoveryCost(executor.View());
        Decided(graph, old(requests)[id], shard, payload, now, estimate.None?,
                estimate.Some? && estimate.value < waitCost)(requests[id], action)
    {
      ghost var estimate := Executor.EstimateRecoveryCost(executor.View());
      RecordIsDecided(graph, requests[id], shard, payload, now, estimate, waitCost,
                      estimate.Some? && estimate.value < waitCost);
      var request := requests[id];
      request := request.(shards := request.shards[shard := Some(payload)]);
      request := request.(arrivals := Mark(request.arrivals, shard, now));
      request, action := DecideStored(request, executor, waitCost);
      requests := requests[id := request];
    }

    method DecideStored(stored: Request, executor: Executor.CudaRecoveryExecutor, waitCost: int)
      returns (request: Request, action: Action)
      requires ValidGraph(graph) && executor.concurrency > 0 && |stored.arrivals| == graph.k + graph.m
      ensures (request, action) == Decide(graph.k, stored, PlanFor(graph, stored.arrivals),
                                          Executor.EstimateRecoveryCost(executor.View()), waitCost)
    {
      request, action := stored, NoAction;
      if forall i | 0 <= i < graph.k :: request.arrivals[i].Some? {
        request := request.(status := NaturalComplete);
        action := CancelTask;
      } else if !request.closed && !request.submitted {
        var plan := PlanArrived(graph, request.arrivals);
        if plan.isRecoverable {
          var estimate := executor.EstimateCost();
          if estimate.None? {
            request := request.(rejected := true, closed := true);
          } else if Evaluate(plan, waitCost, estimate.value).Recover? {
            request := request.(submitted := true);
            action := SubmitTask(plan, request.shards);
          }
        }
      }
    }

    /** After an accepted submission: did the request complete naturally in the meantime? */
    method CompletedNaturally(id: RequestId) returns (natural: bool)
      requires id in requests
      ensures natural <==> requests[id].status.NaturalComplete?
    {
      natural := requests[id].status == NaturalComplete;
    }

    method SubmissionRefused(id: RequestId)
      requires id in requests
      modifies this`requests
      ensures requests == old(requests)[id := NoteRefusal(old(requests)[id])]
      ensures var before := old(requests)[id];
        requests[id] == if before.status.Pending? then before.(submitted := false, rejected := true, closed := true)
                        else before
    {
      if requests[id].status == Pending {
        requests := requests[id := requests[id].(submitted := false, rejected := true, closed := true)];
      }
      assert requests == old(requests)[id := NoteRefusal(old(requests)[id])];
    }

    method OnRecoveryComplete(id: RequestId, result: Option<Slots>)
      modifies this`requests
      ensures requests == if id in old(requests) then old(requests)[id := RecoveryDone(old(requests)[id], result)]
                          else old(requests)
      ensures id in old(requests) ==>
        var before := old(requests)[id];
        requests[id] == if !before.status.Pending? then before
                        else if result.None? then before.(status := Failed)
                        else before.(shards := result.value, status := Recovered)
    {
      if id !in requests { return; }
      var request := requests[id];
      if request.status == Pending {
        if result.None? {
          request := request.(status := Failed);
        } else {
          request := request.(shards := result.value, status := Recovered);
        }
        requests := requests[id := request];
      }
      assert requests == old(requests)[id := RecoveryDone(old(requests)[id], result)];
    }
  }
}
