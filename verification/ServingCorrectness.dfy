/** What the serving protocol delivers: the original data, in every reachable state. */
module ServingCorrectness {
  import opened Shards
  import opened Graphs
  import opened Peeling
  import opened Codec
  import opened RoundTrip
  import opened Policy
  import opened Coordinator
  import opened ExecutorEffects
  import opened Protocol
  import opened ProtocolBooks
  import opened ProtocolSafety
  import E = Executor
  import Staging
  import DependencyOrder

  function FilledParity(g: BipartiteGraph, slots: Slots): set<ShardId>
    requires |slots| == g.k + g.m
  {
    set id | id in Range(g.k, g.k + g.m) && slots[id].Some?
  }

  /** The plan a request's shards lead to. */
  function PlanOfSlots(g: BipartiteGraph, slots: Slots): DecodePlan
    requires ValidGraph(g) && |slots| == g.k + g.m
  {
    PlanOf(g, MissingSystematic(g.k, slots), FilledParity(g, slots))
  }

  /** Once arrivals and slots agree, the tracker's plan is the slots' plan. */
  lemma TrackerPlan(g: BipartiteGraph, a: Arrivals, slots: Slots)
    requires ValidGraph(g) && |a| == |slots| == g.k + g.m
    requires forall i | 0 <= i < |slots| :: a[i].Some? <==> slots[i].Some?
    ensures PlanFor(g, a) == PlanOfSlots(g, slots)
  {
    assert Missing(g.k, a) == MissingSystematic(g.k, slots);
    assert ArrivedParity(g, a) == FilledParity(g, slots);
  }

  predicate AllSystematic(k: nat, slots: Slots) {
    k <= |slots| && forall i | 0 <= i < k :: slots[i].Some?
  }

  predicate Recoverable(g: BipartiteGraph, shards: Slots)
    requires ValidGraph(g)
  {
    |shards| == g.k + g.m && PlanOfSlots(g, shards).isRecoverable
  }

  // ---------- what holds of shards and payloads is kept ----------

  /** A property of a request's slots, and the property of payloads that maintains it. */
  datatype Content = Content(slots: (RequestId, Slots) -> bool, payload: (RequestId, ShardId, Shard) -> bool)

  /** Empty slots have it, storing a good payload keeps it, and running the slots' own plan keeps it. */
  ghost predicate IsKept(g: BipartiteGraph, c: Content)
    requires ValidGraph(g)
  {
    && (forall id: RequestId, slots: Slots | slots == Staging.EmptySlots(g.k + g.m) :: c.slots(id, slots))
    && (forall id: RequestId, slots: Slots, i: ShardId, p: Shard |
          c.slots(id, slots) && c.payload(id, i, p) && i < |slots| :: c.slots(id, slots[i := Some(p)]))
    && (forall id: RequestId, slots: Slots | c.slots(id, slots) && Recoverable(g, slots) :: RunKeeps(g, c, id, slots))
  }

  predicate RunKeeps(g: BipartiteGraph, c: Content, id: RequestId, slots: Slots)
    requires ValidGraph(g) && |slots| == g.k + g.m
  {
    var result := Run(PlanOfSlots(g, slots).operations, slots);
    result.Some? ==> c.slots(id, result.value) && AllSystematic(g.k, result.value)
  }

  predicate Planned(g: BipartiteGraph, c: Content, id: RequestId, plan: DecodePlan, shards: Slots)
    requires ValidGraph(g)
  {
    c.slots(id, shards) && Recoverable(g, shards) && plan == PlanOfSlots(g, shards)
  }

  function PlannedTask(g: BipartiteGraph, c: Content): E.Task -> bool
    requires ValidGraph(g)
  {
    (task: E.Task) => Planned(g, c, task.id, task.plan, task.shards)
  }

  predicate HandlerHolds(g: BipartiteGraph, c: Content, h: Handler)
    requires ValidGraph(g)
  {
    match h
    case Storing(id, shard, payload, _) => c.payload(id, shard, payload)
    case Submitting(id, plan, shards) => Planned(g, c, id, plan, shards)
    case _ => true
  }

  predicate RequestHolds(g: BipartiteGraph, c: Content, id: RequestId, r: Request) {
    c.slots(id, r.shards) && (r.status.Recovered? ==> AllSystematic(g.k, r.shards))
  }

  ghost predicate ContentInv(s: System, c: Content)
    requires ValidGraph(s.g)
  {
    && (forall id | id in s.requests :: RequestHolds(s.g, c, id, s.requests[id]))
    && (forall t | t in s.handlers :: HandlerHolds(s.g, c, s.handlers[t]))
    && AllTasks(s.exec, PlannedTask(s.g, c))
  }

  ghost predicate Delivers(c: Content, step: Step) {
    step.Arrive? ==> c.payload(step.id, step.shard, step.payload)
  }

  lemma RecordKeepsContent(s: System, c: Content, tid: nat, waitCost: int)
    requires CanRecord(s, tid) && HandlerFits(s, tid) && RequestFits(s.g, s.requests[s.handlers[tid].id])
    requires IsKept(s.g, c) && ContentInv(s, c)
    ensures ContentInv(RecordStep(s, tid, waitCost), c)
  {
    var h, s' := s.handlers[tid], RecordStep(s, tid, waitCost);
    var r := s.requests[h.id];
    StoreFits(s.g, r, h.shard, h.payload, h.now);
    var stored := Store(r, h.shard, h.payload, h.now);
    TrackerPlan(s.g, stored.arrivals, stored.shards);
    assert HandlerHolds(s.g, c, h);
    assert c.slots(h.id, stored.shards);
    assert s'.requests[h.id].shards == stored.shards && !s'.requests[h.id].status.Recovered?;
    assert AllTasks(s'.exec, PlannedTask(s.g, c));
  }

  lemma CompleteKeepsContent(s: System, c: Content, w: nat)
    requires ValidGraph(s.g) && IsKept(s.g, c) && ContentInv(s, c)
    requires w < |s.exec.workers| && s.exec.workers[w].Completing?
    ensures ContentInv(CompleteStep(s, w), c)
  {
    var task, s' := s.exec.workers[w].task, CompleteStep(s, w);
    assert PlannedTask(s.g, c)(task);
    assert RunKeeps(s.g, c, task.id, task.shards);
    assert AllTasks(s'.exec, PlannedTask(s.g, c));
  }

  lemma SameTasks(e: E.State, e': E.State, p: E.Task -> bool)
    requires AllTasks(e, p) && e'.queue == e.queue && e'.workers == e.workers
    ensures AllTasks(e', p)
  {}

  lemma ArriveLeavesSlots(s: System, tid: nat, id: RequestId, shard: ShardId, payload: Shard, now: int, j: RequestId)
    ensures var s' := ArriveStep(s, tid, id, shard, payload, now);
      j in s'.requests ==> && j in s.requests && s'.requests[j].shards == s.requests[j].shards
                           && s'.requests[j].status == s.requests[j].status
  {}

  lemma ArriveAddsHandler(s: System, tid: nat, id: RequestId, shard: ShardId, payload: Shard, now: int)
    ensures var s' := ArriveStep(s, tid, id, shard, payload, now);
      && s'.g == s.g && s'.exec.queue == s.exec.queue && s'.exec.workers == s.exec.workers
      && (s'.handlers == s.handlers || s'.handlers == s.handlers[tid := Storing(id, shard, payload, now)])
  {}

  lemma HandlersHoldOneMore(g: BipartiteGraph, c: Content, hs: map<nat, Handler>, tid: nat, h: Handler)
    requires ValidGraph(g) && HandlerHolds(g, c, h) && forall t | t in hs :: HandlerHolds(g, c, hs[t])
    ensures var more := hs[tid := h]; forall t | t in more :: HandlerHolds(g, c, more[t])
  {}

  lemma ArriveKeepsContent(s: System, c: Content, tid: nat, id: RequestId, shard: ShardId, payload: Shard, now: int)
    requires ValidGraph(s.g) && ContentInv(s, c) && c.payload(id, shard, payload)
    ensures ContentInv(ArriveStep(s, tid, id, shard, payload, now), c)
  {
    var s' := ArriveStep(s, tid, id, shard, payload, now);
    ArriveAddsHandler(s, tid, id, shard, payload, now);
    SameTasks(s.exec, s'.exec, PlannedTask(s.g, c));
    HandlersHoldOneMore(s.g, c, s.handlers, tid, Storing(id, shard, payload, now));
    forall j | j in s'.requests ensures RequestHolds(s.g, c, j, s'.requests[j]) {
      ArriveLeavesSlots(s, tid, id, shard, payload, now, j);
      assert RequestHolds(s.g, c, j, s.requests[j]);
    }
  }

  lemma OtherStepsKeepContent(s: System, c: Content, step: Step)
    requires ValidGraph(s.g) && ContentInv(s, c) && IsKept(s.g, c) && Next(s, step).Some?
    requires !step.RecordShard? && !step.Complete? && !step.Arrive?
    ensures ContentInv(Next(s, step).value, c)
  {
    var s' := Next(s, step).value;
    NextKeepsTasks(s, step, PlannedTask(s.g, c));
    forall id | id in s'.requests ensures RequestHolds(s.g, c, id, s'.requests[id]) {
      assert id in s.requests ==> RequestHolds(s.g, c, id, s.requests[id]);
    }
    forall t | t in s'.handlers ensures HandlerHolds(s.g, c, s'.handlers[t]) {
      assert HandlerHolds(s.g, c, s.handlers[t]);
    }
  }

  lemma RecordFits(s: System, tid: nat)
    requires Books(s) && CanRecord(s, tid)
    ensures HandlerFits(s, tid) && RequestFits(s.g, s.requests[s.handlers[tid].id])
  {}

  /** Content is kept, as a property of systems. */
  ghost function Keeping(g: BipartiteGraph, c: Content): System -> bool {
    (s: System) => s.g == g && ValidGraph(g) && ContentInv(s, c)
  }

  lemma RecordingKeepsContent(s: System, c: Content, step: Step)
    requires Books(s) && step.RecordShard? && Next(s, step).Some? && IsKept(s.g, c) && Keeping(s.g, c)(s)
    ensures Keeping(s.g, c)(Next(s, step).value)
  {
    RecordFits(s, step.tid);
    RecordKeepsContent(s, c, step.tid, step.waitCost);
  }

  lemma CompletingKeepsContent(s: System, c: Content, step: Step)
    requires step.Complete? && Next(s, step).Some? && ValidGraph(s.g) && IsKept(s.g, c) && Keeping(s.g, c)(s)
    ensures Keeping(s.g, c)(Next(s, step).value)
  {
    CompleteKeepsContent(s, c, step.w);
  }

  lemma ArrivingKeepsContent(s: System, c: Content, step: Step)
    requires step.Arrive? && Next(s, step).Some? && Keeping(s.g, c)(s) && Delivers(c, step)
    ensures Keeping(s.g, c)(Next(s, step).value)
  {
    ArriveKeepsContent(s, c, step.tid, step.id, step.shard, step.payload, step.now);
  }

  lemma OthersKeepContent(s: System, c: Content, step: Step)
    requires !step.RecordShard? && !step.Complete? && !step.Arrive? && Next(s, step).Some?
    requires ValidGraph(s.g) && IsKept(s.g, c) && Keeping(s.g, c)(s)
    ensures Keeping(s.g, c)(Next(s, step).value)
  {
    OtherStepsKeepContent(s, c, step);
  }

  lemma NextKeepsContent(s: System, c: Content, step: Step)
    requires ValidGraph(s.g) && Books(s) && Next(s, step).Some?
    requires IsKept(s.g, c) && Keeping(s.g, c)(s) && Delivers(c, step)
    ensures Keeping(s.g, c)(Next(s, step).value)
  {
    if step.RecordShard? {
      RecordingKeepsContent(s, c, step);
    } else if step.Complete? {
      CompletingKeepsContent(s, c, step);
    } else if step.Arrive? {
      ArrivingKeepsContent(s, c, step);
    } else {
      OthersKeepContent(s, c, step);
    }
  }

  ghost predicate AllDeliver(c: Content, steps: seq<Step>) {
    forall i | 0 <= i < |steps| :: Delivers(c, steps[i])
  }

  lemma {:induction false} ReachKeepsContent(s: System, c: Content, steps: seq<Step>)
    requires Inv(s) && IsKept(s.g, c) && Keeping(s.g, c)(s)
    requires Reach(s, steps).Some? && AllDeliver(c, steps)
    ensures Keeping(s.g, c)(Reach(s, steps).value)
  {
    if steps != [] {
      var front := steps[..|steps| - 1];
      assert forall i | 0 <= i < |front| :: front[i] == steps[i];
      ReachKeepsContent(s, c, front);
      ReachKeepsInv(s, front);
      NextKeepsContent(Reach(s, front).value, c, steps[|steps| - 1]);
    }
  }

  // ---------- recovery yields the original data ----------

  /** The original shards of every request. */
  type Originals = RequestId -> seq<Shard>

  ghost predicate GoodOriginals(g: BipartiteGraph, data: Originals) {
    g.k > 0 && forall id :: |data(id)| == g.k && Uniform(data(id), |data(id)[0]|)
  }

  predicate Holds(g: BipartiteGraph, data: seq<Shard>, slots: Slots)
    requires ValidGraph(g)
  {
    |data| == g.k && Uniform(data, |data[0]|) && HoldsCodeword(g, data, |data[0]|, slots)
  }

  predicate IsCodewordShard(g: BipartiteGraph, data: seq<Shard>, shard: ShardId, payload: Shard)
    requires ValidGraph(g)
  {
    shard < g.k + g.m ==>
      |data| == g.k && Uniform(data, |data[0]|) && payload == CodewordShard(g, data, |data[0]|, shard)
  }

  function CodewordContent(g: BipartiteGraph, data: Originals): Content
    requires ValidGraph(g)
  {
    Content((id: RequestId, slots: Slots) => Holds(g, data(id), slots),
            (id: RequestId, shard: ShardId, payload: Shard) => IsCodewordShard(g, data(id), shard, payload))
  }

  /** Running the plan of codeword shards fills in the original data and keeps every other slot. */
  lemma CodewordRunKeeps(g: BipartiteGraph, data: seq<Shard>, shards: Slots)
    requires ValidGraph(g) && Holds(g, data, shards) && Recoverable(g, shards)
    ensures var result := Run(PlanOfSlots(g, shards).operations, shards);
      result.Some? && Holds(g, data, result.value) && AllSystematic(g.k, result.value)
  {
    ErasureRoundTrip(g, FilledParity(g, shards), data, |data[0]|, shards);
    var done := Run(PlanOfSlots(g, shards).operations, shards).value;
    forall id | 0 <= id < |done| && done[id].Some? ensures done[id].value == CodewordShard(g, data, |data[0]|, id) {
      if id < g.k { assert done[id] == Some(data[id]); } else { assert done[id] == shards[id]; }
    }
    forall i | 0 <= i < g.k ensures done[i].Some? { assert done[i] == Some(data[i]); }
  }

  lemma CodewordIsKept(g: BipartiteGraph, data: Originals)
    requires ValidGraph(g) && GoodOriginals(g, data)
    ensures IsKept(g, CodewordContent(g, data))
  {
    var c := CodewordContent(g, data);
    forall id, slots | c.slots(id, slots) && Recoverable(g, slots) ensures RunKeeps(g, c, id, slots) {
      CodewordRunKeeps(g, data(id), slots);
    }
  }

  /**
   * Data correctness: if every delivered payload is the codeword shard for its id, then in every reachable state each
   * filled slot holds its codeword shard, and a request that completed, naturally or by recovery, has all its
   * systematic slots filled with the original data.
   */
  lemma DeliveredDataIsOriginal(g: BipartiteGraph, concurrency: nat, maxQueueDepth: nat, serviceCost: nat,
                                data: Originals, steps: seq<Step>, id: RequestId)
    requires ValidGraph(g) && concurrency > 0 && GoodOriginals(g, data)
    requires AllDeliver(CodewordContent(g, data), steps)
    requires Reach(Init(g, concurrency, maxQueueDepth, serviceCost), steps).Some?
    requires id in Reach(Init(g, concurrency, maxQueueDepth, serviceCost), steps).value.requests
    ensures var r := Reach(Init(g, concurrency, maxQueueDepth, serviceCost), steps).value.requests[id];
      && HoldsCodeword(g, data(id), |data(id)[0]|, r.shards)
      && (r.status.NaturalComplete? || r.status.Recovered? ==>
            forall i | 0 <= i < g.k :: i < |r.shards| && r.shards[i] == Some(data(id)[i]))
  {
    var start, c := Init(g, concurrency, maxQueueDepth, serviceCost), CodewordContent(g, data);
    InitInv(g, concurrency, maxQueueDepth, serviceCost);
    CodewordIsKept(g, data);
    ReachKeepsContent(start, c, steps);
    ReachKeepsInv(start, steps);
    var s := Reach(start, steps).value;
    assert RequestHolds(g, c, id, s.requests[id]) && RequestFits(g, s.requests[id]);
  }

  predicate Filled(s: System, id: RequestId, i: ShardId) {
    id in s.requests && i < |s.requests[id].shards| && s.requests[id].shards[i].Some?
  }

  lemma CompleteKeepsFilled(s: System, c: Content, w: nat, id: RequestId, i: ShardId)
    requires ValidGraph(s.g) && IsKept(s.g, c) && AllTasks(s.exec, PlannedTask(s.g, c))
    requires w < |s.exec.workers| && s.exec.workers[w].Completing? && Filled(s, id, i) && i < s.g.k
    ensures Filled(CompleteStep(s, w), id, i)
  {
    var task := s.exec.workers[w].task;
    assert PlannedTask(s.g, c)(task);
    assert RunKeeps(s.g, c, task.id, task.shards);
  }

  lemma RecordKeepsFilled(s: System, tid: nat, waitCost: int, id: RequestId, i: ShardId)
    requires CanRecord(s, tid) && Filled(s, id, i)
    ensures Filled(RecordStep(s, tid, waitCost), id, i)
  {}

  lemma ArriveKeepsFilled(s: System, tid: nat, id: RequestId, shard: ShardId, payload: Shard, now: int, j: RequestId,
                          i: ShardId)
    requires Filled(s, j, i)
    ensures Filled(ArriveStep(s, tid, id, shard, payload, now), j, i)
  {}

  lemma NextKeepsFilled(s: System, c: Content, step: Step, id: RequestId, i: ShardId)
    requires ValidGraph(s.g) && IsKept(s.g, c) && AllTasks(s.exec, PlannedTask(s.g, c)) && Next(s, step).Some?
    requires Filled(s, id, i) && i < s.g.k
    ensures Filled(Next(s, step).value, id, i)
  {
    match step
    case RecordShard(tid, waitCost) => RecordKeepsFilled(s, tid, waitCost, id, i);
    case Complete(w) => CompleteKeepsFilled(s, c, w, id, i);
    case Arrive(tid, request, shard, payload, now) => ArriveKeepsFilled(s, tid, request, shard, payload, now, id, i);
    case _ =>
  }

  lemma {:induction false} ReachKeepsFilled(s: System, c: Content, steps: seq<Step>, id: RequestId, i: ShardId)
    requires Inv(s) && IsKept(s.g, c) && Keeping(s.g, c)(s)
    requires Reach(s, steps).Some? && AllDeliver(c, steps)
    requires Filled(s, id, i) && i < s.g.k
    ensures Filled(Reach(s, steps).value, id, i)
  {
    if steps != [] {
      var front := steps[..|steps| - 1];
      assert forall x | 0 <= x < |front| :: front[x] == steps[x];
      ReachKeepsFilled(s, c, front, id, i);
      ReachKeepsContent(s, c, front);
      NextKeepsFilled(Reach(s, front).value, c, steps[|steps| - 1], id, i);
    }
  }

  /** Nothing is asked of payloads, and of slots only their number. */
  function AnyContent(n: nat): Content {
    Content((id: RequestId, slots: Slots) => |slots| == n, (id: RequestId, shard: ShardId, payload: Shard) => true)
  }

  /** An accepted run fills its outputs and keeps what was filled. */
  lemma RunFills(operations: seq<XorOperation>, slots: Slots, i: nat)
    requires Run(operations, slots).Some? && i < |slots| && (slots[i].Some? || i in Outputs(operations))
    ensures |Run(operations, slots).value| == |slots| && Run(operations, slots).value[i].Some?
  {
    DependencyOrder.RunSettles(operations, slots);
    if i in Outputs(operations) {
      var x :| 0 <= x < |operations| && operations[x].output == i;
      assert DependencyOrder.Settled(operations[x], Run(operations, slots).value);
    }
  }

  /** A recoverable plan that runs, on whatever contents, fills every systematic slot. */
  lemma RecoveryFillsSystematic(g: BipartiteGraph, slots: Slots)
    requires ValidGraph(g) && Recoverable(g, slots)
    requires Run(PlanOfSlots(g, slots).operations, slots).Some?
    ensures |Run(PlanOfSlots(g, slots).operations, slots).value| == |slots|
    ensures AllSystematic(g.k, Run(PlanOfSlots(g, slots).operations, slots).value)
  {
    RecoverablePlanPeels(g, MissingSystematic(g.k, slots), FilledParity(g, slots));
    forall i: nat | i < g.k
      ensures |Run(PlanOfSlots(g, slots).operations, slots).value| == |slots|
              && Run(PlanOfSlots(g, slots).operations, slots).value[i].Some?
    {
      RunFills(PlanOfSlots(g, slots).operations, slots, i);
    }
    RunFills(PlanOfSlots(g, slots).operations, slots, 0);
  }

  lemma AnyContentIsKept(g: BipartiteGraph)
    requires ValidGraph(g)
    ensures IsKept(g, AnyContent(g.k + g.m))
  {
    var c := AnyContent(g.k + g.m);
    forall id: RequestId, slots: Slots | c.slots(id, slots) && Recoverable(g, slots) ensures RunKeeps(g, c, id, slots) {
      if Run(PlanOfSlots(g, slots).operations, slots).Some? { RecoveryFillsSystematic(g, slots); }
    }
  }

  /**
   * On every run, whatever the payloads: a systematic slot, once filled, stays filled. (A parity slot need not:
   * recovery replaces the slots by the submitted snapshot, which may lack a parity that arrived later.)
   */
  lemma SystematicStaysFilled(g: BipartiteGraph, concurrency: nat, maxQueueDepth: nat, serviceCost: nat,
                              early: seq<Step>, later: seq<Step>, id: RequestId, i: ShardId)
    requires ValidGraph(g) && concurrency > 0 && i < g.k
    requires var mid := Reach(Init(g, concurrency, maxQueueDepth, serviceCost), early);
      mid.Some? && Filled(mid.value, id, i) && Reach(mid.value, later).Some?
    ensures var mid := Reach(Init(g, concurrency, maxQueueDepth, serviceCost), early).value;
      Filled(Reach(mid, later).value, id, i)
  {
    var start, c := Init(g, concurrency, maxQueueDepth, serviceCost), AnyContent(g.k + g.m);
    InitInv(g, concurrency, maxQueueDepth, serviceCost);
    AnyContentIsKept(g);
    assert ContentInv(start, c);
    ReachKeepsContent(start, c, early);
    ReachKeepsInv(start, early);
    ReachKeepsFilled(Reach(start, early).value, c, later, id, i);
  }
}
