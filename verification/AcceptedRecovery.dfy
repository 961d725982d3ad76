/** When an accepted recovery succeeds: exactly when no shard was received between the decision and the submission. */
module AcceptedRecovery {
  import opened Shards
  import opened Graphs
  import opened Peeling
  import opened Codec
  import opened RoundTrip
  import opened Coordinator
  import opened ExecutorEffects
  import opened Protocol
  import opened ProtocolBooks
  import opened ProtocolSafety
  import opened ServingCorrectness
  import E = Executor
  import DependencyOrder
  import Staging

  /** Every filled slot holds n > 0 words. */
  predicate Even(slots: Slots, n: nat) {
    n > 0 && forall i | 0 <= i < |slots| && slots[i].Some? :: |slots[i].value| == n
  }

  /** The plan is the one these equal-sized shards lead to, and it recovers. */
  ghost predicate Decided(g: BipartiteGraph, plan: DecodePlan, shards: Slots)
    requires ValidGraph(g)
  {
    Recoverable(g, shards) && plan == PlanOfSlots(g, shards) && exists n :: Even(shards, n)
  }

  lemma DecidedPlanRuns(g: BipartiteGraph, plan: DecodePlan, shards: Slots)
    requires ValidGraph(g) && Decided(g, plan, shards)
    ensures ValidShape(plan) && Run(plan.operations, shards).Some?
  {
    var n :| Even(shards, n);
    var missing, avail := MissingSystematic(g.k, shards), FilledParity(g, shards);
    RecoverablePlanShape(g, missing, avail);
    DependencyOrder.ProducedPlanRuns(g, missing, avail, n, shards);
  }

  /** Everything in `some` is still in `more`. */
  predicate Extends(some: Slots, more: Slots) {
    |some| == |more| && forall i | 0 <= i < |some| && some[i].Some? :: more[i] == some[i]
  }

  ghost predicate DecisionHolds(s: System, h: Handler)
    requires ValidGraph(s.g)
  {
    h.Submitting? && h.id in s.requests ==>
      && Decided(s.g, h.plan, h.shards)
      && (s.requests[h.id].status.Pending? ==> Extends(h.shards, s.requests[h.id].shards))
  }

  ghost predicate DecisionsHold(s: System)
    requires ValidGraph(s.g)
  {
    forall t | t in s.handlers :: DecisionHolds(s, s.handlers[t])
  }

  lemma RecordDecides(s: System, tid: nat, waitCost: int)
    requires CanRecord(s, tid) && HandlerFits(s, tid) && RequestFits(s.g, s.requests[s.handlers[tid].id])
    ensures var s' := RecordStep(s, tid, waitCost);
      tid in s'.handlers ==> DecisionHolds(s', s'.handlers[tid])
  {
    var h, s' := s.handlers[tid], RecordStep(s, tid, waitCost);
    var r := s.requests[h.id];
    StoreFits(s.g, r, h.shard, h.payload, h.now);
    var stored := Store(r, h.shard, h.payload, h.now);
    TrackerPlan(s.g, stored.arrivals, stored.shards);
    assert Even(stored.shards, r.wordCount);
  }

  lemma RecordingStores(s: System, tid: nat, waitCost: int)
    requires CanRecord(s, tid)
    ensures var h, s' := s.handlers[tid], RecordStep(s, tid, waitCost);
      && s'.g == s.g && s'.requests.Keys == s.requests.Keys
      && s'.requests[h.id].shards == s.requests[h.id].shards[h.shard := Some(h.payload)]
      && (s'.requests[h.id].status.Pending? ==> s.requests[h.id].status.Pending?)
      && forall id | id in s.requests && id != h.id :: s'.requests[id] == s.requests[id]
  {}

  lemma RecordKeepsDecision(s: System, tid: nat, waitCost: int, h: Handler)
    requires CanRecord(s, tid) && HandlerFits(s, tid) && DecisionHolds(s, h)
    requires h.Submitting? ==> h.id in s.requests
    ensures DecisionHolds(RecordStep(s, tid, waitCost), h)
  {
    RecordingStores(s, tid, waitCost);
  }

  /** A request that is pending after a change was pending before, with the same shards. */
  predicate ShardsKept(s: System, s': System, id: RequestId)
    requires id in s.requests
  {
    id in s'.requests && (s'.requests[id].status.Pending? ==>
      s.requests[id].status.Pending? && s'.requests[id].shards == s.requests[id].shards)
  }

  lemma RecordLeavesOthers(s: System, tid: nat, waitCost: int, id: RequestId)
    requires CanRecord(s, tid) && id in s.requests && id != s.handlers[tid].id
    ensures ShardsKept(s, RecordStep(s, tid, waitCost), id)
  {}

  /** A pending request's shards change only when a handler records one. */
  lemma ShardsChangeByRecording(s: System, step: Step, id: RequestId)
    requires Next(s, step).Some? && id in s.requests && (step.RecordShard? ==> s.handlers[step.tid].id != id)
    ensures ShardsKept(s, Next(s, step).value, id)
  {
    if step.RecordShard? { RecordLeavesOthers(s, step.tid, step.waitCost, id); }
  }

  /** Handlers start submitting only by recording. */
  lemma SubmittersComeFromRecording(s: System, step: Step, t: nat)
    requires Next(s, step).Some? && t in Next(s, step).value.handlers && Next(s, step).value.handlers[t].Submitting?
    ensures t in s.handlers
    ensures (step.RecordShard? && step.tid == t) || s.handlers[t] == Next(s, step).value.handlers[t]
  {}

  lemma RecordingKeepsDecision(s: System, tid: nat, waitCost: int, t: nat)
    requires ValidGraph(s.g) && Requests(s) && CanRecord(s, tid) && HandlerFits(s, tid)
    requires t in s.handlers && DecisionHolds(s, s.handlers[t]) && s.handlers[t].id in s.requests
    requires t in RecordStep(s, tid, waitCost).handlers
    ensures DecisionHolds(RecordStep(s, tid, waitCost), RecordStep(s, tid, waitCost).handlers[t])
  {
    if t == tid { RecordDecides(s, t, waitCost); } else { RecordKeepsDecision(s, tid, waitCost, s.handlers[t]); }
  }

  lemma OthersKeepDecision(s: System, step: Step, t: nat)
    requires ValidGraph(s.g) && Next(s, step).Some? && !step.RecordShard? && t in s.handlers
    requires t in Next(s, step).value.handlers && s.handlers[t] == Next(s, step).value.handlers[t]
    requires DecisionHolds(s, s.handlers[t]) && s.handlers[t].id in s.requests && Next(s, step).value.g == s.g
    ensures DecisionHolds(Next(s, step).value, s.handlers[t])
  {
    ShardsChangeByRecording(s, step, s.handlers[t].id);
  }

  /** The decision of handler t still holds, as a property of systems. */
  ghost function Deciding(g: BipartiteGraph, t: nat): System -> bool {
    (s: System) => s.g == g && ValidGraph(g) && (t in s.handlers ==> DecisionHolds(s, s.handlers[t]))
  }

  lemma NextRecordingKeepsDecision(s: System, step: Step, t: nat)
    requires ValidGraph(s.g) && Books(s) && DecisionsHold(s) && Next(s, step).Some? && step.RecordShard?
    requires t in s.handlers && t in Next(s, step).value.handlers
    ensures Deciding(s.g, t)(Next(s, step).value)
  {
    assert HandlerFits(s, t) && HandlerFits(s, step.tid);
    RecordingKeepsDecision(s, step.tid, step.waitCost, t);
  }

  lemma NextOtherKeepsDecision(s: System, step: Step, t: nat)
    requires ValidGraph(s.g) && Books(s) && DecisionsHold(s) && Next(s, step).Some? && !step.RecordShard?
    requires t in s.handlers && t in Next(s, step).value.handlers && s.handlers[t] == Next(s, step).value.handlers[t]
    ensures Deciding(s.g, t)(Next(s, step).value)
  {
    assert HandlerFits(s, t);
    OthersKeepDecision(s, step, t);
  }

  lemma NextKeepsDecision(s: System, step: Step, t: nat)
    requires ValidGraph(s.g) && Books(s) && DecisionsHold(s) && Next(s, step).Some?
    requires t in Next(s, step).value.handlers && Next(s, step).value.handlers[t].Submitting?
    ensures Deciding(s.g, t)(Next(s, step).value)
  {
    SubmittersComeFromRecording(s, step, t);
    if step.RecordShard? {
      NextRecordingKeepsDecision(s, step, t);
    } else {
      NextOtherKeepsDecision(s, step, t);
    }
  }

  lemma NextKeepsDecisions(s: System, step: Step)
    requires ValidGraph(s.g) && Books(s) && DecisionsHold(s) && Next(s, step).Some?
    ensures Next(s, step).value.g == s.g && DecisionsHold(Next(s, step).value)
  {
    var s' := Next(s, step).value;
    forall t | t in s'.handlers && s'.handlers[t].Submitting? ensures DecisionHolds(s', s'.handlers[t]) {
      NextKeepsDecision(s, step, t);
    }
  }

  /** Every reachable state satisfies the protocol invariant, and every pending decision in it still holds. */
  lemma {:induction false} ReachKeepsDecisions(s: System, steps: seq<Step>)
    requires Inv(s) && DecisionsHold(s) && Reach(s, steps).Some?
    ensures Inv(Reach(s, steps).value) && DecisionsHold(Reach(s, steps).value) && Reach(s, steps).value.g == s.g
  {
    if steps != [] {
      var front := steps[..|steps| - 1];
      ReachKeepsDecisions(s, front);
      NextKeepsDecisions(Reach(s, front).value, steps[|steps| - 1]);
      NextKeepsInv(Reach(s, front).value, steps[|steps| - 1]);
    }
  }

  lemma ReachableDecisionsHold(g: BipartiteGraph, concurrency: nat, maxQueueDepth: nat, serviceCost: nat,
                               steps: seq<Step>)
    requires ValidGraph(g) && concurrency > 0
    requires Reach(Init(g, concurrency, maxQueueDepth, serviceCost), steps).Some?
    ensures var s := Reach(Init(g, concurrency, maxQueueDepth, serviceCost), steps).value;
      Inv(s) && DecisionsHold(s) && s.g == g
  {
    InitInv(g, concurrency, maxQueueDepth, serviceCost);
    ReachKeepsDecisions(Init(g, concurrency, maxQueueDepth, serviceCost), steps);
  }

  // ---------- the fate of one submission ----------

  /** A submission whose request, still pending, has received a shard the submitted snapshot lacks. */
  predicate IsStale(s: System, step: Step, id: RequestId) {
    && step.CallSubmit? && step.tid in s.handlers
    && s.handlers[step.tid].Submitting? && s.handlers[step.tid].id == id
    && id in s.requests && s.requests[id].status.Pending?
    && Effective(s.requests[id], StoringOf(s, id)) != s.handlers[step.tid].shards
  }

  /** A handler is about to submit for a request that is still pending. */
  predicate CanSubmit(s: System, tid: nat) {
    && tid in s.handlers && s.handlers[tid].Submitting?
    && s.handlers[tid].id in s.requests && s.requests[s.handlers[tid].id].status.Pending?
  }

  /** The task a submission would enqueue. */
  function NewTask(s: System, h: Handler): E.Task
    requires h.Submitting?
  {
    E.Task(h.id, |s.exec.accepted|, h.plan, h.shards, if h.id in s.exec.staged then s.exec.staged[h.id] else h.shards)
  }

  lemma FreshTasksSucceed(s: System, tid: nat)
    requires Inv(s) && DecisionsHold(s)
    requires CanSubmit(s, tid)
    ensures E.ResultOf(NewTask(s, s.handlers[tid])).Some? <==> !IsStale(s, CallSubmit(tid), s.handlers[tid].id)
  {
    var h := s.handlers[tid];
    assert HandlerFits(s, tid) && DecisionHolds(s, h) && ProfileFits(N(s), ProfileOf(s, h.id));
    DecidedPlanRuns(s.g, h.plan, h.shards);
    var slots := Effective(s.requests[h.id], StoringOf(s, h.id));
    if h.id !in s.exec.staged {
      assert slots == Staging.EmptySlots(N(s));
      EffectiveExtends(s, tid);
      assert h.shards == slots;
    }
  }

  /**
   * In every reachable state, the task that a pending request's handler submits yields a result if and only if the
   * submission is not stale.
   */
  lemma TaskSucceedsUnlessStale(g: BipartiteGraph, concurrency: nat, maxQueueDepth: nat, serviceCost: nat,
                                steps: seq<Step>, tid: nat)
    requires ValidGraph(g) && concurrency > 0
    requires var end := Reach(Init(g, concurrency, maxQueueDepth, serviceCost), steps);
      end.Some? && CanSubmit(end.value, tid)
    ensures var s := Reach(Init(g, concurrency, maxQueueDepth, serviceCost), steps).value;
      E.ResultOf(NewTask(s, s.handlers[tid])).Some? <==> !IsStale(s, CallSubmit(tid), s.handlers[tid].id)
  {
    ReachableDecisionsHold(g, concurrency, maxQueueDepth, serviceCost, steps);
    FreshTasksSucceed(Reach(Init(g, concurrency, maxQueueDepth, serviceCost), steps).value, tid);
  }

  lemma EffectiveExtends(s: System, tid: nat)
    requires HandlersFit(s) && ValidGraph(s.g) && DecisionsHold(s)
    requires CanSubmit(s, tid)
    ensures var id := s.handlers[tid].id; Extends(s.handlers[tid].shards, Effective(s.requests[id], StoringOf(s, id)))
  {
    assert DecisionHolds(s, s.handlers[tid]);
    if s.lock.Some? { assert HandlerFits(s, s.lock.value); }
  }

  // ---------- whole runs ----------

  /** Every task of the request yields a result, or none does. */
  function TasksYield(id: RequestId, some: bool): E.Task -> bool {
    (task: E.Task) => task.id == id ==> E.ResultOf(task).Some? == some
  }

  ghost predicate OnTrack(s: System, id: RequestId) {
    if Terminal(s, id) then !s.requests[id].status.Failed? else AllTasks(s.exec, TasksYield(id, true))
  }

  lemma RecordingEndsNaturally(s: System, tid: nat, waitCost: int, id: RequestId)
    requires CanRecord(s, tid) && !Terminal(s, id) && Terminal(RecordStep(s, tid, waitCost), id)
    ensures RecordStep(s, tid, waitCost).requests[id].status.NaturalComplete?
  {}

  /** A request ends naturally or by the completion of its task, with the task's outcome. */
  lemma CompletionDecides(s: System, step: Step, id: RequestId)
    requires Next(s, step).Some? && !Terminal(s, id) && Terminal(Next(s, step).value, id)
    ensures var r := Next(s, step).value.requests[id];
      || r.status.NaturalComplete?
      || (&& step.Complete? && s.exec.workers[step.w].task.id == id
          && r.status == if E.ResultOf(s.exec.workers[step.w].task).Some? then Recovered else Failed)
  {
    if step.RecordShard? { RecordingEndsNaturally(s, step.tid, step.waitCost, id); }
  }

  lemma NextKeepsTrackedTasks(s: System, step: Step, id: RequestId)
    requires Inv(s) && DecisionsHold(s) && Next(s, step).Some? && !Terminal(s, id)
    requires AllTasks(s.exec, TasksYield(id, true)) && !IsStale(s, step, id)
    ensures AllTasks(Next(s, step).value.exec, TasksYield(id, true))
  {
    if step.CallSubmit? && s.handlers[step.tid].id == id {
      assert HandlerFits(s, step.tid);
      FreshTasksSucceed(s, step.tid);
    }
    NextKeepsTasks(s, step, TasksYield(id, true));
  }

  /** The request is on track, as a property of systems. */
  ghost function Tracking(id: RequestId): System -> bool {
    (s: System) => OnTrack(s, id)
  }

  lemma TerminalStaysOnTrack(s: System, step: Step, id: RequestId)
    requires HandlersFit(s) && Next(s, step).Some? && Terminal(s, id) && OnTrack(s, id)
    ensures Tracking(id)(Next(s, step).value)
  {
    TerminalIsAbsorbing(s, step, id);
  }

  lemma EndsOnTrack(s: System, step: Step, id: RequestId)
    requires Next(s, step).Some? && !Terminal(s, id) && Terminal(Next(s, step).value, id)
    requires AllTasks(s.exec, TasksYield(id, true))
    ensures Tracking(id)(Next(s, step).value)
  {
    CompletionDecides(s, step, id);
    if step.Complete? { assert TasksYield(id, true)(s.exec.workers[step.w].task); }
  }

  lemma NextKeepsOnTrack(s: System, step: Step, id: RequestId)
    requires Inv(s) && DecisionsHold(s) && Next(s, step).Some?
    requires OnTrack(s, id) && !IsStale(s, step, id)
    ensures Tracking(id)(Next(s, step).value)
  {
    if Terminal(s, id) {
      TerminalStaysOnTrack(s, step, id);
    } else if Terminal(Next(s, step).value, id) {
      EndsOnTrack(s, step, id);
    } else {
      NextKeepsTrackedTasks(s, step, id);
    }
  }

  predicate NeverStale(s: System, steps: seq<Step>, id: RequestId) {
    forall i | 0 <= i < |steps| ::
      var before := Reach(s, steps[..i]); before.Some? ==> !IsStale(before.value, steps[i], id)
  }

  lemma {:induction false} UnstaleRunStaysOnTrack(s: System, steps: seq<Step>, id: RequestId)
    requires Inv(s) && DecisionsHold(s) && OnTrack(s, id)
    requires Reach(s, steps).Some? && NeverStale(s, steps, id)
    ensures Reach(s, steps).value.g == s.g && DecisionsHold(Reach(s, steps).value) && OnTrack(Reach(s, steps).value, id)
  {
    if steps != [] {
      var front := steps[..|steps| - 1];
      assert forall i | 0 <= i < |front| :: front[..i] == steps[..i] && front[i] == steps[i];
      UnstaleRunStaysOnTrack(s, front, id);
      ReachKeepsInv(s, front);
      var before, step := Reach(s, front).value, steps[|steps| - 1];
      assert !IsStale(before, step, id);
      NextKeepsDecisions(before, step);
      NextKeepsOnTrack(before, step, id);
    }
  }

  /** Without a stale submission, a request never fails, under any interleaving. */
  lemma UnstaleRequestNeverFails(g: BipartiteGraph, concurrency: nat, maxQueueDepth: nat, serviceCost: nat,
                                 steps: seq<Step>, id: RequestId)
    requires ValidGraph(g) && concurrency > 0
    requires var start := Init(g, concurrency, maxQueueDepth, serviceCost);
      Reach(start, steps).Some? && NeverStale(start, steps, id)
    ensures var s := Reach(Init(g, concurrency, maxQueueDepth, serviceCost), steps).value;
      id in s.requests ==> !s.requests[id].status.Failed?
  {
    InitInv(g, concurrency, maxQueueDepth, serviceCost);
    UnstaleRunStaysOnTrack(Init(g, concurrency, maxQueueDepth, serviceCost), steps, id);
  }

  /** The request has used its one submission on tasks that will be refused. */
  ghost predicate Doomed(s: System, id: RequestId) {
    && id in s.requests && !s.requests[id].status.Recovered? && id in s.submits
    && AllTasks(s.exec, TasksYield(id, false))
  }

  /** The request is doomed, as a property of systems. */
  ghost function Dooming(id: RequestId): System -> bool {
    (s: System) => Doomed(s, id)
  }

  lemma NextKeepsRefusedTasks(s: System, step: Step, id: RequestId)
    requires Inv(s) && Doomed(s, id) && Next(s, step).Some?
    ensures AllTasks(Next(s, step).value.exec, TasksYield(id, false))
  {
    if step.CallSubmit? { assert HandlerFits(s, step.tid); }
    NextKeepsTasks(s, step, TasksYield(id, false));
  }

  lemma NextKeepsUnrecovered(s: System, step: Step, id: RequestId)
    requires HandlersFit(s) && Doomed(s, id) && Next(s, step).Some?
    ensures id in Next(s, step).value.requests && !Next(s, step).value.requests[id].status.Recovered?
    ensures id in Next(s, step).value.submits
  {
    if Terminal(s, id) {
      TerminalIsAbsorbing(s, step, id);
    } else if Terminal(Next(s, step).value, id) {
      CompletionDecides(s, step, id);
      if step.Complete? { assert TasksYield(id, false)(s.exec.workers[step.w].task); }
    }
  }

  lemma NextKeepsDoomed(s: System, step: Step, id: RequestId)
    requires Inv(s) && Doomed(s, id) && Next(s, step).Some?
    ensures Dooming(id)(Next(s, step).value)
  {
    NextKeepsRefusedTasks(s, step, id);
    NextKeepsUnrecovered(s, step, id);
  }

  lemma StaleSubmissionDooms(s: System, step: Step, id: RequestId)
    requires Inv(s) && DecisionsHold(s) && Next(s, step).Some? && IsStale(s, step, id)
    ensures Doomed(Next(s, step).value, id)
  {
    assert HandlerFits(s, step.tid) && ProfileFits(N(s), ProfileOf(s, id));
    FreshTasksSucceed(s, step.tid);
    assert !Live(s.exec, id);
    assert AllTasks(s.exec, TasksYield(id, false));
    NextKeepsTasks(s, step, TasksYield(id, false));
  }

  lemma {:induction false} DoomedForever(s: System, step: Step, id: RequestId, later: seq<Step>)
    requires Inv(s) && DecisionsHold(s) && Next(s, step).Some? && IsStale(s, step, id)
    requires Reach(Next(s, step).value, later).Some?
    ensures Doomed(Reach(Next(s, step).value, later).value, id)
  {
    if later == [] {
      StaleSubmissionDooms(s, step, id);
    } else {
      DoomedForever(s, step, id, later[..|later| - 1]);
      NextKeepsInv(s, step);
      ReachKeepsInv(Next(s, step).value, later[..|later| - 1]);
      NextKeepsDoomed(Reach(Next(s, step).value, later[..|later| - 1]).value, later[|later| - 1], id);
    }
  }

  lemma ReachNext(s: System, steps: seq<Step>, i: nat)
    requires i < |steps| && Reach(s, steps).Some?
    ensures Reach(s, steps[..i]).Some? && Next(Reach(s, steps[..i]).value, steps[i]).Some?
    ensures Reach(Next(Reach(s, steps[..i]).value, steps[i]).value, steps[i + 1..]) == Reach(s, steps)
    decreases |steps|
  {
    var front := steps[..|steps| - 1];
    if i == |front| {
      assert steps[i + 1..] == [] && steps[..i] == front;
    } else {
      ReachNext(s, front, i);
      assert front[..i] == steps[..i] && front[i] == steps[i];
      assert steps[i + 1..][..|steps| - i - 2] == front[i + 1..];
    }
  }

  /** A run with a stale submission at any step ends with the request not recovered. */
  lemma StaleSubmissionNeverRecovers(g: BipartiteGraph, concurrency: nat, maxQueueDepth: nat, serviceCost: nat,
                                     steps: seq<Step>, id: RequestId, i: nat)
    requires ValidGraph(g) && concurrency > 0
    requires var start := Init(g, concurrency, maxQueueDepth, serviceCost);
      && Reach(start, steps).Some? && i < |steps|
      && Reach(start, steps[..i]).Some? && IsStale(Reach(start, steps[..i]).value, steps[i], id)
    ensures var s := Reach(Init(g, concurrency, maxQueueDepth, serviceCost), steps).value;
      id in s.requests && !s.requests[id].status.Recovered?
  {
    var start := Init(g, concurrency, maxQueueDepth, serviceCost);
    ReachableDecisionsHold(g, concurrency, maxQueueDepth, serviceCost, steps[..i]);
    ReachNext(start, steps, i);
    DoomedForever(Reach(start, steps[..i]).value, steps[i], id, steps[i + 1..]);
  }

  // ---------- deliveries one at a time ----------

  predicate Apart(hs: map<nat, Handler>) {
    forall t, u | t in hs && u in hs && t != u :: hs[t].id != hs[u].id
  }

  /** One handler per request, and a submitting handler's snapshot is the request's shards. */
  predicate OneAtATime(s: System) {
    && Apart(s.handlers)
    && forall t | t in s.handlers :: Current(s, s.handlers[t])
  }

  predicate Current(s: System, h: Handler) {
    h.Submitting? && h.id in s.requests && s.requests[h.id].status.Pending? ==> s.requests[h.id].shards == h.shards
  }

  predicate SerialStep(s: System, step: Step) {
    step.Arrive? ==> !InFlight(s, step.id)
  }

  lemma RecordingKeepsHandler(s: System, tid: nat, waitCost: int, t: nat)
    requires CanRecord(s, tid) && t in RecordStep(s, tid, waitCost).handlers
    ensures t in s.handlers && RecordStep(s, tid, waitCost).handlers[t].id == s.handlers[t].id
  {}

  lemma OthersKeepHandler(s: System, step: Step, t: nat)
    requires Next(s, step).Some? && !step.Arrive? && !step.RecordShard? && t in Next(s, step).value.handlers
    ensures t in s.handlers && Next(s, step).value.handlers[t].id == s.handlers[t].id
  {}

  /** A handler in flight was there before, or is the arrival's. */
  lemma HandlerComesFrom(s: System, step: Step, t: nat)
    requires Next(s, step).Some? && t in Next(s, step).value.handlers
    ensures var h := Next(s, step).value.handlers[t];
      (t in s.handlers && h.id == s.handlers[t].id) || (step.Arrive? && t == step.tid && h.id == step.id)
  {
    if step.Arrive? {
      ArriveAddsHandler(s, step.tid, step.id, step.shard, step.payload, step.now);
    } else if step.RecordShard? {
      RecordingKeepsHandler(s, step.tid, step.waitCost, t);
    } else {
      OthersKeepHandler(s, step, t);
    }
  }

  lemma NextKeepsApart(s: System, step: Step)
    requires Apart(s.handlers) && Next(s, step).Some? && SerialStep(s, step)
    ensures Apart(Next(s, step).value.handlers)
  {
    var hs := Next(s, step).value.handlers;
    forall t, u | t in hs && u in hs && t != u ensures hs[t].id != hs[u].id {
      HandlerComesFrom(s, step, t);
      HandlerComesFrom(s, step, u);
    }
  }

  lemma NextKeepsCurrent(s: System, step: Step, t: nat)
    requires HandlersFit(s) && OneAtATime(s) && Next(s, step).Some? && t in Next(s, step).value.handlers
    ensures Current(Next(s, step).value, Next(s, step).value.handlers[t])
  {
    if Next(s, step).value.handlers[t].Submitting? {
      SubmittersComeFromRecording(s, step, t);
      assert HandlerFits(s, t) && Current(s, s.handlers[t]);
      if !step.RecordShard? || step.tid != t { ShardsChangeByRecording(s, step, s.handlers[t].id); }
    }
  }

  lemma NextKeepsOneAtATime(s: System, step: Step)
    requires HandlersFit(s) && OneAtATime(s) && Next(s, step).Some? && SerialStep(s, step)
    ensures OneAtATime(Next(s, step).value)
  {
    NextKeepsApart(s, step);
    forall t | t in Next(s, step).value.handlers ensures Current(Next(s, step).value, Next(s, step).value.handlers[t]) {
      NextKeepsCurrent(s, step, t);
    }
  }

  lemma OneAtATimeIsFresh(s: System, step: Step, id: RequestId)
    requires HandlersFit(s) && OneAtATime(s)
    ensures !IsStale(s, step, id)
  {
    assert step.CallSubmit? && step.tid in s.handlers ==> Current(s, s.handlers[step.tid]);
  }

  predicate Serial(s: System, steps: seq<Step>) {
    forall i | 0 <= i < |steps| ::
      var before := Reach(s, steps[..i]); before.Some? ==> SerialStep(before.value, steps[i])
  }

  lemma NeverStaleSnoc(s: System, steps: seq<Step>, id: RequestId)
    requires steps != [] && Reach(s, steps[..|steps| - 1]).Some? && NeverStale(s, steps[..|steps| - 1], id)
    requires !IsStale(Reach(s, steps[..|steps| - 1]).value, steps[|steps| - 1], id)
    ensures NeverStale(s, steps, id)
  {
    var front := steps[..|steps| - 1];
    forall i | 0 <= i < |steps|
      ensures var before := Reach(s, steps[..i]); before.Some? ==> !IsStale(before.value, steps[i], id)
    {
      if i < |front| { assert front[..i] == steps[..i] && front[i] == steps[i]; }
    }
  }

  lemma SerialFront(s: System, steps: seq<Step>)
    requires steps != [] && Serial(s, steps) && Reach(s, steps[..|steps| - 1]).Some?
    ensures Serial(s, steps[..|steps| - 1]) && SerialStep(Reach(s, steps[..|steps| - 1]).value, steps[|steps| - 1])
  {
    var front := steps[..|steps| - 1];
    assert forall i | 0 <= i < |front| :: front[..i] == steps[..i] && front[i] == steps[i];
  }

  lemma {:induction false} SerialRunIsOneAtATime(s: System, steps: seq<Step>, id: RequestId)
    requires Inv(s) && OneAtATime(s) && Reach(s, steps).Some? && Serial(s, steps)
    ensures OneAtATime(Reach(s, steps).value) && NeverStale(s, steps, id)
  {
    if steps != [] {
      var front, last := steps[..|steps| - 1], steps[|steps| - 1];
      SerialFront(s, steps);
      SerialRunIsOneAtATime(s, front, id);
      ReachKeepsInv(s, front);
      NextKeepsOneAtATime(Reach(s, front).value, last);
      OneAtATimeIsFresh(Reach(s, front).value, last, id);
      NeverStaleSnoc(s, steps, id);
    }
  }

  /** When a request's shards are delivered one handler at a time, no request ever fails. */
  lemma SerialDeliveryNeverFails(g: BipartiteGraph, concurrency: nat, maxQueueDepth: nat, serviceCost: nat,
                                 steps: seq<Step>, id: RequestId)
    requires ValidGraph(g) && concurrency > 0
    requires var start := Init(g, concurrency, maxQueueDepth, serviceCost);
      Reach(start, steps).Some? && Serial(start, steps)
    ensures var s := Reach(Init(g, concurrency, maxQueueDepth, serviceCost), steps).value;
      id in s.requests ==> !s.requests[id].status.Failed?
  {
    InitInv(g, concurrency, maxQueueDepth, serviceCost);
    SerialRunIsOneAtATime(Init(g, concurrency, maxQueueDepth, serviceCost), steps, id);
    UnstaleRequestNeverFails(g, concurrency, maxQueueDepth, serviceCost, steps, id);
  }
}
