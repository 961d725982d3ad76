/** The protocol invariant on every run, and what it means: one submission, no residue, final statuses. */
module ProtocolSafety {
  import opened Shards
  import opened Graphs
  import opened Coordinator
  import opened ExecutorEffects
  import opened Protocol
  import E = Executor
  import ES = ExecutorSafety
  import opened ProtocolProfiles
  import opened ProtocolBooks

  // ---------- every step keeps the invariant ----------

  /** The executor's part of a step is a step of the executor machine, or nothing. */
  lemma ExecutorRefines(s: System, step: Step)
    requires Next(s, step).Some?
    ensures Next(s, step).value.exec == s.exec
      || exists x :: ES.Next(s.exec, x) == Some(Next(s, step).value.exec)
  {
    var exec := Next(s, step).value.exec;
    match step
    case Arrive(tid, id, shard, payload, now) =>
      if id in s.requests && Receive(s.requests[id], shard, payload).Stored? {
        var n := |Receive(s.requests[id], shard, payload).request.shards|;
        assert ES.Next(s.exec, ES.DoStage(id, n, shard, payload)) == Some(exec);
      }
    case CallSubmit(tid) =>
      var h := s.handlers[tid];
      assert ES.Next(s.exec, ES.DoSubmit(h.id, h.plan, h.shards)) == Some(exec);
    case CallCancel(tid) => assert ES.Next(s.exec, ES.DoCancel(s.handlers[tid].id)) == Some(exec);
    case Pop(w) => assert ES.Next(s.exec, ES.DoPop(w)) == Some(exec);
    case Check(w) => assert ES.Next(s.exec, ES.DoCheck(w)) == Some(exec);
    case Complete(w) => assert ES.Next(s.exec, ES.DoComplete(w)) == Some(exec);
    case Finish(w) => assert ES.Next(s.exec, ES.DoFinish(w)) == Some(exec);
    case _ =>
  }

  lemma NextKeepsExecutor(s: System, step: Step)
    requires ES.Inv(s.exec) && Next(s, step).Some?
    ensures ES.Inv(Next(s, step).value.exec)
  {
    ExecutorRefines(s, step);
    var exec := Next(s, step).value.exec;
    if exec != s.exec {
      var x :| ES.Next(s.exec, x) == Some(exec);
      ES.NextKeepsInv(s.exec, x);
    }
  }

  /** A property of all tasks survives every step that does not submit a task without it. */
  lemma NextKeepsTasks(s: System, step: Step, p: E.Task -> bool)
    requires AllTasks(s.exec, p) && Next(s, step).Some?
    requires step.CallSubmit? ==> var h := s.handlers[step.tid];
      var context := if h.id in s.exec.staged then s.exec.staged[h.id] else h.shards;
      p(E.Task(h.id, |s.exec.accepted|, h.plan, h.shards, context))
    ensures AllTasks(Next(s, step).value.exec, p)
  {
    match step
    case CallSubmit(tid) =>
      var h := s.handlers[tid];
      SubmitKeepsTasks(s.exec, h.id, h.plan, h.shards, p);
    case CallCancel(tid) => CancelKeepsTasks(s.exec, s.handlers[tid].id, p);
    case Pop(w) => PopKeepsTasks(s.exec, w, p);
    case _ => assert Next(s, step).value.exec.queue == s.exec.queue;
  }

  /**
   * What a step that concerns one request relies on: the profile of the request a shard arrives for or a task is
   * submitted for, and the size and the standing of a task that completes.
   */
  predicate CallFits(s: System, step: Step) {
    && (step.Arrive? ==> ProfileFits(N(s), ProfileOf(s, step.id)))
    && (step.CallSubmit? && step.tid in s.handlers ==>
          HandlerFits(s, step.tid) && ProfileFits(N(s), ProfileOf(s, s.handlers[step.tid].id)))
    && (step.Complete? && step.w < |s.exec.workers| && s.exec.workers[step.w].Completing? ==>
          && |s.exec.workers[step.w].task.shards| == N(s)
          && LastTrace(s.exec, s.exec.workers[step.w].task.id))
  }

  lemma CallsFit(s: System, step: Step)
    requires Inv(s)
    ensures CallFits(s, step)
  {
    if step.Complete? && step.w < |s.exec.workers| && s.exec.workers[step.w].Completing? {
      assert E.Unsettled(s.exec.workers[step.w]);
      CompletingIsLastTrace(s.exec, step.w);
    }
    assert step.CallSubmit? && step.tid in s.handlers ==> HandlerFits(s, step.tid);
  }

  /** The books are in order, as a property of systems. */
  ghost function InOrder(g: BipartiteGraph): System -> bool {
    (s: System) => s.g == g && Books(s)
  }

  lemma ClientKeepsBooks(s: System, step: Step)
    requires InOrder(s.g)(s) && ValidGraph(s.g) && CallFits(s, step) && Next(s, step).Some?
    requires step.Start? || step.Arrive? || step.RecordShard?
    ensures InOrder(s.g)(Next(s, step).value)
  {
    match step
    case Start(id) => StartKeepsBooks(s, id);
    case Arrive(tid, id, shard, payload, now) => ArriveKeepsBooks(s, tid, id, shard, payload, now);
    case RecordShard(tid, waitCost) => RecordKeepsBooks(s, tid, waitCost);
  }

  lemma HandlerKeepsBooks(s: System, step: Step)
    requires InOrder(s.g)(s) && ValidGraph(s.g) && CallFits(s, step) && Next(s, step).Some?
    requires step.Recheck? || step.NoteRefused? || step.CallCancel? || step.CallSubmit?
    ensures InOrder(s.g)(Next(s, step).value)
  {
    match step
    case CallSubmit(tid) => SubmitKeepsBooks(s, tid);
    case Recheck(tid) => RecheckKeepsBooks(s, tid);
    case NoteRefused(tid) => RefusedKeepsBooks(s, tid);
    case CallCancel(tid) => ExecutorKeepsBooks(s, E.Cancel(s.exec, s.handlers[tid].id), {tid});
  }

  lemma ExecutorStepKeepsBooks(s: System, step: Step)
    requires InOrder(s.g)(s) && Next(s, step).Some? && (step.Pop? || step.Check? || step.Finish?)
    ensures InOrder(s.g)(Next(s, step).value)
  {
    assert s.handlers - {} == s.handlers;
    ExecutorKeepsBooks(s, Next(s, step).value.exec, {});
  }

  lemma CompletingKeepsBooks(s: System, step: Step)
    requires InOrder(s.g)(s) && CallFits(s, step) && Next(s, step).Some? && step.Complete?
    ensures InOrder(s.g)(Next(s, step).value)
  {
    CompleteKeepsBooks(s, step.w);
  }

  lemma NextKeepsBooks(s: System, step: Step)
    requires InOrder(s.g)(s) && ValidGraph(s.g) && CallFits(s, step) && Next(s, step).Some?
    ensures InOrder(s.g)(Next(s, step).value)
  {
    if step.Start? || step.Arrive? || step.RecordShard? {
      ClientKeepsBooks(s, step);
    } else if step.Pop? || step.Check? || step.Finish? {
      ExecutorStepKeepsBooks(s, step);
    } else if step.Complete? {
      CompletingKeepsBooks(s, step);
    } else {
      HandlerKeepsBooks(s, step);
    }
  }

  /** A request's profile fits, as a property of systems. */
  ghost function Fitting(n: nat, j: RequestId): System -> bool {
    (s: System) => ProfileFits(n, ProfileOf(s, j))
  }

  lemma ClientKeepsProfile(s: System, step: Step, j: RequestId)
    requires HandlersFit(s) && SubmitsFit(s) && N(s) > 0 && CallFits(s, step) && ProfileFits(N(s), ProfileOf(s, j))
    requires Next(s, step).Some? && (step.Start? || step.Arrive? || step.RecordShard?)
    ensures Fitting(N(s), j)(Next(s, step).value)
  {
    match step
    case Start(id) => StartKeepsProfile(s, id, j);
    case Arrive(tid, id, shard, payload, now) =>
      if j == id { ArriveKeepsOwn(s, tid, id, shard, payload, now); }
      else { ArriveKeepsOthers(s, tid, id, shard, payload, now, j); }
    case RecordShard(tid, waitCost) =>
      if j == s.handlers[tid].id { RecordKeepsOwn(s, tid, waitCost); } else { RecordKeepsOthers(s, tid, waitCost, j); }
  }

  lemma HandlerKeepsProfile(s: System, step: Step, j: RequestId)
    requires ES.IdsApart(s.exec) && HandlersFit(s) && ProfileFits(N(s), ProfileOf(s, j)) && Next(s, step).Some?
    requires step.Recheck? || step.NoteRefused? || step.CallCancel? || step.CallSubmit?
    ensures Fitting(N(s), j)(Next(s, step).value)
  {
    match step
    case CallSubmit(tid) => assert HandlerFits(s, tid); SubmitKeepsProfile(s, tid, j);
    case Recheck(tid) => RecheckKeepsProfile(s, tid, j);
    case NoteRefused(tid) => RefusedKeepsProfile(s, tid, j);
    case CallCancel(tid) => assert HandlerFits(s, tid); CancelKeepsProfile(s, tid, j);
  }

  lemma WorkerKeepsProfile(s: System, step: Step, j: RequestId)
    requires ES.IdsApart(s.exec) && ProfileFits(N(s), ProfileOf(s, j)) && Next(s, step).Some?
    requires step.Pop? || step.Check? || step.Finish?
    ensures Fitting(N(s), j)(Next(s, step).value)
  {
    match step
    case Pop(w) => PopKeepsProfile(s, w, j);
    case Check(w) => CheckKeepsProfile(s, w, j);
    case Finish(w) => FinishKeepsProfile(s, w, j);
  }

  lemma CompletingKeepsProfile(s: System, step: Step, j: RequestId)
    requires ES.IdsApart(s.exec) && CallFits(s, step) && ProfileFits(N(s), ProfileOf(s, j))
    requires Next(s, step).Some? && step.Complete?
    ensures Fitting(N(s), j)(Next(s, step).value)
  {
    CompleteKeepsProfile(s, step.w, j);
  }

  lemma NextKeepsProfile(s: System, step: Step, j: RequestId)
    requires ES.IdsApart(s.exec) && HandlersFit(s) && SubmitsFit(s) && N(s) > 0 && CallFits(s, step)
    requires ProfileFits(N(s), ProfileOf(s, j)) && Next(s, step).Some?
    ensures Fitting(N(s), j)(Next(s, step).value)
  {
    if step.Start? || step.Arrive? || step.RecordShard? {
      ClientKeepsProfile(s, step, j);
    } else if step.Pop? || step.Check? || step.Finish? {
      WorkerKeepsProfile(s, step, j);
    } else if step.Complete? {
      CompletingKeepsProfile(s, step, j);
    } else {
      HandlerKeepsProfile(s, step, j);
    }
  }

  /** Every request's profile fits, as a property of systems. */
  ghost function AllFitting(n: nat): System -> bool {
    (s: System) => forall j :: ProfileFits(n, ProfileOf(s, j))
  }

  lemma NextKeepsProfiles(s: System, step: Step)
    requires ES.IdsApart(s.exec) && HandlersFit(s) && SubmitsFit(s) && N(s) > 0 && CallFits(s, step)
    requires AllFitting(N(s))(s) && Next(s, step).Some?
    ensures AllFitting(N(s))(Next(s, step).value)
  {
    forall j ensures ProfileFits(N(s), ProfileOf(Next(s, step).value, j)) {
      NextKeepsProfile(s, step, j);
    }
  }

  lemma NextKeepsSizes(s: System, step: Step)
    requires HandlersFit(s) && TasksSized(s) && Next(s, step).Some?
    ensures TasksSized(Next(s, step).value) && Next(s, step).value.g == s.g
  {
    if step.CallSubmit? { assert HandlerFits(s, step.tid); }
    NextKeepsTasks(s, step, SizedTask(N(s)));
  }

  /** Everything the invariant says, as a property of systems. */
  ghost function Safe(g: BipartiteGraph): System -> bool {
    (s: System) => s.g == g && Inv(s)
  }

  /** The executor's part of it. */
  ghost function Sound(g: BipartiteGraph): System -> bool {
    (s: System) => s.g == g && ES.Inv(s.exec) && TasksSized(s)
  }

  lemma PartsMakeInv(g: BipartiteGraph, s: System)
    requires ValidGraph(g) && Sound(g)(s) && InOrder(g)(s) && AllFitting(g.k + g.m)(s)
    ensures Safe(g)(s)
  {}

  lemma NextKeepsRecords(s: System, step: Step)
    requires Safe(s.g)(s) && Next(s, step).Some?
    ensures InOrder(s.g)(Next(s, step).value) && AllFitting(N(s))(Next(s, step).value)
  {
    CallsFit(s, step);
    NextKeepsBooks(s, step);
    NextKeepsProfiles(s, step);
  }

  lemma NextKeepsSound(s: System, step: Step)
    requires Safe(s.g)(s) && Next(s, step).Some?
    ensures Sound(s.g)(Next(s, step).value)
  {
    NextKeepsExecutor(s, step);
    NextKeepsSizes(s, step);
  }

  lemma NextKeepsSafe(s: System, step: Step)
    requires Safe(s.g)(s) && Next(s, step).Some?
    ensures Safe(s.g)(Next(s, step).value)
  {
    NextKeepsSound(s, step);
    NextKeepsRecords(s, step);
    PartsMakeInv(s.g, Next(s, step).value);
  }

  /** Under every interleaving of handlers and workers, each step keeps the invariant. */
  lemma NextKeepsInv(s: System, step: Step)
    requires Inv(s) && Next(s, step).Some?
    ensures Inv(Next(s, step).value)
  {
    NextKeepsSafe(s, step);
  }

  // ---------- runs ----------

  lemma {:induction false} ReachKeepsInv(s: System, steps: seq<Step>)
    requires Inv(s) && Reach(s, steps).Some?
    ensures Inv(Reach(s, steps).value)
  {
    if steps != [] {
      ReachKeepsInv(s, steps[..|steps| - 1]);
      NextKeepsInv(Reach(s, steps[..|steps| - 1]).value, steps[|steps| - 1]);
    }
  }

  /**
   * No residue: in every reachable state Submit has been called at most once per request, and once no arrival handler
   * of a terminal request is in flight, the executor holds neither a queued task nor a staged context for it.
   */
  lemma NoResidue(g: BipartiteGraph, concurrency: nat, maxQueueDepth: nat, serviceCost: nat, steps: seq<Step>)
    requires ValidGraph(g) && concurrency > 0
    requires Reach(Init(g, concurrency, maxQueueDepth, serviceCost), steps).Some?
    ensures var s := Reach(Init(g, concurrency, maxQueueDepth, serviceCost), steps).value;
      && Distinct(s.submits)
      && forall id | Terminal(s, id) && !InFlight(s, id) :: !E.Queued(s.exec, id) && id !in s.exec.staged
  {
    var start := Init(g, concurrency, maxQueueDepth, serviceCost);
    InitInv(g, concurrency, maxQueueDepth, serviceCost);
    ReachKeepsInv(start, steps);
    var s := Reach(start, steps).value;
    forall id | Terminal(s, id) && !InFlight(s, id) ensures !E.Queued(s.exec, id) && id !in s.exec.staged {
      assert ProfileFits(N(s), ProfileOf(s, id));
    }
  }

  /** Terminal statuses never change, nor do the shards of a terminal request. */
  lemma TerminalIsAbsorbing(s: System, step: Step, id: RequestId)
    requires HandlersFit(s) && Next(s, step).Some? && Terminal(s, id)
    ensures Terminal(Next(s, step).value, id)
    ensures Next(s, step).value.requests[id].status == s.requests[id].status
    ensures Next(s, step).value.requests[id].shards == s.requests[id].shards
  {
    if step.RecordShard? {
      assert HandlerFits(s, step.tid);
    }
  }

  lemma {:induction false} TerminalForever(s: System, steps: seq<Step>, id: RequestId)
    requires Inv(s) && Reach(s, steps).Some? && Terminal(s, id)
    ensures var s' := Reach(s, steps).value;
      && Terminal(s', id) && s'.requests[id].status == s.requests[id].status
      && s'.requests[id].shards == s.requests[id].shards
  {
    if steps != [] {
      TerminalForever(s, steps[..|steps| - 1], id);
      ReachKeepsInv(s, steps[..|steps| - 1]);
      TerminalIsAbsorbing(Reach(s, steps[..|steps| - 1]).value, steps[|steps| - 1], id);
    }
  }
}
