/**
 * What a recorded shard decides, on every run: who submits and when, and that a request refused for capacity never
 * submits again.
 */
module RecoveryDecisions {
  import opened Shards
  import opened Graphs
  import opened Peeling
  import opened RoundTrip
  import opened Coordinator
  import opened Protocol
  import opened ProtocolSafety
  import opened ServingCorrectness
  import E = Executor

  // ---------- one request's standing ----------

  predicate AnyIs(hs: map<nat, Handler>, kind: Handler -> bool) {
    exists t :: t in hs && kind(hs[t])
  }

  function IsSubmitting(id: RequestId): Handler -> bool {
    (h: Handler) => h.Submitting? && h.id == id
  }

  function IsNoting(id: RequestId): Handler -> bool {
    (h: Handler) => h.NotingRefusal? && h.id == id
  }

  /** A handler is about to submit for the request. */
  predicate Submits(s: System, id: RequestId) { AnyIs(s.handlers, IsSubmitting(id)) }

  /** A handler has been refused and is about to note it. */
  predicate Notes(s: System, id: RequestId) { AnyIs(s.handlers, IsNoting(id)) }

  datatype Standing = Standing(request: Option<Request>, called: bool, accepted: bool, submitting: bool, noting: bool)

  function StandingOf(s: System, id: RequestId): Standing {
    Standing(if id in s.requests then Some(s.requests[id]) else None, id in s.submits, id in s.exec.accepted,
             Submits(s, id), Notes(s, id))
  }

  predicate StandingFits(p: Standing) {
    match p.request
    case None => !p.called && !p.accepted && !p.submitting && !p.noting
    case Some(r) =>
      && (r.rejected <==> r.closed)
      && (r.rejected ==> !p.submitting && !p.accepted)
      && (p.accepted ==> p.called)
      && (r.status.Pending? ==> (r.submitted <==> p.submitting || (p.called && !r.rejected)))
      && (r.status.Pending? && p.called && !p.accepted && !r.rejected ==> p.noting)
  }

  lemma AnyElsewhere(hs: map<nat, Handler>, hs': map<nat, Handler>, tid: nat, kind: Handler -> bool)
    requires forall t | t != tid :: (t in hs <==> t in hs') && (t in hs ==> hs[t] == hs'[t])
    requires tid in hs ==> !kind(hs[tid])
    requires tid in hs' ==> !kind(hs'[tid])
    ensures AnyIs(hs, kind) <==> AnyIs(hs', kind)
  {
    if AnyIs(hs, kind) {
      var t :| t in hs && kind(hs[t]);
      assert t in hs' && hs'[t] == hs[t];
    }
    if AnyIs(hs', kind) {
      var t :| t in hs' && kind(hs'[t]);
      assert t in hs && hs[t] == hs'[t];
    }
  }

  /** The handler of tid was the only one of its kind, and is no longer. */
  lemma NoneLeft(hs: map<nat, Handler>, hs': map<nat, Handler>, tid: nat, kind: Handler -> bool)
    requires forall t | t != tid && t in hs' :: t in hs && hs[t] == hs'[t]
    requires forall t | t in hs && t != tid :: !kind(hs[t])
    requires tid in hs' ==> !kind(hs'[tid])
    ensures !AnyIs(hs', kind)
  {}

  // ---------- every step keeps the standings ----------

  predicate SameFlags(a: Option<Request>, b: Option<Request>) {
    match (a, b)
    case (Some(r), Some(r')) =>
      r'.status == r.status && r'.submitted == r.submitted && r'.rejected == r.rejected && r'.closed == r.closed
    case (None, None) => true
    case _ => false
  }

  lemma ArriveKeepsFlags(s: System, step: Step, j: RequestId)
    requires step.Arrive?
    ensures var s' := ArriveStep(s, step.tid, step.id, step.shard, step.payload, step.now);
      && SameFlags(StandingOf(s, j).request, StandingOf(s', j).request)
      && s'.submits == s.submits && s'.exec.accepted == s.exec.accepted
  {}

  lemma ArriveKeepsStanding(s: System, step: Step, j: RequestId)
    requires step.Arrive? && Next(s, step).Some? && StandingFits(StandingOf(s, j))
    ensures StandingFits(StandingOf(Next(s, step).value, j))
  {
    var s' := Next(s, step).value;
    ArriveKeepsFlags(s, step, j);
    ArriveAddsHandler(s, step.tid, step.id, step.shard, step.payload, step.now);
    AnyElsewhere(s.handlers, s'.handlers, step.tid, IsSubmitting(j));
    AnyElsewhere(s.handlers, s'.handlers, step.tid, IsNoting(j));
  }

  lemma StartKeepsStanding(s: System, step: Step, j: RequestId)
    requires step.Start? && Next(s, step).Some? && StandingFits(StandingOf(s, j))
    ensures StandingFits(StandingOf(Next(s, step).value, j))
  {}

  lemma RecordLeavesStanding(s: System, tid: nat, waitCost: int, j: RequestId)
    requires CanRecord(s, tid) && j != s.handlers[tid].id
    ensures StandingOf(RecordStep(s, tid, waitCost), j) == StandingOf(s, j)
  {
    AnyElsewhere(s.handlers, RecordStep(s, tid, waitCost).handlers, tid, IsSubmitting(j));
    AnyElsewhere(s.handlers, RecordStep(s, tid, waitCost).handlers, tid, IsNoting(j));
  }

  lemma RecordKeepsStanding(s: System, tid: nat, waitCost: int)
    requires CanRecord(s, tid) && HandlerFits(s, tid) && StandingFits(StandingOf(s, s.handlers[tid].id))
    ensures StandingFits(StandingOf(RecordStep(s, tid, waitCost), s.handlers[tid].id))
  {
    var id, s' := s.handlers[tid].id, RecordStep(s, tid, waitCost);
    AnyElsewhere(s.handlers, s'.handlers, tid, IsNoting(id));
    if tid in s'.handlers && s'.handlers[tid].Submitting? {
      assert IsSubmitting(id)(s'.handlers[tid]);
    } else {
      AnyElsewhere(s.handlers, s'.handlers, tid, IsSubmitting(id));
    }
  }

  lemma NextRecordKeepsStanding(s: System, step: Step, j: RequestId)
    requires step.RecordShard? && Next(s, step).Some? && HandlersFit(s) && StandingFits(StandingOf(s, j))
    ensures StandingFits(StandingOf(Next(s, step).value, j))
  {
    assert HandlerFits(s, step.tid);
    if j == s.handlers[step.tid].id {
      RecordKeepsStanding(s, step.tid, step.waitCost);
    } else {
      RecordLeavesStanding(s, step.tid, step.waitCost, j);
    }
  }

  /** A submission that the invariant's profile allows is accepted or refused; it does not throw. */
  lemma SubmitDoesNotThrow(s: System, tid: nat)
    requires tid in s.handlers && s.handlers[tid].Submitting? && HandlerFits(s, tid) && ValidGraph(s.g)
    requires ProfileFits(N(s), ProfileOf(s, s.handlers[tid].id))
    ensures var h := s.handlers[tid]; !E.Submit(s.exec, h.id, h.plan, h.shards).1.Threw?
  {}

  lemma SubmitAccepts(e: E.State, id: RequestId, plan: DecodePlan, shards: Slots, j: RequestId)
    ensures var (e', outcome) := E.Submit(e, id, plan, shards);
      j in e'.accepted <==> j in e.accepted || (j == id && outcome.Accepted?)
  {
    var (e', outcome) := E.Submit(e, id, plan, shards);
    if outcome.Accepted? { assert e'.accepted[|e.accepted|] == id; }
    if j in e.accepted {
      var i :| 0 <= i < |e.accepted| && e.accepted[i] == j;
      assert e'.accepted[i] == j;
    }
  }

  lemma SubmitKeepsStanding(s: System, tid: nat, j: RequestId)
    requires tid in s.handlers && s.handlers[tid].Submitting? && HandlersFit(s) && StandingFits(StandingOf(s, j))
    requires var h := s.handlers[tid]; !E.Submit(s.exec, h.id, h.plan, h.shards).1.Threw?
    ensures StandingFits(StandingOf(SubmitStep(s, tid), j))
  {
    var h, s' := s.handlers[tid], SubmitStep(s, tid);
    assert HandlerFits(s, tid);
    SubmitAccepts(s.exec, h.id, h.plan, h.shards, j);
    if j == h.id {
      assert Submits(s, j) by { assert IsSubmitting(j)(h); }
      NoneLeft(s.handlers, s'.handlers, tid, IsSubmitting(j));
      if tid in s'.handlers && s'.handlers[tid].NotingRefusal? { assert IsNoting(j)(s'.handlers[tid]); }
      assert s'.submits[|s.submits|] == j;
    } else {
      AnyElsewhere(s.handlers, s'.handlers, tid, IsSubmitting(j));
      AnyElsewhere(s.handlers, s'.handlers, tid, IsNoting(j));
    }
  }

  lemma RefusedKeepsStanding(s: System, tid: nat, j: RequestId)
    requires tid in s.handlers && s.handlers[tid].NotingRefusal? && s.handlers[tid].id in s.requests
    requires HandlersFit(s) && StandingFits(StandingOf(s, j))
    ensures StandingFits(StandingOf(RefusedStep(s, tid), j))
  {
    var h, s' := s.handlers[tid], RefusedStep(s, tid);
    assert HandlerFits(s, tid);
    AnyElsewhere(s.handlers, s'.handlers, tid, IsSubmitting(j));
    if j == h.id {
      NoneLeft(s.handlers, s'.handlers, tid, IsSubmitting(j));
    } else {
      AnyElsewhere(s.handlers, s'.handlers, tid, IsNoting(j));
    }
  }

  lemma RecheckKeepsStanding(s: System, tid: nat, j: RequestId)
    requires tid in s.handlers && s.handlers[tid].Rechecking? && s.handlers[tid].id in s.requests
    requires StandingFits(StandingOf(s, j))
    ensures StandingFits(StandingOf(RecheckStep(s, tid), j))
  {
    AnyElsewhere(s.handlers, RecheckStep(s, tid).handlers, tid, IsSubmitting(j));
    AnyElsewhere(s.handlers, RecheckStep(s, tid).handlers, tid, IsNoting(j));
  }

  lemma CancelKeepsStanding(s: System, tid: nat, j: RequestId)
    requires tid in s.handlers && s.handlers[tid].Cancelling? && StandingFits(StandingOf(s, j))
    ensures StandingFits(StandingOf(CancelStep(s, tid), j))
  {
    AnyElsewhere(s.handlers, CancelStep(s, tid).handlers, tid, IsSubmitting(j));
    AnyElsewhere(s.handlers, CancelStep(s, tid).handlers, tid, IsNoting(j));
  }

  lemma CompleteKeepsStanding(s: System, w: nat, j: RequestId)
    requires w < |s.exec.workers| && s.exec.workers[w].Completing? && StandingFits(StandingOf(s, j))
    ensures StandingFits(StandingOf(CompleteStep(s, w), j))
  {}

  /** One request's standing fits, as a property of systems. */
  ghost function Stands(j: RequestId): System -> bool {
    (s: System) => StandingFits(StandingOf(s, j))
  }

  lemma ClientKeepsStanding(s: System, step: Step, j: RequestId)
    requires step.Start? || step.Arrive? || step.RecordShard?
    requires HandlersFit(s) && Stands(j)(s) && Next(s, step).Some?
    ensures Stands(j)(Next(s, step).value)
  {
    match step
    case Start(_) => StartKeepsStanding(s, step, j);
    case Arrive(_, _, _, _, _) => ArriveKeepsStanding(s, step, j);
    case RecordShard(_, _) => NextRecordKeepsStanding(s, step, j);
  }

  lemma HandlerKeepsStanding(s: System, step: Step, j: RequestId)
    requires step.Recheck? || step.NoteRefused? || step.CallCancel?
    requires HandlersFit(s) && Stands(j)(s) && Next(s, step).Some?
    ensures Stands(j)(Next(s, step).value)
  {
    match step
    case Recheck(tid) => RecheckKeepsStanding(s, tid, j);
    case NoteRefused(tid) => RefusedKeepsStanding(s, tid, j);
    case CallCancel(tid) => CancelKeepsStanding(s, tid, j);
  }

  lemma SubmitterKeepsStanding(s: System, step: Step, j: RequestId)
    requires step.CallSubmit? && HandlersFit(s) && ValidGraph(s.g) && CallFits(s, step) && Stands(j)(s)
    requires Next(s, step).Some?
    ensures Stands(j)(Next(s, step).value)
  {
    SubmitDoesNotThrow(s, step.tid);
    SubmitKeepsStanding(s, step.tid, j);
  }

  lemma WorkerKeepsStanding(s: System, step: Step, j: RequestId)
    requires step.Pop? || step.Check? || step.Complete? || step.Finish?
    requires Stands(j)(s) && Next(s, step).Some?
    ensures Stands(j)(Next(s, step).value)
  {
    if step.Complete? { CompleteKeepsStanding(s, step.w, j); }
  }

  lemma NextKeepsStanding(s: System, step: Step, j: RequestId)
    requires HandlersFit(s) && ValidGraph(s.g) && CallFits(s, step) && Stands(j)(s) && Next(s, step).Some?
    ensures Stands(j)(Next(s, step).value)
  {
    if step.Start? || step.Arrive? || step.RecordShard? {
      ClientKeepsStanding(s, step, j);
    } else if step.CallSubmit? {
      SubmitterKeepsStanding(s, step, j);
    } else if step.Recheck? || step.NoteRefused? || step.CallCancel? {
      HandlerKeepsStanding(s, step, j);
    } else {
      WorkerKeepsStanding(s, step, j);
    }
  }

  lemma {:induction false} ReachKeepsStanding(s: System, steps: seq<Step>, j: RequestId)
    requires Inv(s) && Stands(j)(s) && Reach(s, steps).Some?
    ensures Stands(j)(Reach(s, steps).value)
  {
    if steps != [] {
      var front, step := steps[..|steps| - 1], steps[|steps| - 1];
      ReachKeepsStanding(s, front, j);
      ReachKeepsInv(s, front);
      CallsFit(Reach(s, front).value, step);
      NextKeepsStanding(Reach(s, front).value, step, j);
    }
  }

  lemma ReachableStands(g: BipartiteGraph, concurrency: nat, maxQueueDepth: nat, serviceCost: nat, steps: seq<Step>,
                        j: RequestId)
    requires ValidGraph(g) && concurrency > 0
    requires Reach(Init(g, concurrency, maxQueueDepth, serviceCost), steps).Some?
    ensures var s := Reach(Init(g, concurrency, maxQueueDepth, serviceCost), steps).value;
      Inv(s) && StandingFits(StandingOf(s, j))
  {
    InitInv(g, concurrency, maxQueueDepth, serviceCost);
    ReachKeepsInv(Init(g, concurrency, maxQueueDepth, serviceCost), steps);
    ReachKeepsStanding(Init(g, concurrency, maxQueueDepth, serviceCost), steps, j);
  }

  // ---------- what a recorded shard decides ----------

  /** The erased data holds a non-empty stopping set for the parity that is there. */
  ghost predicate SlotsStopped(g: BipartiteGraph, slots: Slots)
    requires ValidGraph(g) && |slots| == g.k + g.m
  {
    exists x :: x != {} && IsStoppingSubset(g, FilledParity(g, slots), MissingSystematic(g.k, slots), x)
  }

  /** No submission has been made or is on its way, and none was refused for capacity. */
  predicate Undecided(s: System, id: RequestId)
    requires id in s.requests
  {
    id !in s.submits && !Submits(s, id) && !s.requests[id].rejected
  }

  predicate Full(e: E.State) { |e.queue| + |e.running| >= e.capacity }

  /** Service estimate times the wave a new task would complete in. */
  function Estimate(e: E.State): nat
    requires e.concurrency > 0
  {
    e.serviceCost * ((|e.queue| + |e.running|) / e.concurrency + 1)
  }

  /**
   * The decision the handler tid takes from s to s': it records its shard; it goes on to cancel exactly when all data
   * is there, which completes the request; it goes on to submit what is now there exactly when the request is
   * undecided, nothing stops recovery, the executor has room, and recovering is estimated to be strictly cheaper than
   * waiting; and it marks the request rejected exactly when only room is missing for that.
   */
  ghost predicate DecidesExactly(s: System, tid: nat, waitCost: int, s': System)
    requires CanRecord(s, tid)
  {
    var id := s.handlers[tid].id;
    && id in s'.requests && |s'.requests[id].shards| == s.g.k + s.g.m
    && Decides(s, tid, s', Undecided(s, id), SlotsStopped(s.g, s'.requests[id].shards), Full(s.exec),
               Estimate(s.exec) < waitCost)
    && TouchesOnly(s, tid, id, s')
  }

  predicate Decides(s: System, tid: nat, s': System, undecided: bool, stopped: bool, full: bool, cheaper: bool)
    requires CanRecord(s, tid) && s.handlers[tid].id in s'.requests
    requires |s'.requests[s.handlers[tid].id].shards| == s.g.k + s.g.m
  {
    var h, id := s.handlers[tid], s.handlers[tid].id;
    var r, r' := s.requests[id], s'.requests[id];
    var complete := forall i | 0 <= i < s.g.k :: r'.shards[i].Some?;
    var mayRecover := !complete && undecided && !stopped;
    var submits := mayRecover && !full && cheaper;
    && r'.shards == r.shards[h.shard := Some(h.payload)]
    && r'.status == (if complete then NaturalComplete else Pending)
    && (r'.rejected <==> r.rejected || (mayRecover && full))
    && (tid in s'.handlers <==> complete || submits)
    && (complete ==> s'.handlers[tid] == Cancelling(id))
    && (submits ==> s'.handlers[tid] == Submitting(id, PlanOfSlots(s.g, r'.shards), r'.shards))
  }

  /** Executor, log, other handlers and other requests are as they were. */
  ghost predicate TouchesOnly(s: System, tid: nat, id: RequestId, s': System) {
    && s'.submits == s.submits && s'.exec == s.exec
    && (forall t | t != tid ::
          (t in s'.handlers <==> t in s.handlers) && (t in s.handlers ==> s'.handlers[t] == s.handlers[t]))
    && forall j | j != id ::
         (j in s'.requests <==> j in s.requests) && (j in s.requests ==> s'.requests[j] == s.requests[j])
  }

  lemma SlotsPlanStopped(g: BipartiteGraph, slots: Slots)
    requires ValidGraph(g) && |slots| == g.k + g.m
    ensures PlanOfSlots(g, slots).isRecoverable <==> !SlotsStopped(g, slots)
  {
    PlannerIsExact(g, MissingSystematic(g.k, slots), FilledParity(g, slots));
  }

  /** What is open to decision, in terms of the request's own flags. */
  lemma UndecidedFlags(s: System, id: RequestId)
    requires id in s.requests && s.requests[id].status.Pending? && StandingFits(StandingOf(s, id))
    ensures Undecided(s, id) <==> !s.requests[id].closed && !s.requests[id].submitted
  {}

  lemma RecordedShards(s: System, tid: nat, waitCost: int)
    requires CanRecord(s, tid)
    ensures var h, s' := s.handlers[tid], RecordStep(s, tid, waitCost);
      && h.id in s'.requests && s'.requests[h.id].shards == s.requests[h.id].shards[h.shard := Some(h.payload)]
      && TouchesOnly(s, tid, h.id, s')
  {}

  /** The request and the action of a decision, given the shards with the new one among them and their plan. */
  predicate Result(k: nat, r: Request, shards: Slots, plan: DecodePlan, estimate: Option<nat>, waitCost: int,
                   r': Request, action: Action)
    requires k <= |shards|
  {
    var complete := forall i | 0 <= i < k :: shards[i].Some?;
    var mayRecover := !complete && !r.closed && !r.submitted && plan.isRecoverable;
    && r'.shards == shards && r'.status == (if complete then NaturalComplete else r.status)
    && (r'.rejected <==> r.rejected || (mayRecover && estimate.None?))
    && action == if complete then CancelTask
                 else if mayRecover && estimate.Some? && estimate.value < waitCost
                 then Action.SubmitTask(plan, shards) else NoAction
  }

  lemma DecideResult(k: nat, r: Request, stored: Request, plan: DecodePlan, estimate: Option<nat>, waitCost: int)
    requires k <= |stored.arrivals| == |stored.shards|
    requires forall i | 0 <= i < |stored.shards| :: stored.arrivals[i].Some? <==> stored.shards[i].Some?
    requires stored == r.(shards := stored.shards, arrivals := stored.arrivals)
    ensures var (r', action) := Decide(k, stored, plan, estimate, waitCost);
      Result(k, r, stored.shards, plan, estimate, waitCost, r', action)
  {}

  lemma RecordResult(g: BipartiteGraph, r: Request, shard: ShardId, payload: Shard, now: int, estimate: Option<nat>,
                     waitCost: int)
    requires ValidGraph(g) && shard < |r.shards| == |r.arrivals| == g.k + g.m
    requires forall i | 0 <= i < |r.shards| :: r.arrivals[i].Some? <==> r.shards[i].Some?
    ensures var (r', action) := Record(g, r, shard, payload, now, estimate, waitCost);
      var shards := r.shards[shard := Some(payload)];
      Result(g.k, r, shards, PlanOfSlots(g, shards), estimate, waitCost, r', action)
  {
    var stored := Store(r, shard, payload, now);
    TrackerPlan(g, stored.arrivals, stored.shards);
    DecideResult(g.k, r, stored, PlanOfSlots(g, stored.shards), estimate, waitCost);
  }

  /** The system once the handler has acted on its decision. */
  function Acted(s: System, tid: nat, r': Request, action: Action): System
    requires CanRecord(s, tid)
  {
    var id := s.handlers[tid].id;
    s.(requests := s.requests[id := r'], lock := None,
       handlers := match action
         case NoAction => s.handlers - {tid}
         case CancelTask => s.handlers[tid := Cancelling(id)]
         case SubmitTask(plan, shards) => s.handlers[tid := Submitting(id, plan, shards)])
  }

  lemma ActedDecides(s: System, tid: nat, waitCost: int, estimate: Option<nat>, r': Request, action: Action)
    requires CanRecord(s, tid) && s.requests[s.handlers[tid].id].status.Pending?
    requires var h := s.handlers[tid]; var r := s.requests[h.id];
      var shards := r.shards[h.shard := Some(h.payload)];
      Result(s.g.k, r, shards, PlanOfSlots(s.g, shards), estimate, waitCost, r', action)
    ensures var s', r := Acted(s, tid, r', action), s.requests[s.handlers[tid].id];
      Decides(s, tid, s', !r.closed && !r.submitted, !PlanOfSlots(s.g, r'.shards).isRecoverable,
              estimate.None?, estimate.Some? && estimate.value < waitCost)
  {}

  lemma EstimateIs(e: E.State)
    requires e.concurrency > 0
    ensures E.EstimateRecoveryCost(e) == if Full(e) then None else Some(Estimate(e))
  {}

  lemma RecordDecidesByFlags(s: System, tid: nat, waitCost: int)
    requires CanRecord(s, tid) && HandlerFits(s, tid) && RequestFits(s.g, s.requests[s.handlers[tid].id])
    ensures var s', id := RecordStep(s, tid, waitCost), s.handlers[tid].id;
      && id in s'.requests && |s'.requests[id].shards| == s.g.k + s.g.m
      && Decides(s, tid, s', !s.requests[id].closed && !s.requests[id].submitted,
                 !PlanOfSlots(s.g, s'.requests[id].shards).isRecoverable, E.EstimateRecoveryCost(s.exec).None?,
                 E.EstimateRecoveryCost(s.exec).Some? && E.EstimateRecoveryCost(s.exec).value < waitCost)
  {
    var h, estimate := s.handlers[tid], E.EstimateRecoveryCost(s.exec);
    var r := s.requests[h.id];
    RecordResult(s.g, r, h.shard, h.payload, h.now, estimate, waitCost);
    var decided := Record(s.g, r, h.shard, h.payload, h.now, estimate, waitCost);
    ActedDecides(s, tid, waitCost, estimate, decided.0, decided.1);
    assert RecordStep(s, tid, waitCost) == Acted(s, tid, decided.0, decided.1);
  }

  lemma DecidesWhenFull(s: System, tid: nat, s': System, undecided: bool, stopped: bool, full: bool, a: bool, b: bool)
    requires CanRecord(s, tid) && s.handlers[tid].id in s'.requests
    requires |s'.requests[s.handlers[tid].id].shards| == s.g.k + s.g.m
    requires Decides(s, tid, s', undecided, stopped, full, a) && (!full ==> a == b)
    ensures Decides(s, tid, s', undecided, stopped, full, b)
  {}

  lemma RecordDecidesExactly(s: System, tid: nat, waitCost: int)
    requires CanRecord(s, tid) && HandlerFits(s, tid) && RequestFits(s.g, s.requests[s.handlers[tid].id])
    requires StandingFits(StandingOf(s, s.handlers[tid].id))
    ensures DecidesExactly(s, tid, waitCost, RecordStep(s, tid, waitCost))
  {
    var id, s' := s.handlers[tid].id, RecordStep(s, tid, waitCost);
    RecordDecidesByFlags(s, tid, waitCost);
    RecordedShards(s, tid, waitCost);
    UndecidedFlags(s, id);
    SlotsPlanStopped(s.g, s'.requests[id].shards);
    EstimateIs(s.exec);
    var estimate := E.EstimateRecoveryCost(s.exec);
    DecidesWhenFull(s, tid, s', Undecided(s, id), SlotsStopped(s.g, s'.requests[id].shards), Full(s.exec),
                    estimate.Some? && estimate.value < waitCost, Estimate(s.exec) < waitCost);
  }

  /** Every recorded shard of every run is decided so. */
  lemma DecisionIsExact(g: BipartiteGraph, concurrency: nat, maxQueueDepth: nat, serviceCost: nat, steps: seq<Step>,
                        tid: nat, waitCost: int)
    requires ValidGraph(g) && concurrency > 0
    requires var end := Reach(Init(g, concurrency, maxQueueDepth, serviceCost), steps);
      end.Some? && Next(end.value, RecordShard(tid, waitCost)).Some?
    ensures var s := Reach(Init(g, concurrency, maxQueueDepth, serviceCost), steps).value;
      var s' := Next(s, RecordShard(tid, waitCost)).value;
      CanRecord(s, tid) && DecidesExactly(s, tid, waitCost, s')
  {
    var s := Reach(Init(g, concurrency, maxQueueDepth, serviceCost), steps).value;
    ReachableStands(g, concurrency, maxQueueDepth, serviceCost, steps, s.handlers[tid].id);
    RecordFits(s, tid);
    RecordDecidesExactly(s, tid, waitCost);
  }

  // ---------- no room means no recovery ----------

  /** The request has used its submission, or was refused for lack of room. */
  predicate Spent(s: System, id: RequestId) {
    id in s.submits || IsRejected(s, id)
  }

  lemma SpentDoesNotSubmit(s: System, id: RequestId, t: nat)
    requires HandlersFit(s) && StandingFits(StandingOf(s, id)) && Spent(s, id)
    requires t in s.handlers && s.handlers[t].Submitting?
    ensures s.handlers[t].id != id
  {
    assert HandlerFits(s, t);
    assert IsSubmitting(id)(s.handlers[t]) ==> Submits(s, id);
  }

  predicate IsRejected(s: System, id: RequestId) {
    id in s.requests && s.requests[id].rejected
  }

  lemma RecordKeepsRejected(s: System, tid: nat, waitCost: int, id: RequestId)
    requires CanRecord(s, tid) && IsRejected(s, id)
    ensures IsRejected(RecordStep(s, tid, waitCost), id)
  {}

  lemma ArriveKeepsRejected(s: System, step: Step, id: RequestId)
    requires step.Arrive? && Next(s, step).Some? && IsRejected(s, id)
    ensures IsRejected(Next(s, step).value, id)
  {}

  /** Being rejected is never taken back. */
  lemma RejectedStays(s: System, step: Step, id: RequestId)
    requires Next(s, step).Some? && IsRejected(s, id)
    ensures IsRejected(Next(s, step).value, id)
  {
    if step.RecordShard? {
      RecordKeepsRejected(s, step.tid, step.waitCost, id);
    } else if step.Arrive? {
      ArriveKeepsRejected(s, step, id);
    }
  }

  /** Only a call of Submit adds to the log of calls or to the accepted tasks. */
  lemma CallsAreLogged(s: System, step: Step, id: RequestId)
    requires Next(s, step).Some? && (step.CallSubmit? ==> s.handlers[step.tid].id != id)
    ensures var s' := Next(s, step).value;
      && (|| s'.submits == s.submits
          || (&& |s'.submits| == |s.submits| + 1 && s'.submits[|s.submits|] != id
              && s'.submits == s.submits + [s'.submits[|s.submits|]]))
      && (id in s'.exec.accepted <==> id in s.exec.accepted)
  {
    if step.CallSubmit? {
      var h := s.handlers[step.tid];
      SubmitAccepts(s.exec, h.id, h.plan, h.shards, id);
    }
  }

  /** From s on, the executor is never asked again to recover the request, and its flag stays. */
  ghost predicate NeverAgain(s: System, id: RequestId, s': System) {
    && s.submits <= s'.submits && id !in s'.submits[|s.submits|..]
    && (id in s'.exec.accepted <==> id in s.exec.accepted)
    && (IsRejected(s, id) ==> IsRejected(s', id))
  }

  lemma NeverAgainNext(s: System, id: RequestId, mid: System, step: Step)
    requires NeverAgain(s, id, mid) && Spent(s, id) && HandlersFit(mid) && StandingFits(StandingOf(mid, id))
    requires Next(mid, step).Some?
    ensures NeverAgain(s, id, Next(mid, step).value)
  {
    assert Spent(mid, id) by {
      assert id in s.submits ==> id in mid.submits[..|s.submits|];
    }
    if step.CallSubmit? { SpentDoesNotSubmit(mid, id, step.tid); }
    CallsAreLogged(mid, step, id);
    if IsRejected(mid, id) { RejectedStays(mid, step, id); }
  }

  lemma {:induction false} SpentForever(s: System, steps: seq<Step>, id: RequestId)
    requires Inv(s) && Stands(id)(s) && Spent(s, id) && Reach(s, steps).Some?
    ensures NeverAgain(s, id, Reach(s, steps).value)
  {
    if steps != [] {
      var front := steps[..|steps| - 1];
      SpentForever(s, front, id);
      ReachKeepsInv(s, front);
      ReachKeepsStanding(s, front, id);
      NeverAgainNext(s, id, Reach(s, front).value, steps[|steps| - 1]);
    }
  }

  /** The shard the handler records makes recovery possible, but there is no room for it. */
  ghost predicate LacksOnlyRoom(s: System, tid: nat)
    requires CanRecord(s, tid)
  {
    var h := s.handlers[tid];
    var shards := s.requests[h.id].shards[h.shard := Some(h.payload)];
    && Full(s.exec) && Undecided(s, h.id) && !SlotsStopped(s.g, shards)
    && exists i :: 0 <= i < s.g.k && shards[i].None?
  }

  lemma ReachOneMore(s: System, steps: seq<Step>, step: Step)
    requires Reach(s, steps).Some?
    ensures Reach(s, steps + [step]) == Next(Reach(s, steps).value, step)
  {
    assert (steps + [step])[..|steps|] == steps;
  }

  /**
   * No room when a shard is recorded that makes recovery possible: the request is marked rejected, and however the run
   * goes on it stays so and Submit is never called for it.
   */
  lemma FullMeansNever(g: BipartiteGraph, concurrency: nat, maxQueueDepth: nat, serviceCost: nat, early: seq<Step>,
                       tid: nat, waitCost: int, later: seq<Step>)
    requires ValidGraph(g) && concurrency > 0
    requires var end := Reach(Init(g, concurrency, maxQueueDepth, serviceCost), early);
      && end.Some? && CanRecord(end.value, tid) && LacksOnlyRoom(end.value, tid)
      && Reach(RecordStep(end.value, tid, waitCost), later).Some?
    ensures var s := Reach(Init(g, concurrency, maxQueueDepth, serviceCost), early).value;
      var end, id := Reach(RecordStep(s, tid, waitCost), later).value, s.handlers[tid].id;
      id in end.requests && end.requests[id].rejected && id !in end.submits && id !in end.exec.accepted
  {
    var start := Init(g, concurrency, maxQueueDepth, serviceCost);
    var s := Reach(start, early).value;
    var id, step := s.handlers[tid].id, RecordShard(tid, waitCost);
    DecisionIsExact(g, concurrency, maxQueueDepth, serviceCost, early, tid, waitCost);
    ReachOneMore(start, early, step);
    ReachableStands(g, concurrency, maxQueueDepth, serviceCost, early + [step], id);
    RejectedNeverSubmits(RecordStep(s, tid, waitCost), later, id);
  }

  lemma InNeither(front: seq<RequestId>, all: seq<RequestId>, id: RequestId)
    requires front <= all && id !in front && id !in all[|front|..]
    ensures id !in all
  {
    assert all == front + all[|front|..];
  }

  lemma RejectedNeverSubmits(s: System, later: seq<Step>, id: RequestId)
    requires Inv(s) && StandingFits(StandingOf(s, id)) && Reach(s, later).Some?
    requires IsRejected(s, id) && id !in s.submits
    ensures var end := Reach(s, later).value;
      IsRejected(end, id) && id !in end.submits && id !in end.exec.accepted
  {
    SpentForever(s, later, id);
    InNeither(s.submits, Reach(s, later).value.submits, id);
  }

  lemma RefusedAtCall(s: System, tid: nat)
    requires Inv(s) && tid in s.handlers && s.handlers[tid].Submitting? && Full(s.exec)
    requires StandingFits(StandingOf(s, s.handlers[tid].id))
    ensures var s', id := SubmitStep(s, tid), s.handlers[tid].id; id in s'.submits && id !in s'.exec.accepted
  {
    var h := s.handlers[tid];
    assert IsSubmitting(h.id)(h);
    assert HandlerFits(s, tid);
    SubmitAccepts(s.exec, h.id, h.plan, h.shards, h.id);
    assert SubmitStep(s, tid).submits[|s.submits|] == h.id;
  }

  /** A request whose submission was not accepted, with no handler left, is rejected or completed naturally. */
  lemma RefusalIsNoted(s: System, id: RequestId)
    requires Inv(s) && StandingFits(StandingOf(s, id))
    requires id in s.submits && id !in s.exec.accepted && !InFlight(s, id)
    ensures id in s.requests && (s.requests[id].rejected || s.requests[id].status.NaturalComplete?)
  {
    assert ProfileFits(N(s), ProfileOf(s, id));
    assert !Notes(s, id);
  }

  /**
   * No room when Submit is called: the executor never accepts a task of the request, Submit is never called for it
   * again, and once no handler of it is in flight it is marked rejected, unless it has completed naturally.
   */
  lemma RefusalMeansNever(g: BipartiteGraph, concurrency: nat, maxQueueDepth: nat, serviceCost: nat, early: seq<Step>,
                          tid: nat, later: seq<Step>)
    requires ValidGraph(g) && concurrency > 0
    requires var end := Reach(Init(g, concurrency, maxQueueDepth, serviceCost), early);
      && end.Some? && tid in end.value.handlers && end.value.handlers[tid].Submitting? && Full(end.value.exec)
      && Reach(SubmitStep(end.value, tid), later).Some?
    ensures var s := Reach(Init(g, concurrency, maxQueueDepth, serviceCost), early).value;
      var called := SubmitStep(s, tid);
      var end, id := Reach(called, later).value, s.handlers[tid].id;
      && id !in end.exec.accepted && called.submits <= end.submits && id !in end.submits[|called.submits|..]
      && (!InFlight(end, id) ==>
            id in end.requests && (end.requests[id].rejected || end.requests[id].status.NaturalComplete?))
  {
    var start := Init(g, concurrency, maxQueueDepth, serviceCost);
    var s := Reach(start, early).value;
    var id, step := s.handlers[tid].id, CallSubmit(tid);
    ReachableStands(g, concurrency, maxQueueDepth, serviceCost, early, id);
    RefusedAtCall(s, tid);
    ReachOneMore(start, early, step);
    ReachableStands(g, concurrency, maxQueueDepth, serviceCost, early + [step], id);
    RefusedStaysOut(SubmitStep(s, tid), later, id);
  }

  lemma RefusedStaysOut(s: System, later: seq<Step>, id: RequestId)
    requires Inv(s) && StandingFits(StandingOf(s, id)) && Reach(s, later).Some?
    requires id in s.submits && id !in s.exec.accepted
    ensures var end := Reach(s, later).value;
      && id !in end.exec.accepted && s.submits <= end.submits && id !in end.submits[|s.submits|..]
      && (!InFlight(end, id) ==>
            id in end.requests && (end.requests[id].rejected || end.requests[id].status.NaturalComplete?))
  {
    var end := Reach(s, later).value;
    SpentForever(s, later, id);
    ReachKeepsInv(s, later);
    ReachKeepsStanding(s, later, id);
    assert id in end.submits[..|s.submits|];
    if !InFlight(end, id) { RefusalIsNoted(end, id); }
  }

  // ---------- late arrivals ----------

  /** The step delivers a shard to a request that is already terminal. */
  predicate IsLate(s: System, step: Step, id: RequestId) {
    step.Arrive? && step.id == id && Terminal(s, id)
  }

  lemma RecordKeepsLate(s: System, tid: nat, waitCost: int, id: RequestId)
    requires CanRecord(s, tid) && id in s.requests
    ensures id in RecordStep(s, tid, waitCost).requests
    ensures RecordStep(s, tid, waitCost).requests[id].lateArrivals == s.requests[id].lateArrivals
  {}

  lemma LateStep(s: System, step: Step, id: RequestId)
    requires Next(s, step).Some? && id in s.requests
    ensures var s' := Next(s, step).value;
      id in s'.requests
      && s'.requests[id].lateArrivals == s.requests[id].lateArrivals + if IsLate(s, step, id) then 1 else 0
  {
    if step.RecordShard? { RecordKeepsLate(s, step.tid, step.waitCost, id); }
  }

  lemma NewRequestsAreNotLate(s: System, step: Step, id: RequestId)
    requires Next(s, step).Some? && id !in s.requests && id in Next(s, step).value.requests
    ensures Next(s, step).value.requests[id].lateArrivals == 0
  {}

  /** The i-th step of a run delivers a shard to the request too late. */
  predicate LateAt(s: System, steps: seq<Step>, id: RequestId, i: nat)
    requires i < |steps|
  {
    Reach(s, steps[..i]).Some? && IsLate(Reach(s, steps[..i]).value, steps[i], id)
  }

  function LateSteps(s: System, steps: seq<Step>, id: RequestId): set<nat> {
    set i: nat | i < |steps| && LateAt(s, steps, id, i)
  }

  lemma LateAtFront(s: System, steps: seq<Step>, id: RequestId, i: nat)
    requires i < |steps| - 1
    ensures LateAt(s, steps[..|steps| - 1], id, i) <==> LateAt(s, steps, id, i)
  {
    assert steps[..|steps| - 1][..i] == steps[..i];
  }

  lemma OneMoreMember(front: set<nat>, all: set<nat>, last: nat)
    requires forall i: nat :: i in front <==> i in all && i != last
    ensures |all| == |front| + if last in all then 1 else 0
  {
    assert all == front + if last in all then {last} else {};
  }

  lemma LateStepsSnoc(s: System, steps: seq<Step>, id: RequestId)
    requires steps != []
    ensures var last := |steps| - 1;
      |LateSteps(s, steps, id)| == |LateSteps(s, steps[..last], id)| + if LateAt(s, steps, id, last) then 1 else 0
  {
    var last := |steps| - 1;
    var front, all := LateSteps(s, steps[..last], id), LateSteps(s, steps, id);
    forall i: nat ensures i in front <==> i in all && i != last { LateMember(s, steps, id, i); }
    OneMoreMember(front, all, last);
  }

  lemma LateMember(s: System, steps: seq<Step>, id: RequestId, i: nat)
    requires steps != []
    ensures i in LateSteps(s, steps[..|steps| - 1], id) <==> i in LateSteps(s, steps, id) && i != |steps| - 1
  {
    if i < |steps| - 1 { LateAtFront(s, steps, id, i); }
  }

  /** On every run a request's late arrivals are exactly the deliveries after it became terminal. */
  lemma {:induction false} LateArrivalsAreCounted(g: BipartiteGraph, concurrency: nat, maxQueueDepth: nat,
                                                  serviceCost: nat, steps: seq<Step>, id: RequestId)
    requires Reach(Init(g, concurrency, maxQueueDepth, serviceCost), steps).Some?
    ensures var start := Init(g, concurrency, maxQueueDepth, serviceCost);
      var late, end := |LateSteps(start, steps, id)|, Reach(start, steps).value;
      late == if id in end.requests then end.requests[id].lateArrivals else 0
  {
    var start := Init(g, concurrency, maxQueueDepth, serviceCost);
    if steps == [] {
      assert LateSteps(start, steps, id) == {};
    } else {
      var front, step := steps[..|steps| - 1], steps[|steps| - 1];
      var before := Reach(start, front).value;
      LateArrivalsAreCounted(g, concurrency, maxQueueDepth, serviceCost, front, id);
      LateStepsSnoc(start, steps, id);
      if id in before.requests {
        LateStep(before, step, id);
      } else if id in Next(before, step).value.requests {
        NewRequestsAreNotLate(before, step, id);
      }
    }
  }
}
