/**
 * Coordinator, executor and in-flight arrival handlers as one interleaved state machine. A handler holds the
 * coordinator's lock from its first check to its decision; executor steps may interleave even then. Between locked
 * sections a handler is only a program counter.
 */
module Protocol {
  import opened Shards
  import opened Graphs
  import opened Policy
  import opened Coordinator
  import opened ExecutorEffects
  import opened Admission
  import E = Executor
  import ES = ExecutorSafety
  import Staging

  /** Where an arrival handler is between two locked sections. */
  datatype Handler =
    | Storing(id: RequestId, shard: ShardId, payload: Shard, now: int)
    | Cancelling(id: RequestId)
    | Submitting(id: RequestId, plan: DecodePlan, shards: Slots)
    | Rechecking(id: RequestId)
    | NotingRefusal(id: RequestId)

  /** `submits` logs every call of Submit. */
  datatype System = System(
    g: BipartiteGraph, requests: map<RequestId, Request>, lock: Option<nat>, exec: E.State,
    handlers: map<nat, Handler>, submits: seq<RequestId>)

  function Init(g: BipartiteGraph, concurrency: nat, maxQueueDepth: nat, serviceCost: nat): System {
    System(g, map[], None, E.Init(concurrency, maxQueueDepth, serviceCost), map[], [])
  }

  datatype Step =
    | Start(id: RequestId)
    | Arrive(tid: nat, id: RequestId, shard: ShardId, payload: Shard, now: int)
    | RecordShard(tid: nat, waitCost: int)
    | CallSubmit(tid: nat) | Recheck(tid: nat) | NoteRefused(tid: nat) | CallCancel(tid: nat)
    | Pop(w: nat) | Check(w: nat) | Complete(w: nat) | Finish(w: nat)

  // ---------- steps ----------

  function ArriveStep(s: System, tid: nat, id: RequestId, shard: ShardId, payload: Shard, now: int): System {
    if id !in s.requests then s
    else match Receive(s.requests[id], shard, payload)
      case Threw => s
      case Ignored(r) => s.(requests := s.requests[id := r])
      case Stored(r) =>
        var (exec, ok) := E.StageShard(s.exec, id, |r.shards|, shard, payload);
        if ok then
          s.(requests := s.requests[id := r], exec := exec, lock := Some(tid),
             handlers := s.handlers[tid := Storing(id, shard, payload, now)])
        else s.(requests := s.requests[id := r], exec := exec)
  }

  predicate CanRecord(s: System, tid: nat) {
    && tid in s.handlers && s.handlers[tid].Storing? && s.handlers[tid].id in s.requests
    && ValidGraph(s.g) && s.exec.concurrency > 0
    && var r := s.requests[s.handlers[tid].id];
       s.handlers[tid].shard < |r.shards| == |r.arrivals| == s.g.k + s.g.m
  }

  function RecordStep(s: System, tid: nat, waitCost: int): System
    requires CanRecord(s, tid)
  {
    var h := s.handlers[tid];
    var (r, action) := Record(s.g, s.requests[h.id], h.shard, h.payload, h.now,
                              E.EstimateRecoveryCost(s.exec), waitCost);
    s.(requests := s.requests[h.id := r], lock := None,
       handlers := match action
         case NoAction => s.handlers - {tid}
         case CancelTask => s.handlers[tid := Cancelling(h.id)]
         case SubmitTask(plan, shards) => s.handlers[tid := Submitting(h.id, plan, shards)])
  }

  function SubmitStep(s: System, tid: nat): System
    requires tid in s.handlers && s.handlers[tid].Submitting?
  {
    var h := s.handlers[tid];
    var (exec, outcome) := E.Submit(s.exec, h.id, h.plan, h.shards);
    s.(exec := exec, submits := s.submits + [h.id],
       handlers := match outcome
         case Accepted => s.handlers[tid := Rechecking(h.id)]
         case Refused => s.handlers[tid := NotingRefusal(h.id)]
         case Threw => s.handlers - {tid})
  }

  function RecheckStep(s: System, tid: nat): System
    requires tid in s.handlers && s.handlers[tid].Rechecking? && s.handlers[tid].id in s.requests
  {
    var id := s.handlers[tid].id;
    s.(handlers := if s.requests[id].status.NaturalComplete? then s.handlers[tid := Cancelling(id)]
                   else s.handlers - {tid})
  }

  function RefusedStep(s: System, tid: nat): System
    requires tid in s.handlers && s.handlers[tid].NotingRefusal? && s.handlers[tid].id in s.requests
  {
    var id := s.handlers[tid].id;
    s.(requests := s.requests[id := NoteRefusal(s.requests[id])], handlers := s.handlers - {tid})
  }

  function CancelStep(s: System, tid: nat): System
    requires tid in s.handlers && s.handlers[tid].Cancelling?
  {
    s.(exec := E.Cancel(s.exec, s.handlers[tid].id), handlers := s.handlers - {tid})
  }

  function CompleteStep(s: System, w: nat): System
    requires w < |s.exec.workers| && s.exec.workers[w].Completing?
  {
    var task := s.exec.workers[w].task;
    s.(exec := E.Complete(s.exec, w),
       requests := if task.id in s.requests
                   then s.requests[task.id := RecoveryDone(s.requests[task.id], E.ResultOf(task))] else s.requests)
  }

  /** The successor; None when the step is not enabled. Coordinator sections need its lock to be free. */
  function Next(s: System, step: Step): Option<System> {
    match step
    case Start(id) =>
      if s.lock.None? && id !in s.requests
      then Some(s.(requests := s.requests[id := NewRequest(s.g.k + s.g.m)])) else None
    case Arrive(tid, id, shard, payload, now) =>
      if s.lock.None? && tid !in s.handlers then Some(ArriveStep(s, tid, id, shard, payload, now)) else None
    case RecordShard(tid, waitCost) => if CanRecord(s, tid) then Some(RecordStep(s, tid, waitCost)) else None
    case CallSubmit(tid) => if tid in s.handlers && s.handlers[tid].Submitting? then Some(SubmitStep(s, tid)) else None
    case Recheck(tid) =>
      if s.lock.None? && tid in s.handlers && s.handlers[tid].Rechecking? && s.handlers[tid].id in s.requests
      then Some(RecheckStep(s, tid)) else None
    case NoteRefused(tid) =>
      if s.lock.None? && tid in s.handlers && s.handlers[tid].NotingRefusal? && s.handlers[tid].id in s.requests
      then Some(RefusedStep(s, tid)) else None
    case CallCancel(tid) => if tid in s.handlers && s.handlers[tid].Cancelling? then Some(CancelStep(s, tid)) else None
    case Pop(w) =>
      if w < |s.exec.workers| && s.exec.workers[w].Idle? && s.exec.queue != []
      then Some(s.(exec := E.Pop(s.exec, w))) else None
    case Check(w) =>
      if w < |s.exec.workers| && s.exec.workers[w].Working? then Some(s.(exec := E.CheckCancelled(s.exec, w))) else None
    case Complete(w) =>
      if s.lock.None? && w < |s.exec.workers| && s.exec.workers[w].Completing? then Some(CompleteStep(s, w)) else None
    case Finish(w) =>
      if w < |s.exec.workers| && s.exec.workers[w].Cleaning? then Some(s.(exec := E.Finish(s.exec, w))) else None
  }

  // ---------- runs ----------

  function Reach(s: System, steps: seq<Step>): Option<System> {
    if steps == [] then Some(s)
    else
      var before := Reach(s, steps[..|steps| - 1]);
      if before.None? then None else Next(before.value, steps[|steps| - 1])
  }

  predicate Terminal(s: System, id: RequestId) {
    id in s.requests && !s.requests[id].status.Pending?
  }

  predicate InFlight(s: System, id: RequestId) {
    exists t :: t in s.handlers && s.handlers[t].id == id
  }

  // ---------- invariant ----------

  predicate RequestFits(g: BipartiteGraph, r: Request) {
    && |r.arrivals| == |r.shards| == g.k + g.m
    && (r.status.Pending? || r.status.NaturalComplete? ==>
          forall i | 0 <= i < |r.shards| :: r.arrivals[i].Some? <==> r.shards[i].Some?)
    && (r.status.Pending? ==> !SystematicComplete(g.k, r.arrivals))
    && (r.status.NaturalComplete? ==> SystematicComplete(g.k, r.arrivals))
    && (r.status.Pending? ==> forall i | 0 <= i < |r.shards| && r.shards[i].Some? ::
          |r.shards[i].value| == r.wordCount && r.wordCount > 0)
  }

  /** From its decision to its bookkeeping a handler owns its request's one submission. */
  predicate Owns(h: Handler) {
    h.Submitting? || h.Rechecking? || h.NotingRefusal?
  }

  predicate HandlerFits(s: System, tid: nat)
    requires tid in s.handlers
  {
    var h := s.handlers[tid];
    && h.id in s.requests
    && var r := s.requests[h.id];
    match h
    case Storing(_, shard, payload, _) =>
      && s.lock == Some(tid) && r.status.Pending? && shard < |r.shards| && r.shards[shard].None?
      && payload != [] && |payload| == r.wordCount
    case Cancelling(_) => r.status.NaturalComplete?
    case Submitting(_, _, shards) =>
      r.submitted && h.id !in s.submits && |shards| == s.g.k + s.g.m && NoEmptyShard(shards)
    case Rechecking(_) => h.id in s.submits && h.id in s.exec.accepted
    case NotingRefusal(_) => h.id in s.submits && h.id !in s.exec.accepted
  }

  predicate OwnersApart(hs: map<nat, Handler>) {
    forall t, u | t in hs && u in hs && t != u && Owns(hs[t]) && Owns(hs[u]) :: hs[t].id != hs[u].id
  }

  predicate HandlersFit(s: System) {
    && (forall t | t in s.handlers :: HandlerFits(s, t))
    && (s.lock.Some? ==> s.lock.value in s.handlers && s.handlers[s.lock.value].Storing?)
    && OwnersApart(s.handlers)
  }

  /** Submission is a one-way door. */
  predicate SubmitsFit(s: System) {
    && Distinct(s.submits)
    && forall id | id in s.submits :: id in s.requests && (s.requests[id].submitted || s.requests[id].closed)
  }

  predicate Has(hs: map<nat, Handler>, h: Handler) {
    exists t :: t in hs && hs[t] == h
  }

  /** The shard a handler under the lock is about to record. */
  function StoringOf(s: System, id: RequestId): Option<(ShardId, Shard)> {
    if && s.lock.Some? && s.lock.value in s.handlers && s.handlers[s.lock.value].Storing?
       && s.handlers[s.lock.value].id == id
    then Some((s.handlers[s.lock.value].shard, s.handlers[s.lock.value].payload)) else None
  }

  /** Everything the invariant says about one request. */
  datatype Profile = Profile(outlook: Outlook, request: Option<Request>, storing: Option<(ShardId, Shard)>,
                             called: bool, willCancel: bool, willRecheck: bool)

  function ProfileOf(s: System, id: RequestId): Profile {
    Profile(OutlookOf(s.exec, id), if id in s.requests then Some(s.requests[id]) else None, StoringOf(s, id),
            id in s.submits, Has(s.handlers, Cancelling(id)), Has(s.handlers, Rechecking(id)))
  }

  /** The shards as they will be once the handler under the lock has recorded its own. */
  function Effective(r: Request, storing: Option<(ShardId, Shard)>): (slots: Slots)
    ensures |slots| == |r.shards|
  {
    if storing.Some? && storing.value.0 < |r.shards| then r.shards[storing.value.0 := Some(storing.value.1)]
    else r.shards
  }

  predicate ProfileFits(n: nat, p: Profile) {
    var o := p.outlook;
    match p.request
    case None => !o.queued && !o.busy && !o.running && !o.cancelled && o.context.None? && !o.accepted
    case Some(r) =>
      && |r.shards| == n
      && (o.queued || o.busy ==> o.accepted && (r.status.Pending? || r.status.NaturalComplete?))
      && (o.accepted ==> p.called && o.context.None?)
      && (o.busy ==> o.running) && (o.running ==> o.accepted)
      && (o.cancelled ==> r.status.NaturalComplete?)
      && (r.status.Pending? && o.accepted ==> o.queued || o.busy)
      && (r.status.Recovered? || r.status.Failed? ==> o.accepted)
      // The staging context never holds a shard the coordinator does not, and mirrors it until the submission.
      && (o.context.Some? ==>
            && |o.context.value| == n
            && forall i | 0 <= i < n && o.context.value[i].Some? :: Effective(r, p.storing)[i].Some?)
      && (r.status.Pending? && !p.called ==>
            Effective(r, p.storing) == if o.context.Some? then o.context.value else Staging.EmptySlots(n))
      // Work of a naturally completed request is left behind only while a handler is on its way to cancel it.
      && (r.status.NaturalComplete? && o.queued ==> p.willCancel || p.willRecheck)
      && (r.status.NaturalComplete? && o.context.Some? ==> p.willCancel)
  }

  predicate Requests(s: System) {
    forall id | id in s.requests :: RequestFits(s.g, s.requests[id])
  }

  predicate Books(s: System) {
    Requests(s) && HandlersFit(s) && SubmitsFit(s)
  }

  ghost predicate Inv(s: System) {
    && ValidGraph(s.g) && ES.Inv(s.exec)
    && Books(s) && TasksSized(s)
    && forall id :: ProfileFits(N(s), ProfileOf(s, id))
  }

  function N(s: System): nat { s.g.k + s.g.m }

  function SizedTask(n: nat): E.Task -> bool {
    (task: E.Task) => |task.shards| == n
  }

  predicate TasksSized(s: System) {
    AllTasks(s.exec, SizedTask(N(s)))
  }

  lemma InitInv(g: BipartiteGraph, concurrency: nat, maxQueueDepth: nat, serviceCost: nat)
    requires ValidGraph(g) && concurrency > 0
    ensures Inv(Init(g, concurrency, maxQueueDepth, serviceCost))
  {
    ES.InitInv(concurrency, maxQueueDepth, serviceCost);
  }
}
