/** What every step of clients and workers keeps of the executor's state, on every run. */
module ExecutorSafety {
  import opened Shards
  import opened Graphs
  import opened Executor

  // ---------- invariant ----------

  predicate IdsApart(e: State) {
    && (forall i, j | 0 <= i < j < |e.queue| :: e.queue[i].id != e.queue[j].id)
    && (forall i | 0 <= i < |e.queue| :: e.queue[i].id !in e.running && e.queue[i].id !in e.staged)
    && (forall w | 0 <= w < |e.workers| && !e.workers[w].Idle? ::
          e.workers[w].task.id in e.running && e.workers[w].task.id !in e.staged)
    && (forall v, w | 0 <= v < w < |e.workers| && !e.workers[v].Idle? && !e.workers[w].Idle? ::
          e.workers[v].task.id != e.workers[w].task.id)
  }

  predicate HeldBy(e: State, id: RequestId, w: nat) {
    w < |e.workers| && !e.workers[w].Idle? && e.workers[w].task.id == id
  }

  predicate Bounded(e: State) {
    && 0 < e.concurrency <= e.capacity && |e.workers| == e.concurrency
    && Outstanding(e) <= e.capacity
    && e.cancelled <= e.running
    && forall id | id in e.running :: exists w | 0 <= w < |e.workers| :: HeldBy(e, id, w)
  }

  predicate Logged(e: State, task: Task) {
    task.ticket < |e.accepted| && e.accepted[task.ticket] == task.id && task.ticket !in e.fates
  }

  predicate QueueHas(e: State, ticket: nat) {
    exists i | 0 <= i < |e.queue| :: e.queue[i].ticket == ticket
  }

  predicate WorkerHas(e: State, ticket: nat) {
    exists w | 0 <= w < |e.workers| :: Unsettled(e.workers[w]) && e.workers[w].task.ticket == ticket
  }

  /** Every accepted task is live or has met its fate, never both. */
  predicate Accounted(e: State) {
    && (forall i | 0 <= i < |e.queue| :: Logged(e, e.queue[i]))
    && (forall w | 0 <= w < |e.workers| && Unsettled(e.workers[w]) :: Logged(e, e.workers[w].task))
    && (forall t | 0 <= t < |e.accepted| :: t in e.fates || QueueHas(e, t) || WorkerHas(e, t))
    && forall t | t in e.fates :: t < |e.accepted|
  }

  predicate Inv(e: State) {
    IdsApart(e) && Bounded(e) && Accounted(e)
  }

  lemma InitInv(concurrency: nat, maxQueueDepth: nat, serviceCost: nat)
    requires concurrency > 0
    ensures Inv(Init(concurrency, maxQueueDepth, serviceCost))
  {}

  lemma RestageKeepsInv(e: State, id: RequestId, context: Slots)
    requires Inv(e) && id !in e.running && !Queued(e, id)
    ensures Inv(e.(staged := e.staged[id := context]))
  {
    var e' := e.(staged := e.staged[id := context]);
    assert forall t | QueueHas(e, t) :: QueueHas(e', t);
    assert forall t | WorkerHas(e, t) :: WorkerHas(e', t);
    assert forall i, w | HeldBy(e, i, w) :: HeldBy(e', i, w);
  }

  lemma StageKeepsInv(e: State, id: RequestId, shardCount: nat, shard: ShardId, payload: Shard)
    requires Inv(e)
    ensures Inv(StageShard(e, id, shardCount, shard, payload).0)
  {
    var e' := StageShard(e, id, shardCount, shard, payload).0;
    if e' != e {
      RestageKeepsInv(e, id, e'.staged[id]);
    }
  }

  lemma EnqueueKeepsApart(e: State, task: Task)
    requires IdsApart(e) && task.id !in e.running && !Queued(e, task.id)
    ensures IdsApart(Enqueued(e, task))
  {}

  lemma EnqueueKeepsAccounted(e: State, task: Task)
    requires Accounted(e) && task.ticket == |e.accepted|
    ensures Accounted(Enqueued(e, task))
  {
    var e' := Enqueued(e, task);
    forall i | 0 <= i < |e'.queue| ensures Logged(e', e'.queue[i]) {
      assert i < |e.queue| ==> e'.queue[i] == e.queue[i] && Logged(e, e.queue[i]);
    }
    forall t | 0 <= t < |e'.accepted| ensures t in e'.fates || QueueHas(e', t) || WorkerHas(e', t) {
      if t == |e.accepted| {
        assert e'.queue[|e.queue|].ticket == t;
      } else if QueueHas(e, t) {
        var i :| 0 <= i < |e.queue| && e.queue[i].ticket == t;
        assert e'.queue[i].ticket == t;
      } else {
        assert WorkerHas(e, t) ==> WorkerHas(e', t);
      }
    }
  }

  lemma SubmitKeepsInv(e: State, id: RequestId, plan: DecodePlan, shards: Slots)
    requires Inv(e)
    ensures Inv(Submit(e, id, plan, shards).0)
  {
    var (e', outcome) := Submit(e, id, plan, shards);
    if outcome.Accepted? {
      var task := e'.queue[|e.queue|];
      EnqueueKeepsApart(e, task);
      EnqueueKeepsAccounted(e, task);
      assert Bounded(e') by {
        assert forall i, w | HeldBy(e, i, w) :: HeldBy(e', i, w);
      }
    } else {
      DropStagedKeepsInv(e, id);
    }
  }

  lemma DroppingElements(queue: seq<Task>, i: nat)
    requires i < |queue|
    ensures |Dropping(queue, i)| == |queue| - 1
    ensures forall j | 0 <= j < |queue| - 1 :: Dropping(queue, i)[j] == queue[if j < i then j else j + 1]
  {
    var rest := Dropping(queue, i);
    forall j | 0 <= j < |queue| - 1 ensures rest[j] == queue[if j < i then j else j + 1] {
      if j >= i { assert rest[j] == queue[i + 1..][j - i]; }
    }
  }

  /** Everything a settled ticket is not stays logged. */
  lemma SettlingKeepsLogged(e: State, task: Task, other: Task, fate: Fate)
    requires Logged(e, task) && Logged(e, other) && task.id != other.id
    ensures Logged(e.(fates := e.fates[task.ticket := fate]), other)
  {}

  function Removed(e: State, i: nat): State
    requires i < |e.queue|
  {
    e.(queue := Dropping(e.queue, i), fates := e.fates[e.queue[i].ticket := RemovedWhileQueued])
  }

  lemma RemovalKeepsApart(e: State, i: nat)
    requires IdsApart(e) && i < |e.queue|
    ensures IdsApart(Removed(e, i))
  {
    DroppingElements(e.queue, i);
  }

  lemma RemovalKeepsLogged(e: State, i: nat)
    requires IdsApart(e) && Accounted(e) && i < |e.queue|
    ensures forall j | 0 <= j < |Removed(e, i).queue| :: Logged(Removed(e, i), Removed(e, i).queue[j])
    ensures forall w | 0 <= w < |e.workers| && Unsettled(e.workers[w]) :: Logged(Removed(e, i), e.workers[w].task)
  {
    var e', task := Removed(e, i), e.queue[i];
    DroppingElements(e.queue, i);
    assert Logged(e, task);
    forall j | 0 <= j < |e'.queue| ensures Logged(e', e'.queue[j]) {
      SettlingKeepsLogged(e, task, e.queue[if j < i then j else j + 1], RemovedWhileQueued);
    }
    forall w | 0 <= w < |e.workers| && Unsettled(e.workers[w]) ensures Logged(e', e.workers[w].task) {
      SettlingKeepsLogged(e, task, e.workers[w].task, RemovedWhileQueued);
    }
  }

  lemma RemovalKeepsAccounted(e: State, i: nat)
    requires IdsApart(e) && Accounted(e) && i < |e.queue|
    ensures Accounted(Removed(e, i))
  {
    var e', task := Removed(e, i), e.queue[i];
    DroppingElements(e.queue, i);
    RemovalKeepsLogged(e, i);
    assert Logged(e, task);
    forall t | 0 <= t < |e'.accepted| ensures t in e'.fates || QueueHas(e', t) || WorkerHas(e', t) {
      if QueueHas(e, t) && t != task.ticket {
        var j :| 0 <= j < |e.queue| && e.queue[j].ticket == t;
        if j < i { assert e'.queue[j] == e.queue[j]; } else { assert e'.queue[j - 1] == e.queue[j]; }
      } else {
        assert WorkerHas(e, t) ==> WorkerHas(e', t);
      }
    }
  }

  lemma RemovalKeepsInv(e: State, i: nat)
    requires Inv(e) && i < |e.queue|
    ensures Inv(Removed(e, i))
  {
    RemovalKeepsApart(e, i);
    RemovalKeepsAccounted(e, i);
    assert Bounded(Removed(e, i)) by {
      assert forall id, w | HeldBy(e, id, w) :: HeldBy(Removed(e, i), id, w);
    }
  }

  lemma DropStagedKeepsInv(e: State, id: RequestId)
    requires Inv(e)
    ensures Inv(e.(staged := e.staged - {id}))
  {
    var e' := e.(staged := e.staged - {id});
    assert forall i, w | HeldBy(e, i, w) :: HeldBy(e', i, w);
    assert forall t | WorkerHas(e, t) :: WorkerHas(e', t);
    assert forall t | QueueHas(e, t) :: QueueHas(e', t);
  }

  lemma CancelKeepsInv(e: State, id: RequestId)
    requires Inv(e)
    ensures Inv(Cancel(e, id))
  {
    DropStagedKeepsInv(e, id);
    var dropped := e.(staged := e.staged - {id});
    if Queued(e, id) {
      RemovalKeepsInv(dropped, IndexOf(e.queue, id));
    } else if id in e.running {
      var e' := Cancel(e, id);
      assert forall i, w | HeldBy(e, i, w) :: HeldBy(e', i, w);
      assert forall t | WorkerHas(e, t) :: WorkerHas(e', t);
      assert forall t | QueueHas(e, t) :: QueueHas(e', t);
    }
  }

  lemma PopKeepsApart(e: State, w: nat)
    requires IdsApart(e) && w < |e.workers| && e.workers[w].Idle? && e.queue != []
    ensures IdsApart(Pop(e, w))
  {
    var e' := Pop(e, w);
    assert forall j | 0 <= j < |e'.queue| :: e'.queue[j] == e.queue[j + 1];
  }

  lemma PopKeepsAccounted(e: State, w: nat)
    requires Accounted(e) && w < |e.workers| && e.workers[w].Idle? && e.queue != []
    ensures Accounted(Pop(e, w))
  {
    var e' := Pop(e, w);
    forall j | 0 <= j < |e'.queue| ensures Logged(e', e'.queue[j]) {
      assert e'.queue[j] == e.queue[j + 1] && Logged(e, e.queue[j + 1]);
    }
    forall v | 0 <= v < |e'.workers| && Unsettled(e'.workers[v]) ensures Logged(e', e'.workers[v].task) {
      assert if v == w then Logged(e, e.queue[0]) else Logged(e, e.workers[v].task);
    }
    forall t | 0 <= t < |e'.accepted| ensures t in e'.fates || QueueHas(e', t) || WorkerHas(e', t) {
      if QueueHas(e, t) {
        var j :| 0 <= j < |e.queue| && e.queue[j].ticket == t;
        if j > 0 {
          assert e'.queue[j - 1].ticket == t;
        } else {
          assert Unsettled(e'.workers[w]) && e'.workers[w].task.ticket == t;
        }
      } else if WorkerHas(e, t) {
        var v :| 0 <= v < |e.workers| && Unsettled(e.workers[v]) && e.workers[v].task.ticket == t;
        assert e'.workers[v] == e.workers[v];
      }
    }
  }

  lemma PopKeepsBounded(e: State, w: nat)
    requires Bounded(e) && w < |e.workers| && e.workers[w].Idle? && e.queue != [] && e.queue[0].id !in e.running
    ensures Bounded(Pop(e, w))
  {
    var e' := Pop(e, w);
    assert HeldBy(e', e.queue[0].id, w);
    forall id | id in e'.running ensures exists v | 0 <= v < |e'.workers| :: HeldBy(e', id, v) {
      if id in e.running {
        var v :| 0 <= v < |e.workers| && HeldBy(e, id, v);
        assert HeldBy(e', id, v);
      }
    }
  }

  lemma PopKeepsInv(e: State, w: nat)
    requires Inv(e) && w < |e.workers| && e.workers[w].Idle? && e.queue != []
    ensures Inv(Pop(e, w))
  {
    PopKeepsApart(e, w);
    PopKeepsAccounted(e, w);
    PopKeepsBounded(e, w);
  }

  /** Common part of the two steps that settle a worker's task. */
  lemma SettleKeepsInv(e: State, w: nat, fate: Fate)
    requires Inv(e) && w < |e.workers| && Unsettled(e.workers[w])
    ensures var task := e.workers[w].task;
      Inv(e.(workers := e.workers[w := Cleaning(task)], fates := e.fates[task.ticket := fate]))
  {
    var task := e.workers[w].task;
    var e' := e.(workers := e.workers[w := Cleaning(task)], fates := e.fates[task.ticket := fate]);
    assert Bounded(e') by {
      assert forall id, v | HeldBy(e, id, v) :: HeldBy(e', id, v);
    }
    assert IdsApart(e');
    assert Accounted(e') by {
      assert Logged(e, task);
      assert forall t | QueueHas(e, t) :: QueueHas(e', t);
      forall t | WorkerHas(e, t) ensures WorkerHas(e', t) || t in e'.fates {
        var v :| 0 <= v < |e.workers| && Unsettled(e.workers[v]) && e.workers[v].task.ticket == t;
        assert v != w ==> e'.workers[v] == e.workers[v];
      }
      forall i | 0 <= i < |e'.queue| ensures Logged(e', e'.queue[i]) {
        SettlingKeepsLogged(e, task, e.queue[i], fate);
      }
      forall v | 0 <= v < |e'.workers| && Unsettled(e'.workers[v]) ensures Logged(e', e'.workers[v].task) {
        assert v != w;
        SettlingKeepsLogged(e, task, e.workers[v].task, fate);
      }
    }
  }

  lemma CheckKeepsInv(e: State, w: nat)
    requires Inv(e) && w < |e.workers| && e.workers[w].Working?
    ensures Inv(CheckCancelled(e, w))
  {
    if e.workers[w].task.id in e.cancelled {
      SettleKeepsInv(e, w, Suppressed);
    } else {
      var e' := CheckCancelled(e, w);
      assert forall id, v | HeldBy(e, id, v) :: HeldBy(e', id, v);
      assert forall t | QueueHas(e, t) :: QueueHas(e', t);
      forall t | WorkerHas(e, t) ensures WorkerHas(e', t) {
        var v :| 0 <= v < |e.workers| && Unsettled(e.workers[v]) && e.workers[v].task.ticket == t;
        assert Unsettled(e'.workers[v]) && e'.workers[v].task == e.workers[v].task;
      }
      forall v | 0 <= v < |e'.workers| && Unsettled(e'.workers[v]) ensures Logged(e', e'.workers[v].task) {
        assert Logged(e, e.workers[v].task);
      }
    }
  }

  lemma CompleteKeepsInv(e: State, w: nat)
    requires Inv(e) && w < |e.workers| && e.workers[w].Completing?
    ensures Inv(Complete(e, w))
  {
    SettleKeepsInv(e, w, Completed);
  }

  lemma FinishKeepsBounded(e: State, w: nat)
    requires IdsApart(e) && Bounded(e) && w < |e.workers| && e.workers[w].Cleaning?
    ensures IdsApart(Finish(e, w)) && Bounded(Finish(e, w))
  {
    var e' := Finish(e, w);
    forall i | i in e'.running ensures exists v | 0 <= v < |e'.workers| :: HeldBy(e', i, v) {
      var v :| 0 <= v < |e.workers| && HeldBy(e, i, v);
      assert HeldBy(e', i, v);
    }
  }

  lemma FinishKeepsAccounted(e: State, w: nat)
    requires Accounted(e) && w < |e.workers| && e.workers[w].Cleaning?
    ensures Accounted(Finish(e, w))
  {
    var e' := Finish(e, w);
    assert forall t | QueueHas(e, t) :: QueueHas(e', t);
    forall t | WorkerHas(e, t) ensures WorkerHas(e', t) {
      var v :| 0 <= v < |e.workers| && Unsettled(e.workers[v]) && e.workers[v].task.ticket == t;
      assert e'.workers[v] == e.workers[v];
    }
    forall v | 0 <= v < |e'.workers| && Unsettled(e'.workers[v]) ensures Logged(e', e'.workers[v].task) {
      assert Logged(e, e.workers[v].task);
    }
  }

  lemma FinishKeepsInv(e: State, w: nat)
    requires Inv(e) && w < |e.workers| && e.workers[w].Cleaning?
    ensures Inv(Finish(e, w))
  {
    FinishKeepsBounded(e, w);
    FinishKeepsAccounted(e, w);
  }

  // ---------- runs with an arbitrary client ----------

  datatype Step =
    | DoStage(id: RequestId, shardCount: nat, shard: ShardId, payload: Shard)
    | DoSubmit(id: RequestId, plan: DecodePlan, shards: Slots)
    | DoCancel(id: RequestId)
    | DoPop(w: nat) | DoCheck(w: nat) | DoComplete(w: nat) | DoFinish(w: nat)

  /** The successor state; None when the step is not enabled. */
  function Next(e: State, step: Step): Option<State> {
    match step
    case DoStage(id, n, shard, payload) =>
      Some(StageShard(e, id, n, shard, payload).0)
    case DoSubmit(id, plan, shards) => Some(Submit(e, id, plan, shards).0)
    case DoCancel(id) => Some(Cancel(e, id))
    case DoPop(w) => if w < |e.workers| && e.workers[w].Idle? && e.queue != [] then Some(Pop(e, w)) else None
    case DoCheck(w) => if w < |e.workers| && e.workers[w].Working? then Some(CheckCancelled(e, w)) else None
    case DoComplete(w) => if w < |e.workers| && e.workers[w].Completing? then Some(Complete(e, w)) else None
    case DoFinish(w) => if w < |e.workers| && e.workers[w].Cleaning? then Some(Finish(e, w)) else None
  }

  lemma NextKeepsInv(e: State, step: Step)
    requires Inv(e) && Next(e, step).Some?
    ensures Inv(Next(e, step).value)
  {
    match step
    case DoStage(id, n, shard, payload) => StageKeepsInv(e, id, n, shard, payload);
    case DoSubmit(id, plan, shards) => SubmitKeepsInv(e, id, plan, shards);
    case DoCancel(id) => CancelKeepsInv(e, id);
    case DoPop(w) => PopKeepsInv(e, w);
    case DoCheck(w) => CheckKeepsInv(e, w);
    case DoComplete(w) => CompleteKeepsInv(e, w);
    case DoFinish(w) => FinishKeepsInv(e, w);
  }

  /** A fate, once met, is final, and a completion is only ever called for a task without one. */
  lemma FatesAreFinal(e: State, step: Step)
    requires Inv(e) && Next(e, step).Some?
    ensures forall t | t in e.fates :: t in Next(e, step).value.fates && Next(e, step).value.fates[t] == e.fates[t]
    ensures step.DoComplete? ==> e.workers[step.w].task.ticket !in e.fates
  {
    if step.DoCancel? && Queued(e, step.id) {
      assert Logged(e, e.queue[IndexOf(e.queue, step.id)]);
    } else if step.DoCheck? || step.DoComplete? {
      assert Unsettled(e.workers[step.w]);
      assert Logged(e, e.workers[step.w].task);
    }
  }

  function Reach(e: State, steps: seq<Step>): Option<State> {
    if steps == [] then Some(e)
    else
      var before := Reach(e, steps[..|steps| - 1]);
      if before.None? then None else Next(before.value, steps[|steps| - 1])
  }

  lemma {:induction false} ReachKeepsInv(e: State, steps: seq<Step>)
    requires Inv(e) && Reach(e, steps).Some?
    ensures Inv(Reach(e, steps).value)
  {
    if steps != [] {
      ReachKeepsInv(e, steps[..|steps| - 1]);
      NextKeepsInv(Reach(e, steps[..|steps| - 1]).value, steps[|steps| - 1]);
    }
  }

  lemma ReachSnoc(e: State, steps: seq<Step>, step: Step)
    requires Reach(e, steps + [step]).Some?
    ensures Reach(e, steps).Some? && Next(Reach(e, steps).value, step) == Reach(e, steps + [step])
  {
    assert (steps + [step])[..|steps|] == steps;
  }

  lemma {:induction false} ReachPrefix(e: State, early: seq<Step>, later: seq<Step>)
    requires Reach(e, early + later).Some?
    ensures Reach(e, early).Some? && Reach(Reach(e, early).value, later) == Reach(e, early + later)
  {
    if later == [] {
      assert early + later == early;
    } else {
      var front, step := later[..|later| - 1], later[|later| - 1];
      assert early + later == (early + front) + [step];
      ReachSnoc(e, early + front, step);
      ReachPrefix(e, early, front);
    }
  }

  /** Over a whole run, every fate met stays as it was met. */
  lemma {:induction false} FatesForever(e: State, steps: seq<Step>)
    requires Inv(e) && Reach(e, steps).Some?
    ensures forall t | t in e.fates :: t in Reach(e, steps).value.fates && Reach(e, steps).value.fates[t] == e.fates[t]
  {
    if steps != [] {
      var front := steps[..|steps| - 1];
      FatesForever(e, front);
      ReachKeepsInv(e, front);
      FatesAreFinal(Reach(e, front).value, steps[|steps| - 1]);
    }
  }

  /** The ticket whose completion handler a step calls. */
  predicate Completes(e: State, step: Step, ticket: nat) {
    step.DoComplete? && step.w < |e.workers| && e.workers[step.w].Completing? && e.workers[step.w].task.ticket == ticket
  }

  lemma CompletesUnmet(e: State, step: Step, ticket: nat)
    requires Inv(e) && Completes(e, step, ticket)
    ensures ticket !in e.fates && ticket in Next(e, step).value.fates
  {
    FatesAreFinal(e, step);
  }

  lemma NeverTwice(before: State, step: Step, later: seq<Step>, again: Step, ticket: nat)
    requires Inv(before) && Next(before, step).Some? && Reach(Next(before, step).value, later).Some?
    requires Completes(before, step, ticket) || ticket in before.fates
    ensures !Completes(Reach(Next(before, step).value, later).value, again, ticket)
  {
    var after := Next(before, step).value;
    if Completes(before, step, ticket) { CompletesUnmet(before, step, ticket); } else { FatesAreFinal(before, step); }
    NextKeepsInv(before, step);
    FatesForever(after, later);
    ReachKeepsInv(after, later);
    var last := Reach(after, later).value;
    if Completes(last, again, ticket) { CompletesUnmet(last, again, ticket); }
  }

  /**
   * On every run of clients and workers no accepted task has its completion handler called twice, and none that a
   * cancellation withdrew or suppressed has it called at all.
   */
  lemma CompletedAtMostOnce(concurrency: nat, maxQueueDepth: nat, serviceCost: nat, early: seq<Step>, step: Step,
                            later: seq<Step>, again: Step, ticket: nat)
    requires concurrency > 0
    requires Reach(Init(concurrency, maxQueueDepth, serviceCost), early + [step] + later).Some?
    ensures var start := Init(concurrency, maxQueueDepth, serviceCost);
      && Reach(start, early).Some?
      && (Completes(Reach(start, early).value, step, ticket) || ticket in Reach(start, early).value.fates ==>
            !Completes(Reach(start, early + [step] + later).value, again, ticket))
  {
    var start := Init(concurrency, maxQueueDepth, serviceCost);
    InitInv(concurrency, maxQueueDepth, serviceCost);
    ReachPrefix(start, early + [step], later);
    ReachSnoc(start, early, step);
    ReachKeepsInv(start, early);
    var before := Reach(start, early).value;
    if Completes(before, step, ticket) || ticket in before.fates {
      NeverTwice(before, step, later, again, ticket);
    }
  }

  /**
   * On every run of clients and workers: queued ids are distinct and apart from running ids, staged ids are apart from
   * both, cancelled ids are running, capacity holds; and when the workers have drained, every accepted task has met
   * its fate.
   */
  lemma ExecutorIsSafe(concurrency: nat, maxQueueDepth: nat, serviceCost: nat, steps: seq<Step>)
    requires concurrency > 0
    requires Reach(Init(concurrency, maxQueueDepth, serviceCost), steps).Some?
    ensures var e := Reach(Init(concurrency, maxQueueDepth, serviceCost), steps).value;
      && IdsApart(e) && e.cancelled <= e.running
      && e.capacity == concurrency + maxQueueDepth && |e.workers| == concurrency
      && |e.queue| + |e.running| <= concurrency + maxQueueDepth
      && (e.queue == [] && (forall w | 0 <= w < |e.workers| :: e.workers[w].Idle?) ==>
            e.running == {} && forall t | 0 <= t < |e.accepted| :: t in e.fates)
  {
    InitInv(concurrency, maxQueueDepth, serviceCost);
    ReachKeepsInv(Init(concurrency, maxQueueDepth, serviceCost), steps);
    ReachKeepsLimits(Init(concurrency, maxQueueDepth, serviceCost), steps);
  }

  /** Worker count, capacity and service estimate are fixed when the executor is built. */
  lemma {:induction false} ReachKeepsLimits(e: State, steps: seq<Step>)
    requires Reach(e, steps).Some?
    ensures var e' := Reach(e, steps).value;
      e'.capacity == e.capacity && e'.serviceCost == e.serviceCost && e'.concurrency == e.concurrency
  {
    if steps != [] { ReachKeepsLimits(e, steps[..|steps| - 1]); }
  }
}
