/** What each executor step does to one request's standing, without the details of queue and workers. */
module ExecutorEffects {
  import opened Shards
  import opened Graphs
  import opened Admission
  import opened Executor
  import opened ExecutorSafety
  import Staging

  /** A worker runs the request's task or is about to call its completion. */
  predicate Busy(e: State, id: RequestId) {
    exists w | 0 <= w < |e.workers| :: Unsettled(e.workers[w]) && e.workers[w].task.id == id
  }

  predicate Live(e: State, id: RequestId) {
    Queued(e, id) || Busy(e, id)
  }

  /** Every task the executor holds satisfies p. */
  predicate AllTasks(e: State, p: Task -> bool) {
    && (forall i | 0 <= i < |e.queue| :: p(e.queue[i]))
    && forall w | 0 <= w < |e.workers| && Unsettled(e.workers[w]) :: p(e.workers[w].task)
  }

  /** One request's standing in the executor. */
  datatype Outlook = Outlook(queued: bool, busy: bool, running: bool, context: Option<Slots>, cancelled: bool,
                             accepted: bool)

  function OutlookOf(e: State, id: RequestId): Outlook {
    Outlook(Queued(e, id), Busy(e, id), id in e.running, if id in e.staged then Some(e.staged[id]) else None,
            id in e.cancelled, id in e.accepted)
  }

  /** Live tasks were accepted, hold no staged context, and are queued or with a worker but never both. */
  lemma LiveOutlook(e: State, id: RequestId)
    requires Inv(e) && Live(e, id)
    ensures id in e.accepted && id !in e.staged
    ensures Busy(e, id) ==> id in e.running && !Queued(e, id)
  {
    if Queued(e, id) {
      var i :| 0 <= i < |e.queue| && e.queue[i].id == id;
      assert Logged(e, e.queue[i]);
    } else {
      var w :| 0 <= w < |e.workers| && Unsettled(e.workers[w]) && e.workers[w].task.id == id;
      assert Logged(e, e.workers[w].task);
    }
  }

  /** What staging does to a request that has no live task. */
  lemma StageOutlook(e: State, id: RequestId, n: nat, shard: ShardId, payload: Shard, j: RequestId)
    requires n > 0
    requires var o := OutlookOf(e, id);
      var context := if o.context.Some? then o.context.value else Staging.EmptySlots(n);
      o.queued || o.running || (|context| == n && StageFits(context, shard, payload))
    ensures var (e', ok), o := StageShard(e, id, n, shard, payload), OutlookOf(e, j);
      var context := if o.context.Some? then o.context.value else Staging.EmptySlots(n);
      && ok
      && (j == id && !o.queued && !o.running ==>
            OutlookOf(e', j) == o.(context := Some(context[shard := Some(payload)])))
      && (j != id || o.queued || o.running ==> OutlookOf(e', j) == o)
  {}

  lemma SubmitOutlook(e: State, id: RequestId, plan: DecodePlan, shards: Slots, j: RequestId)
    ensures var (e', outcome) := Submit(e, id, plan, shards);
      && (j != id ==> OutlookOf(e', j) == OutlookOf(e, j))
      && (j == id && outcome.Accepted? ==>
            OutlookOf(e', j) == OutlookOf(e, j).(queued := true, context := None, accepted := true))
      && (j == id && outcome.Refused? ==> OutlookOf(e', j) == OutlookOf(e, j).(context := None))
      && (outcome.Threw? ==>
            if id in e.staged then |e.staged[id]| != |shards| else shards == [] || !NoEmptyShard(shards))
  {
    var (e', outcome) := Submit(e, id, plan, shards);
    if Queued(e, j) {
      var i :| 0 <= i < |e.queue| && e.queue[i].id == j;
      assert e'.queue[i].id == j;
    }
    if outcome.Accepted? {
      assert e'.queue[|e.queue|].id == id;
    }
  }

  predicate HasId(queue: seq<Task>, id: RequestId) {
    exists i | 0 <= i < |queue| :: queue[i].id == id
  }

  lemma DroppingIds(queue: seq<Task>, i: nat, id: RequestId)
    requires i < |queue|
    requires forall a | 0 <= a < |queue| && a != i :: queue[a].id != queue[i].id
    ensures HasId(Dropping(queue, i), id) <==> HasId(queue, id) && id != queue[i].id
  {
    var rest := Dropping(queue, i);
    if HasId(queue, id) && id != queue[i].id {
      var q :| 0 <= q < |queue| && queue[q].id == id;
      if q < i { assert rest[q] == queue[q]; } else { assert rest[q - 1] == queue[q]; }
    }
    if HasId(rest, id) {
      var q :| 0 <= q < |rest| && rest[q].id == id;
      if q < i { assert queue[q] == rest[q]; } else { assert queue[q + 1] == rest[q]; }
    }
  }

  lemma CancelOutlook(e: State, id: RequestId, j: RequestId)
    requires IdsApart(e)
    ensures var o, o' := OutlookOf(e, j), OutlookOf(Cancel(e, id), j);
      if j == id then o' == o.(queued := false, context := None, cancelled := o'.cancelled) else o' == o
  {
    var e' := Cancel(e, id);
    assert Busy(e', j) == Busy(e, j) by {
      assert e'.workers == e.workers;
    }
    assert HasId(e.queue, j) == Queued(e, j) && HasId(e'.queue, j) == Queued(e', j);
    if Queued(e, id) {
      DroppingIds(e.queue, IndexOf(e.queue, id), j);
    }
  }

  lemma PopQueued(e: State, w: nat, j: RequestId)
    requires IdsApart(e) && w < |e.workers| && e.workers[w].Idle? && e.queue != []
    ensures Queued(e, e.queue[0].id)
    ensures Queued(Pop(e, w), j) <==> Queued(e, j) && j != e.queue[0].id
  {
    assert Dropping(e.queue, 0) == e.queue[1..];
    DroppingIds(e.queue, 0, j);
    assert HasId(e.queue, j) == Queued(e, j) && HasId(Pop(e, w).queue, j) == Queued(Pop(e, w), j);
    assert e.queue[0].id == e.queue[0].id;
  }

  lemma PopBusy(e: State, w: nat, j: RequestId)
    requires w < |e.workers| && e.workers[w].Idle? && e.queue != []
    ensures Busy(Pop(e, w), j) <==> Busy(e, j) || j == e.queue[0].id
  {
    var e' := Pop(e, w);
    if Busy(e, j) {
      var v :| 0 <= v < |e.workers| && Unsettled(e.workers[v]) && e.workers[v].task.id == j;
      assert e'.workers[v] == e.workers[v];
    }
    assert e'.workers[w].task.id == e.queue[0].id;
  }

  lemma PopOutlook(e: State, w: nat, j: RequestId)
    requires IdsApart(e) && w < |e.workers| && e.workers[w].Idle? && e.queue != []
    ensures OutlookOf(Pop(e, w), j) ==
      if j == e.queue[0].id then OutlookOf(e, j).(queued := false, busy := true, running := true) else OutlookOf(e, j)
    ensures OutlookOf(e, e.queue[0].id).queued
  {
    PopQueued(e, w, j);
    PopBusy(e, w, j);
  }

  /** A worker's own step changes only whether its own request is busy. */
  lemma WorkerBusy(e: State, w: nat, e': State, j: RequestId)
    requires IdsApart(e) && w < |e.workers| && !e.workers[w].Idle?
    requires |e'.workers| == |e.workers|
    requires forall v | 0 <= v < |e.workers| && v != w :: e'.workers[v] == e.workers[v]
    requires !e'.workers[w].Idle? ==> e'.workers[w].task == e.workers[w].task
    ensures Busy(e', j) <==> if j == e.workers[w].task.id then Unsettled(e'.workers[w]) else Busy(e, j)
  {
    var id := e.workers[w].task.id;
    if Busy(e, j) {
      var v :| 0 <= v < |e.workers| && Unsettled(e.workers[v]) && e.workers[v].task.id == j;
      assert v != w ==> e'.workers[v] == e.workers[v];
    }
    if Busy(e', j) {
      var v :| 0 <= v < |e'.workers| && Unsettled(e'.workers[v]) && e'.workers[v].task.id == j;
      assert v != w ==> e'.workers[v] == e.workers[v];
    }
  }

  lemma CheckOutlook(e: State, w: nat, j: RequestId)
    requires IdsApart(e) && w < |e.workers| && e.workers[w].Working?
    ensures var o, o' := OutlookOf(e, j), OutlookOf(CheckCancelled(e, w), j);
      o' == if j == e.workers[w].task.id && o.cancelled then o.(busy := false) else o
  {
    WorkerBusy(e, w, CheckCancelled(e, w), j);
  }

  lemma CompleteOutlook(e: State, w: nat, j: RequestId)
    requires IdsApart(e) && w < |e.workers| && e.workers[w].Completing?
    ensures OutlookOf(Complete(e, w), j) ==
      if j == e.workers[w].task.id then OutlookOf(e, j).(busy := false) else OutlookOf(e, j)
  {
    WorkerBusy(e, w, Complete(e, w), j);
  }

  /** A task about to complete is its request's only trace in the executor. */
  predicate LastTrace(e: State, id: RequestId) {
    var o := OutlookOf(e, id); o.busy && !o.queued && o.context.None? && o.accepted
  }

  lemma CompletingIsLastTrace(e: State, w: nat)
    requires Inv(e) && w < |e.workers| && e.workers[w].Completing?
    ensures LastTrace(e, e.workers[w].task.id)
  {
    assert Busy(e, e.workers[w].task.id);
    LiveOutlook(e, e.workers[w].task.id);
  }

  lemma FinishOutlook(e: State, w: nat, j: RequestId)
    requires IdsApart(e) && w < |e.workers| && e.workers[w].Cleaning?
    ensures OutlookOf(Finish(e, w), j) ==
      if j == e.workers[w].task.id then OutlookOf(e, j).(running := false, cancelled := false) else OutlookOf(e, j)
  {
    WorkerBusy(e, w, Finish(e, w), j);
    assert !Busy(e, e.workers[w].task.id);
  }

  // ---------- properties of tasks ----------

  lemma SubmitKeepsTasks(e: State, id: RequestId, plan: DecodePlan, shards: Slots, p: Task -> bool)
    requires AllTasks(e, p)
    requires var context := if id in e.staged then e.staged[id] else shards;
      p(Task(id, |e.accepted|, plan, shards, context))
    ensures AllTasks(Submit(e, id, plan, shards).0, p)
  {}

  lemma CancelKeepsTasks(e: State, id: RequestId, p: Task -> bool)
    requires AllTasks(e, p)
    ensures AllTasks(Cancel(e, id), p)
  {
    if Queued(e, id) {
      DroppingElements(e.queue, IndexOf(e.queue, id));
    }
  }

  lemma PopKeepsTasks(e: State, w: nat, p: Task -> bool)
    requires AllTasks(e, p) && w < |e.workers| && e.workers[w].Idle? && e.queue != []
    ensures AllTasks(Pop(e, w), p)
  {
    assert forall j | 0 <= j < |Pop(e, w).queue| :: Pop(e, w).queue[j] == e.queue[j + 1];
  }
}
