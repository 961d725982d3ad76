/**
 * The bounded asynchronous executor: client calls and worker threads, each locked section one atomic step. The state
 * records which call every worker is in, the log of accepted tasks, and the fate each of them met.
 */
module Executor {
  import opened Shards
  import opened Graphs
  import opened Codec
  import opened Admission
  import Staging

  type RequestId = nat

  /** `ticket` is the task's position in the log of accepted submissions. */
  datatype Task = Task(id: RequestId, ticket: nat, plan: DecodePlan, shards: Slots, context: Slots)

  /** Where a worker thread is: waiting, running a task, calling its completion, or about to drop its id. */
  datatype Worker = Idle | Working(task: Task) | Completing(task: Task) | Cleaning(task: Task)

  datatype Fate = RemovedWhileQueued | Completed | Suppressed

  datatype State = State(
    concurrency: nat, capacity: nat, serviceCost: nat,
    queue: seq<Task>, staged: map<RequestId, Slots>, running: set<RequestId>, cancelled: set<RequestId>,
    workers: seq<Worker>, accepted: seq<RequestId>, fates: map<nat, Fate>)

  function Init(concurrency: nat, maxQueueDepth: nat, serviceCost: nat): State {
    State(concurrency, concurrency + maxQueueDepth, serviceCost, [], map[], {}, {},
          seq(concurrency, _ => Idle), [], map[])
  }

  // ---------- the locked sections ----------

  function Outstanding(e: State): nat { |e.queue| + |e.running| }

  predicate Queued(e: State, id: RequestId) {
    exists i | 0 <= i < |e.queue| :: e.queue[i].id == id
  }

  /**
   * None when the executor is full; otherwise the completion wave a new job would be in, times the service estimate.
   */
  function EstimateRecoveryCost(e: State): Option<nat>
    requires e.concurrency > 0
  {
    if Outstanding(e) >= e.capacity then None
    else Some(e.serviceCost * (Outstanding(e) / e.concurrency + 1))
  }

  function ContextOf(e: State, id: RequestId, shardCount: nat): Slots {
    if id in e.staged then e.staged[id] else Staging.EmptySlots(shardCount)
  }

  /** What the staging context accepts: a non-empty payload for a free slot in range. */
  predicate StageFits(context: Slots, shard: ShardId, payload: Shard) {
    payload != [] && shard < |context| && context[shard].None?
  }

  /**
   * Staging is ignored once the request is queued or running. The flag is false when the call throws; a context
   * created for the refused shard stays behind.
   */
  function StageShard(e: State, id: RequestId, shardCount: nat, shard: ShardId, payload: Shard): (r: (State, bool)) {
    if id in e.running || Queued(e, id) then (e, true)
    else if id !in e.staged && shardCount == 0 then (e, false)
    else if id in e.staged && |e.staged[id]| != shardCount then (e, false)
    else
      var context := ContextOf(e, id, shardCount);
      if StageFits(context, shard, payload) then (e.(staged := e.staged[id := context[shard := Some(payload)]]), true)
      else (e.(staged := e.staged[id := context]), false)
  }

  datatype SubmitOutcome = Accepted | Refused | Threw

  /** Takes over the staged context, or stages the submitted shards into a new one. */
  function Submit(e: State, id: RequestId, plan: DecodePlan, shards: Slots): (r: (State, SubmitOutcome)) {
    if Outstanding(e) >= e.capacity || id in e.running || Queued(e, id) then
      (e.(staged := e.staged - {id}), Refused)
    else if id in e.staged && |e.staged[id]| != |shards| then
      (e.(staged := e.staged - {id}), Threw)
    else if id !in e.staged && (shards == [] || !NoEmptyShard(shards)) then
      (e, Threw)
    else
      var context := if id in e.staged then e.staged[id] else shards;
      (Enqueued(e, Task(id, |e.accepted|, plan, shards, context)), Accepted)
  }

  function Enqueued(e: State, task: Task): State {
    e.(queue := e.queue + [task], staged := e.staged - {task.id}, accepted := e.accepted + [task.id])
  }

  /** Position of the first queued task of a request. */
  function IndexOf(queue: seq<Task>, id: RequestId): (i: nat)
    requires exists j | 0 <= j < |queue| :: queue[j].id == id
    ensures i < |queue| && queue[i].id == id && forall j | 0 <= j < i :: queue[j].id != id
  {
    if queue[0].id == id then 0 else 1 + IndexOf(queue[1..], id)
  }

  function Dropping(queue: seq<Task>, i: nat): seq<Task>
    requires i < |queue|
  {
    queue[..i] + queue[i + 1..]
  }

  function Cancel(e: State, id: RequestId): State {
    var dropped := e.(staged := e.staged - {id});
    if Queued(e, id) then
      var i := IndexOf(e.queue, id);
      dropped.(queue := Dropping(e.queue, i), fates := e.fates[e.queue[i].ticket := RemovedWhileQueued])
    else if id in e.running then dropped.(cancelled := e.cancelled + {id})
    else dropped
  }

  function Pop(e: State, w: nat): State
    requires w < |e.workers| && e.workers[w].Idle? && e.queue != []
  {
    e.(queue := e.queue[1..], running := e.running + {e.queue[0].id}, workers := e.workers[w := Working(e.queue[0])])
  }

  function CheckCancelled(e: State, w: nat): State
    requires w < |e.workers| && e.workers[w].Working?
  {
    var task := e.workers[w].task;
    if task.id in e.cancelled then
      e.(workers := e.workers[w := Cleaning(task)], fates := e.fates[task.ticket := Suppressed])
    else e.(workers := e.workers[w := Completing(task)])
  }

  function Complete(e: State, w: nat): State
    requires w < |e.workers| && e.workers[w].Completing?
  {
    var task := e.workers[w].task;
    e.(workers := e.workers[w := Cleaning(task)], fates := e.fates[task.ticket := Completed])
  }

  function Finish(e: State, w: nat): State
    requires w < |e.workers| && e.workers[w].Cleaning?
  {
    var id := e.workers[w].task.id;
    e.(workers := e.workers[w := Idle], running := e.running - {id}, cancelled := e.cancelled - {id})
  }

  /** What running a task yields: the decoded slots, or None when the staging context refuses. */
  function ResultOf(task: Task): Option<Slots> {
    if task.context == task.shards && ValidShape(task.plan) then Run(task.plan.operations, task.shards) else None
  }

  /** The worker's task has not met its fate. */
  predicate Unsettled(w: Worker) { w.Working? || w.Completing? }

  // ---------- the object ----------

  /** The executor object. Each method is one locked section; `workers` holds the worker threads' program counters. */
  class CudaRecoveryExecutor {
    const concurrency: nat
    const capacity: nat
    const serviceCost: nat
    var queue: seq<Task>
    var stagedContexts: map<RequestId, Slots>
    var runningRequests: set<RequestId>
    var cancelledRequests: set<RequestId>
    var workers: seq<Worker>
    var acceptedLog: seq<RequestId>
    var fates: map<nat, Fate>

    function View(): State
      reads this
    {
      State(concurrency, capacity, serviceCost, queue, stagedContexts, runningRequests, cancelledRequests,
            workers, acceptedLog, fates)
    }

    constructor (concurrency: nat, maxQueueDepth: nat, serviceCost: nat)
      requires concurrency > 0 && serviceCost > 0
      ensures View() == Init(concurrency, maxQueueDepth, serviceCost)
      ensures capacity == concurrency + maxQueueDepth && queue == [] && runningRequests == {} && stagedContexts == map[]
    {
      this.concurrency, capacity, this.serviceCost := concurrency, concurrency + maxQueueDepth, serviceCost;
      queue, stagedContexts, runningRequests, cancelledRequests := [], map[], {}, {};
      workers, acceptedLog, fates := seq(concurrency, _ => Idle), [], map[];
    }

    method EstimateCost() returns (cost: Option<nat>)
      requires concurrency > 0
      ensures cost == EstimateRecoveryCost(View())
      ensures var outstanding := |queue| + |runningRequests|;
        cost == if outstanding >= capacity then None else Some(serviceCost * (outstanding / concurrency + 1))
    {
      var outstanding := |queue| + |runningRequests|;
      if outstanding >= capacity { return None; }
      var completionWave := outstanding / concurrency + 1;
      return Some(serviceCost * completionWave);
    }

    /** Position of the request's first queued task, or the queue length. */
    method FindQueued(id: RequestId) returns (i: nat)
      ensures i <= |queue| && (forall j | 0 <= j < i :: queue[j].id != id)
      ensures i < |queue| <==> Queued(View(), id)
      ensures i < |queue| ==> i == IndexOf(queue, id)
    {
      i := 0;
      while i < |queue| && queue[i].id != id
        invariant i <= |queue| && forall j | 0 <= j < i :: queue[j].id != id
      {
        i := i + 1;
      }
    }

    method Stage(id: RequestId, shardCount: nat, shard: ShardId, payload: Shard) returns (ok: bool)
      modifies this`stagedContexts
      ensures (View(), ok) == StageShard(old(View()), id, shardCount, shard, payload)
      ensures var live := id in runningRequests || exists i | 0 <= i < |queue| :: queue[i].id == id;
        var present := id in old(stagedContexts);
        var fits := if present then |old(stagedContexts)[id]| == shardCount else shardCount > 0;
        var context := if present then old(stagedContexts)[id] else Staging.EmptySlots(shardCount);
        var accepts := fits && payload != [] && shard < shardCount && context[shard].None?;
        && (ok <==> live || accepts)
        && stagedContexts == if live || !fits then old(stagedContexts)
                             else if accepts then old(stagedContexts)[id := context[shard := Some(payload)]]
                             else old(stagedContexts)[id := context]
    {
      var found := FindQueued(id);
      if id in runningRequests || found < |queue| { return true; }
      if id !in stagedContexts {
        if shardCount == 0 { return false; }
        stagedContexts := stagedContexts[id := Staging.EmptySlots(shardCount)];
      } else if |stagedContexts[id]| != shardCount {
        return false;
      }
      var context := stagedContexts[id];
      assert old(View()).(staged := stagedContexts) == old(View()).(staged := old(stagedContexts)[id := context]);
      if payload == [] || shard >= |context| || context[shard].Some? { return false; }
      stagedContexts := stagedContexts[id := context[shard := Some(payload)]];
      assert stagedContexts == old(stagedContexts)[id := context[shard := Some(payload)]];
      return true;
    }

    method SubmitTask(id: RequestId, plan: DecodePlan, shards: Slots) returns (outcome: SubmitOutcome)
      modifies this`queue, this`stagedContexts, this`acceptedLog
      ensures (View(), outcome) == Submit(old(View()), id, plan, shards)
      ensures var live := id in runningRequests || exists i | 0 <= i < |old(queue)| :: old(queue)[i].id == id;
        var staged := id in old(stagedContexts);
        && (outcome.Refused? <==> |old(queue)| + |runningRequests| >= capacity || live)
        && (outcome.Threw? <==>
              && !outcome.Refused?
              && if staged then |old(stagedContexts)[id]| != |shards| else shards == [] || !NoEmptyShard(shards))
        && (outcome.Accepted? ==>
              && |queue| == |old(queue)| + 1 && queue[..|old(queue)|] == old(queue)
              && acceptedLog == old(acceptedLog) + [id]
              && queue[|old(queue)|] == Task(id, |old(acceptedLog)|, plan, shards,
                                             if staged then old(stagedContexts)[id] else shards))
        && (!outcome.Accepted? ==> queue == old(queue) && acceptedLog == old(acceptedLog))
        && stagedContexts == old(stagedContexts) - {id}
    {
      var found := FindQueued(id);
      if |queue| + |runningRequests| >= capacity || id in runningRequests || found < |queue| {
        stagedContexts := stagedContexts - {id};
        return Refused;
      }
      var context := shards;
      if id in stagedContexts {
        context := stagedContexts[id];
        stagedContexts := stagedContexts - {id};
        if |context| != |shards| { return Threw; }
      } else if shards == [] || exists i | 0 <= i < |shards| :: shards[i].Some? && shards[i].value == [] {
        return Threw;
      }
      assert stagedContexts == old(stagedContexts) - {id};
      queue := queue + [Task(id, |acceptedLog|, plan, shards, context)];
      acceptedLog := acceptedLog + [id];
      return Accepted;
    }

    method CancelRequest(id: RequestId) returns (cancelled: bool)
      modifies this`queue, this`stagedContexts, this`cancelledRequests, this`fates
      ensures View() == Cancel(old(View()), id)
      ensures cancelled <==> id in old(stagedContexts) || Queued(old(View()), id) || id in runningRequests
      ensures stagedContexts == old(stagedContexts) - {id}
      ensures if exists i | 0 <= i < |old(queue)| :: old(queue)[i].id == id
        then cancelledRequests == old(cancelledRequests) &&
             exists i | 0 <= i < |old(queue)| ::
               && old(queue)[i].id == id && (forall j | 0 <= j < i :: old(queue)[j].id != id)
               && queue == old(queue)[..i] + old(queue)[i + 1..]
        else && queue == old(queue)
             && cancelledRequests == old(cancelledRequests) + (if id in runningRequests then {id} else {})
    {
      cancelled := id in stagedContexts;
      stagedContexts := stagedContexts - {id};
      var i := FindQueued(id);
      if i < |queue| {
        fates := fates[queue[i].ticket := RemovedWhileQueued];
        queue := queue[..i] + queue[i + 1..];
        return true;
      }
      if id in runningRequests {
        cancelledRequests := cancelledRequests + {id};
        return true;
      }
    }

    /** A worker wakes with work in the queue. */
    method PopTask(w: nat)
      requires w < |workers| && workers[w].Idle? && queue != []
      modifies this`queue, this`runningRequests, this`workers
      ensures View() == Pop(old(View()), w)
      ensures old(queue) == [workers[w].task] + queue && workers == old(workers)[w := Working(workers[w].task)]
      ensures runningRequests == old(runningRequests) + {workers[w].task.id}
    {
      var task := queue[0];
      queue := queue[1..];
      runningRequests := runningRequests + {task.id};
      workers := workers[w := Working(task)];
    }

    /** After the run: completion is skipped for a cancelled request. */
    method CheckCancellation(w: nat) returns (cancelled: bool)
      requires w < |workers| && workers[w].Working?
      modifies this`workers, this`fates
      ensures View() == CheckCancelled(old(View()), w)
      ensures cancelled <==> workers[w].Cleaning?
      ensures var task := old(workers)[w].task;
        && (cancelled <==> task.id in cancelledRequests)
        && workers == old(workers)[w := if cancelled then Cleaning(task) else Completing(task)]
        && fates == if cancelled then old(fates)[task.ticket := Suppressed] else old(fates)
    {
      var task := workers[w].task;
      cancelled := task.id in cancelledRequests;
      if cancelled {
        fates := fates[task.ticket := Suppressed];
        workers := workers[w := Cleaning(task)];
      } else {
        workers := workers[w := Completing(task)];
      }
    }

    method FinishTask(w: nat)
      requires w < |workers| && workers[w].Cleaning?
      modifies this`runningRequests, this`cancelledRequests, this`workers
      ensures View() == Finish(old(View()), w)
      ensures workers == old(workers)[w := Idle]
      ensures runningRequests == old(runningRequests) - {old(workers)[w].task.id}
      ensures cancelledRequests == old(cancelledRequests) - {old(workers)[w].task.id}
    {
      var id := workers[w].task.id;
      runningRequests := runningRequests - {id};
      cancelledRequests := cancelledRequests - {id};
      workers := workers[w := Idle];
    }
  }
}
