/** Cancelling is final: a task cancelled before its worker has checked for cancellation never completes. */
module ExecutorCancellation {
  import opened Executor
  import opened ExecutorSafety

  predicate Pending(w: Worker, ticket: nat) {
    w.Working? && w.task.ticket == ticket
  }

  /** The task was withdrawn or suppressed, or a worker is still busy with it and its request is marked. */
  predicate Withdrawn(e: State, ticket: nat) {
    || (ticket in e.fates && !e.fates[ticket].Completed?)
    || exists w | 0 <= w < |e.workers| :: Pending(e.workers[w], ticket) && e.workers[w].task.id in e.cancelled
  }

  /** The task is queued, or with a worker that has not checked for cancellation yet. */
  predicate Open(e: State, id: RequestId, ticket: nat) {
    || (exists i | 0 <= i < |e.queue| :: e.queue[i].id == id && e.queue[i].ticket == ticket)
    || exists w | 0 <= w < |e.workers| :: Pending(e.workers[w], ticket) && e.workers[w].task.id == id
  }

  lemma CancelWithdraws(e: State, id: RequestId, ticket: nat)
    requires Inv(e) && Open(e, id, ticket)
    ensures Withdrawn(Cancel(e, id), ticket)
  {
    if i :| 0 <= i < |e.queue| && e.queue[i].id == id && e.queue[i].ticket == ticket {
      assert Queued(e, id) && IndexOf(e.queue, id) == i;
    } else {
      var w :| 0 <= w < |e.workers| && Pending(e.workers[w], ticket) && e.workers[w].task.id == id;
      assert Cancel(e, id).workers[w] == e.workers[w];
    }
  }

  /** Two workers never hold the same unsettled ticket. */
  lemma OneHolder(e: State, v: nat, w: nat)
    requires Inv(e) && v < |e.workers| && w < |e.workers| && Unsettled(e.workers[v]) && Unsettled(e.workers[w])
    requires e.workers[v].task.ticket == e.workers[w].task.ticket
    ensures v == w
  {
    assert Logged(e, e.workers[v].task) && Logged(e, e.workers[w].task);
  }

  lemma WithdrawnDoesNotComplete(e: State, step: Step, ticket: nat)
    requires Inv(e) && Withdrawn(e, ticket)
    ensures !Completes(e, step, ticket)
  {
    if Completes(e, step, ticket) {
      assert Unsettled(e.workers[step.w]) && Logged(e, e.workers[step.w].task);
      var w :| 0 <= w < |e.workers| && Pending(e.workers[w], ticket) && e.workers[w].task.id in e.cancelled;
      OneHolder(e, step.w, w);
    }
  }

  /** A step by another worker leaves the marked one alone. */
  lemma OthersKeepMark(e: State, step: Step, w: nat)
    requires IdsApart(e) && Next(e, step).Some?
    requires w < |e.workers| && e.workers[w].Working? && e.workers[w].task.id in e.cancelled
    requires step.DoCheck? ==> step.w != w
    ensures var e' := Next(e, step).value;
      w < |e'.workers| && e'.workers[w] == e.workers[w] && e.workers[w].task.id in e'.cancelled
  {}

  lemma NextKeepsWithdrawn(e: State, step: Step, ticket: nat)
    requires Inv(e) && Withdrawn(e, ticket) && Next(e, step).Some?
    ensures Withdrawn(Next(e, step).value, ticket)
  {
    if ticket in e.fates && !e.fates[ticket].Completed? {
      FatesAreFinal(e, step);
    } else {
      var w :| 0 <= w < |e.workers| && Pending(e.workers[w], ticket) && e.workers[w].task.id in e.cancelled;
      if !(step.DoCheck? && step.w == w) {
        OthersKeepMark(e, step, w);
        assert Pending(Next(e, step).value.workers[w], ticket);
      }
    }
  }

  lemma {:induction false} ReachKeepsWithdrawn(e: State, steps: seq<Step>, ticket: nat)
    requires Inv(e) && Withdrawn(e, ticket) && Reach(e, steps).Some?
    ensures Inv(Reach(e, steps).value) && Withdrawn(Reach(e, steps).value, ticket)
  {
    if steps != [] {
      var front := steps[..|steps| - 1];
      ReachKeepsWithdrawn(e, front, ticket);
      NextKeepsWithdrawn(Reach(e, front).value, steps[|steps| - 1], ticket);
      NextKeepsInv(Reach(e, front).value, steps[|steps| - 1]);
    }
  }

  /**
   * On every run: once a request is cancelled while its task is queued or not yet checked for cancellation, that task's
   * completion is never called, however the run goes on.
   */
  lemma CancelledNeverCompletes(concurrency: nat, maxQueueDepth: nat, serviceCost: nat, early: seq<Step>, id: RequestId,
                                later: seq<Step>, step: Step, ticket: nat)
    requires concurrency > 0
    requires var before := Reach(Init(concurrency, maxQueueDepth, serviceCost), early);
      before.Some? && Open(before.value, id, ticket) && Reach(Cancel(before.value, id), later).Some?
    ensures var before := Reach(Init(concurrency, maxQueueDepth, serviceCost), early).value;
      !Completes(Reach(Cancel(before, id), later).value, step, ticket)
  {
    var start := Init(concurrency, maxQueueDepth, serviceCost);
    InitInv(concurrency, maxQueueDepth, serviceCost);
    ReachKeepsInv(start, early);
    var before := Reach(start, early).value;
    CancelWithdraws(before, id, ticket);
    CancelKeepsInv(before, id);
    ReachKeepsWithdrawn(Cancel(before, id), later, ticket);
    WithdrawnDoesNotComplete(Reach(Cancel(before, id), later).value, step, ticket);
  }
}
