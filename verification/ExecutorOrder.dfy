/** First come, first served: on every run of clients and workers, tasks start in the order they were accepted. */
module ExecutorOrder {
  import opened Executor
  import opened ExecutorSafety

  /** Queued tickets ascend, are accepted, and come after ticket t. */
  predicate InLine(e: State, t: int) {
    t < |e.accepted| && Ascending(e.queue, t, |e.accepted|)
  }

  predicate Ascending(queue: seq<Task>, t: int, bound: nat) {
    && (forall i | 0 <= i < |queue| :: t < queue[i].ticket < bound)
    && forall i, j | 0 <= i < j < |queue| :: queue[i].ticket < queue[j].ticket
  }

  lemma DroppingKeepsOrder(queue: seq<Task>, i: nat, t: int, bound: nat)
    requires i < |queue| && Ascending(queue, t, bound)
    ensures Ascending(Dropping(queue, i), t, bound)
  {
    DroppingElements(queue, i);
  }

  lemma CancelKeepsLine(e: State, id: RequestId, t: int)
    requires InLine(e, t)
    ensures InLine(Cancel(e, id), t)
  {
    if Queued(e, id) {
      DroppingKeepsOrder(e.queue, IndexOf(e.queue, id), t, |e.accepted|);
    }
  }

  lemma SubmitKeepsLine(e: State, step: Step, t: int)
    requires InLine(e, t) && step.DoSubmit?
    ensures InLine(Next(e, step).value, t)
  {}

  lemma NextKeepsLine(e: State, step: Step, t: int)
    requires InLine(e, t) && Next(e, step).Some?
    ensures InLine(Next(e, step).value, t)
  {
    if step.DoCancel? {
      CancelKeepsLine(e, step.id, t);
    } else if step.DoSubmit? {
      SubmitKeepsLine(e, step, t);
    }
  }

  lemma {:induction false} ReachKeepsLine(e: State, steps: seq<Step>, t: int)
    requires InLine(e, t) && Reach(e, steps).Some?
    ensures InLine(Reach(e, steps).value, t)
  {
    if steps != [] {
      ReachKeepsLine(e, steps[..|steps| - 1], t);
      NextKeepsLine(Reach(e, steps[..|steps| - 1]).value, steps[|steps| - 1], t);
    }
  }

  /** The step hands the task with this ticket to a worker. */
  predicate Starts(e: State, step: Step, ticket: nat) {
    && step.DoPop? && Next(e, step).Some?
    && Next(e, step).value.workers[step.w].Working? && Next(e, step).value.workers[step.w].task.ticket == ticket
  }

  lemma StartingIsNext(e: State, step: Step, ticket: nat, t: int)
    requires InLine(e, t) && Starts(e, step, ticket)
    ensures t < ticket && InLine(Next(e, step).value, ticket)
  {}

  /** The step has a task accepted, which gets this ticket. */
  predicate Accepts(e: State, step: Step, ticket: nat) {
    && step.DoSubmit? && ticket == |e.accepted|
    && Next(e, step).value.accepted == e.accepted + [step.id]
  }

  /** The log of accepted tasks grows only by accepted submissions, at its end. */
  lemma AcceptedGrows(e: State, step: Step)
    requires Next(e, step).Some?
    ensures Next(e, step).value.accepted == e.accepted || Accepts(e, step, |e.accepted|)
  {}

  lemma {:induction false} LogOnlyGrows(e: State, steps: seq<Step>)
    requires Reach(e, steps).Some?
    ensures e.accepted <= Reach(e, steps).value.accepted
  {
    if steps != [] {
      LogOnlyGrows(e, steps[..|steps| - 1]);
      AcceptedGrows(Reach(e, steps[..|steps| - 1]).value, steps[|steps| - 1]);
    }
  }

  /** Tickets are given in order of acceptance. */
  lemma EarlierAcceptedSmallerTicket(e: State, step: Step, later: seq<Step>, again: Step, first: nat, second: nat)
    requires Next(e, step).Some? && Reach(Next(e, step).value, later).Some?
    requires Accepts(e, step, first) && Accepts(Reach(Next(e, step).value, later).value, again, second)
    ensures first < second
  {
    LogOnlyGrows(Next(e, step).value, later);
  }

  lemma EarlierStartedSmallerTicket(e: State, step: Step, later: seq<Step>, again: Step, first: nat, second: nat,
                                   t: int)
    requires InLine(e, t) && Next(e, step).Some? && Reach(Next(e, step).value, later).Some?
    requires Starts(e, step, first) && Starts(Reach(Next(e, step).value, later).value, again, second)
    ensures first < second
  {
    StartingIsNext(e, step, first, t);
    ReachKeepsLine(Next(e, step).value, later, first);
    StartingIsNext(Reach(Next(e, step).value, later).value, again, second, first);
  }

  /**
   * On every run, whatever is cancelled in between: tickets are given in order of acceptance, and of two tasks that are
   * started the one with the smaller ticket is started first.
   */
  lemma TasksStartInOrder(concurrency: nat, maxQueueDepth: nat, serviceCost: nat, early: seq<Step>, step: Step,
                          later: seq<Step>, again: Step, first: nat, second: nat)
    requires concurrency > 0
    requires Reach(Init(concurrency, maxQueueDepth, serviceCost), early + [step] + later).Some?
    ensures var start := Init(concurrency, maxQueueDepth, serviceCost);
      && Reach(start, early).Some?
      && var before, after := Reach(start, early).value, Reach(start, early + [step] + later).value;
         && (Accepts(before, step, first) && Accepts(after, again, second) ==> first < second)
         && (Starts(before, step, first) && Starts(after, again, second) ==> first < second)
  {
    var start := Init(concurrency, maxQueueDepth, serviceCost);
    ReachPrefix(start, early + [step], later);
    ReachSnoc(start, early, step);
    var before, after := Reach(start, early).value, Reach(start, early + [step] + later).value;
    if Accepts(before, step, first) && Accepts(after, again, second) {
      EarlierAcceptedSmallerTicket(before, step, later, again, first, second);
    }
    if Starts(before, step, first) && Starts(after, again, second) {
      ReachKeepsLine(start, early, -1);
      EarlierStartedSmallerTicket(before, step, later, again, first, second, -1);
    }
  }

  /** In every reachable state queued tickets ascend, and the next task to start is the oldest accepted one queued. */
  lemma OldestIsNext(concurrency: nat, maxQueueDepth: nat, serviceCost: nat, steps: seq<Step>, step: Step, ticket: nat)
    requires concurrency > 0 && Reach(Init(concurrency, maxQueueDepth, serviceCost), steps).Some?
    requires Starts(Reach(Init(concurrency, maxQueueDepth, serviceCost), steps).value, step, ticket)
    ensures var e := Reach(Init(concurrency, maxQueueDepth, serviceCost), steps).value;
      && ticket < |e.accepted| && e.accepted[ticket] == Next(e, step).value.workers[step.w].task.id
      && (exists i | 0 <= i < |e.queue| :: e.queue[i].ticket == ticket)
      && forall i | 0 <= i < |e.queue| :: ticket <= e.queue[i].ticket
  {
    var start := Init(concurrency, maxQueueDepth, serviceCost);
    InitInv(concurrency, maxQueueDepth, serviceCost);
    ReachKeepsInv(start, steps);
    ReachKeepsLine(start, steps, -1);
    var e := Reach(start, steps).value;
    assert Logged(e, e.queue[0]);
  }
}
