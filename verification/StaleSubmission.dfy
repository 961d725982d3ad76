/** A run in which an accepted recovery fails: a parity is stored between the decision and the submission. */
module StaleSubmission {
  import opened Shards
  import opened Graphs
  import opened Peeling
  import opened Policy
  import opened Coordinator
  import opened Protocol
  import E = Executor

  /** Two data shards, both parities the XOR of the two. */
  predicate Twice(g: BipartiteGraph) {
    g.k == 2 && g.m == 2 && g.equations.Keys == {2, 3} && g.equations[2] == g.equations[3] == [0, 1]
  }

  function Slots4(filled: set<ShardId>): (r: Slots)
    ensures |r| == 4
  {
    seq(4, i => if i in filled then Some([0]) else None)
  }

  function Arrivals4(filled: set<ShardId>): (r: Arrivals)
    ensures |r| == 4
  {
    seq(4, i => if i in filled then Some(0) else None)
  }

  function Request4(filled: set<ShardId>, submitted: bool): Request {
    Request(Arrivals4(filled), Slots4(filled), Pending, submitted, false, false, 0, if filled == {} then 0 else 1)
  }

  function State4(g: BipartiteGraph, filled: set<ShardId>, submitted: bool, handlers: map<nat, Handler>): System {
    System(g, map[0 := Request4(filled, submitted)], None,
           E.Init(1, 0, 1).(staged := if filled == {} then map[] else map[0 := Slots4(filled)]), handlers, [])
  }

  lemma TwiceIsValid(g: BipartiteGraph)
    requires Twice(g)
    ensures ValidGraph(g)
  {}

  lemma MeetsAtOne()
    ensures MeetsOnce([0, 1], {1}, 1)
  {
    assert [0, 1][1] == 1;
  }

  lemma OnlyEmptyStopsShort(g: BipartiteGraph, s: set<ShardId>)
    requires Twice(g) && ValidGraph(g) && IsStoppingSubset(g, {2}, {1}, s)
    ensures s == {}
  {
    if s != {} {
      assert s == {1} && g.equations[2] == [0, 1];
      MeetsAtOne();
    }
  }

  /** Data shard 1 is recoverable from data shard 0 and parity 2. */
  lemma OneErasureRecovers(g: BipartiteGraph)
    requires Twice(g) && ValidGraph(g)
    ensures PlanFor(g, Arrivals4({0, 2})).isRecoverable
  {
    var a := Arrivals4({0, 2});
    assert Missing(2, a) == {1};
    assert ArrivedParity(g, a) == {2};
    PlannerIsExact(g, {1}, {2});
    forall s | IsStoppingSubset(g, {2}, {1}, s) ensures s == {} { OnlyEmptyStopsShort(g, s); }
  }

  /** State4 with the lock held by a handler about to record a shard that is already staged. */
  function Locked4(g: BipartiteGraph, filled: set<ShardId>, submitted: bool, handlers: map<nat, Handler>, tid: nat,
                   shard: ShardId): System {
    State4(g, filled + {shard}, submitted, handlers)
      .(requests := map[0 := Request4(filled, submitted).(wordCount := 1)], lock := Some(tid),
        handlers := handlers[tid := Storing(0, shard, [0], 0)])
  }

  lemma ArriveAt(g: BipartiteGraph, filled: set<ShardId>, submitted: bool, handlers: map<nat, Handler>, tid: nat,
                 shard: ShardId)
    requires Twice(g) && shard !in filled && shard < 4 && tid !in handlers
    ensures Next(State4(g, filled, submitted, handlers), Arrive(tid, 0, shard, [0], 0))
      == Some(Locked4(g, filled, submitted, handlers, tid, shard))
  {
    var s, r := State4(g, filled, submitted, handlers), Request4(filled, submitted);
    assert Receive(r, shard, [0]) == Stored(r.(wordCount := 1));
    var context := E.ContextOf(s.exec, 0, 4);
    assert context == Slots4(filled);
    assert context[shard := Some([0])] == Slots4(filled + {shard});
    assert s.exec.staged[0 := Slots4(filled + {shard})] == map[0 := Slots4(filled + {shard})];
    assert s.requests[0 := r.(wordCount := 1)] == map[0 := r.(wordCount := 1)];
  }

  lemma StoreAt(filled: set<ShardId>, submitted: bool, shard: ShardId)
    requires shard !in filled && shard < 4
    ensures Store(Request4(filled, submitted).(wordCount := 1), shard, [0], 0) == Request4(filled + {shard}, submitted)
  {
    assert Slots4(filled)[shard := Some([0])] == Slots4(filled + {shard});
    assert Mark(Arrivals4(filled), shard, 0) == Arrivals4(filled + {shard});
  }

  function Snapshot(g: BipartiteGraph): DecodePlan
    requires Twice(g) && ValidGraph(g)
  {
    PlanFor(g, Arrivals4({0, 2}))
  }

  /** Recording without submitting: already submitted, or waiting costs nothing. */
  lemma RecordsOnly(g: BipartiteGraph, filled: set<ShardId>, submitted: bool, shard: ShardId)
    requires Twice(g) && ValidGraph(g) && shard !in filled && shard < 4 && 1 !in filled && shard != 1
    ensures Record(g, Request4(filled, submitted).(wordCount := 1), shard, [0], 0, Some(1), 0)
      == (Request4(filled + {shard}, submitted), NoAction)
  {
    StoreAt(filled, submitted, shard);
    assert Arrivals4(filled + {shard})[1].None?;
  }

  lemma Locked4CanRecord(g: BipartiteGraph, filled: set<ShardId>, submitted: bool, handlers: map<nat, Handler>,
                         tid: nat, shard: ShardId)
    requires Twice(g) && ValidGraph(g) && shard < 4
    ensures CanRecord(Locked4(g, filled, submitted, handlers, tid, shard), tid)
    ensures E.EstimateRecoveryCost(Locked4(g, filled, submitted, handlers, tid, shard).exec) == Some(1)
  {}

  lemma RecordYields(s: System, tid: nat, id: RequestId, shard: ShardId, payload: Shard, waitCost: int, r: Request,
                     action: Action)
    requires tid in s.handlers && s.handlers[tid] == Storing(id, shard, payload, 0) && CanRecord(s, tid)
    requires Record(s.g, s.requests[id], shard, payload, 0, E.EstimateRecoveryCost(s.exec), waitCost) == (r, action)
    requires action.NoAction? || action.SubmitTask?
    ensures Next(s, RecordShard(tid, waitCost)) == Some(
      s.(requests := s.requests[id := r], lock := None,
         handlers := if action.NoAction? then s.handlers - {tid}
                     else s.handlers[tid := Submitting(id, action.plan, action.shards)]))
  {}

  /** What a recording step does to a locked state, given the coordinator's decision. */
  lemma RecordLocked(g: BipartiteGraph, filled: set<ShardId>, submitted: bool, handlers: map<nat, Handler>, tid: nat,
                     shard: ShardId, waitCost: int, r: Request, action: Action)
    requires Twice(g) && ValidGraph(g) && shard < 4 && tid !in handlers
    requires Record(g, Request4(filled, submitted).(wordCount := 1), shard, [0], 0, Some(1), waitCost) == (r, action)
    requires action.NoAction? || action.SubmitTask?
    ensures Next(Locked4(g, filled, submitted, handlers, tid, shard), RecordShard(tid, waitCost))
      == Some(System(g, map[0 := r], None, Locked4(g, filled, submitted, handlers, tid, shard).exec,
                     if action.NoAction? then handlers
                     else handlers[tid := Submitting(0, action.plan, action.shards)], []))
  {
    Locked4CanRecord(g, filled, submitted, handlers, tid, shard);
    var s := Locked4(g, filled, submitted, handlers, tid, shard);
    RecordYields(s, tid, 0, shard, [0], waitCost, r, action);
    Overwrite(s.requests[0], r);
    Forget(handlers, tid, s.handlers[tid]);
    if action.SubmitTask? { Replace(handlers, tid, s.handlers[tid], Submitting(0, action.plan, action.shards)); }
  }

  lemma Overwrite(a: Request, b: Request)
    ensures map[0 as RequestId := a][0 := b] == map[0 := b]
  {}

  lemma Forget(handlers: map<nat, Handler>, tid: nat, h: Handler)
    requires tid !in handlers
    ensures handlers[tid := h] - {tid} == handlers
  {}

  lemma Replace(handlers: map<nat, Handler>, tid: nat, h: Handler, h': Handler)
    ensures handlers[tid := h][tid := h'] == handlers[tid := h']
  {}

  /** Recording parity 2 after data shard 0, with waiting more expensive than the estimate, decides to submit. */
  lemma Decides(g: BipartiteGraph)
    requires Twice(g) && ValidGraph(g)
    ensures Record(g, Request4({0}, false).(wordCount := 1), 2, [0], 0, Some(1), 2)
      == (Request4({0, 2}, true), SubmitTask(Snapshot(g), Slots4({0, 2})))
  {
    StoreAt({0}, false, 2);
    assert {0} + {2} == {0, 2};
    OneErasureRecovers(g);
    assert Arrivals4({0, 2})[1].None?;
  }

  lemma RecordAt(g: BipartiteGraph, filled: set<ShardId>, submitted: bool, handlers: map<nat, Handler>, tid: nat,
                 shard: ShardId)
    requires Twice(g) && ValidGraph(g) && tid !in handlers
    requires shard !in filled && shard < 4 && 1 !in filled && shard != 1
    ensures Next(Locked4(g, filled, submitted, handlers, tid, shard), RecordShard(tid, 0))
      == Some(State4(g, filled + {shard}, submitted, handlers))
  {
    RecordsOnly(g, filled, submitted, shard);
    RecordLocked(g, filled, submitted, handlers, tid, shard, 0, Request4(filled + {shard}, submitted), NoAction);
  }

  lemma DecideAt(g: BipartiteGraph)
    requires Twice(g) && ValidGraph(g)
    ensures Next(Locked4(g, {0}, false, map[], 1, 2), RecordShard(1, 2))
      == Some(State4(g, {0, 2}, true, map[1 := Submitting(0, Snapshot(g), Slots4({0, 2}))]))
  {
    Decides(g);
    assert {0} + {2} == {0, 2};
    RecordLocked(g, {0}, false, map[], 1, 2, 2, Request4({0, 2}, true), SubmitTask(Snapshot(g), Slots4({0, 2})));
  }

  function AndThen(s: Option<System>, step: Step): Option<System> {
    if s.None? then None else Next(s.value, step)
  }

  function Stale(g: BipartiteGraph, plan: DecodePlan): System {
    State4(g, {0, 2, 3}, true, map[1 := Submitting(0, plan, Slots4({0, 2}))])
  }

  /** The stale task in the hands of the only worker. */
  function StaleTask(plan: DecodePlan): E.Task {
    E.Task(0, 0, plan, Slots4({0, 2}), Slots4({0, 2, 3}))
  }

  function Popped(g: BipartiteGraph, plan: DecodePlan): System {
    Stale(g, plan).(submits := [0], handlers := map[1 := Rechecking(0)],
                    exec := E.Init(1, 0, 1).(accepted := [0], running := {0}, workers := [E.Working(StaleTask(plan))]))
  }

  lemma SubmitStale(g: BipartiteGraph, plan: DecodePlan)
    ensures AndThen(Next(Stale(g, plan), CallSubmit(1)), Pop(0)) == Some(Popped(g, plan))
  {
    var s := Stale(g, plan);
    assert s.exec.staged - {0} == map[];
    assert s.handlers[1 := Rechecking(0)] == map[1 := Rechecking(0)];
    var s1 := Next(s, CallSubmit(1)).value;
    assert s1.exec.queue == [StaleTask(plan)];
    assert s1.exec.workers[0 := E.Working(StaleTask(plan))] == [E.Working(StaleTask(plan))];
    assert Next(s1, Pop(0)).value.exec == Popped(g, plan).exec;
  }

  lemma RunPopped(g: BipartiteGraph, plan: DecodePlan)
    ensures var end := AndThen(Next(Popped(g, plan), Check(0)), Complete(0));
      end.Some? && 0 in end.value.requests && end.value.requests[0].status.Failed?
  {
    assert Slots4({0, 2, 3})[3].Some? && Slots4({0, 2})[3].None?;
  }

  /** From a stale submission to the failure: the staged shards are not the submitted ones. */
  lemma RunStale(g: BipartiteGraph, plan: DecodePlan)
    ensures var end := AndThen(AndThen(AndThen(Next(Stale(g, plan), CallSubmit(1)), Pop(0)), Check(0)), Complete(0));
      end.Some? && 0 in end.value.requests && end.value.requests[0].status.Failed?
  {
    SubmitStale(g, plan);
    RunPopped(g, plan);
  }

  /** Delivering and recording one more shard extends a run by two steps. */
  lemma Deliver(start: System, steps: seq<Step>, s: System, arrive: Step, locked: System, record: Step, s': System)
    requires Reach(start, steps) == Some(s) && Next(s, arrive) == Some(locked) && Next(locked, record) == Some(s')
    ensures Reach(start, steps + [arrive] + [record]) == Some(s')
  {
    assert (steps + [arrive])[..|steps|] == steps;
    assert (steps + [arrive] + [record])[..|steps| + 1] == steps + [arrive];
  }

  function Opened(): seq<Step> {
    [Start(0)] + [Arrive(0, 0, 0, [0], 0)] + [RecordShard(0, 0)]
  }

  /** Handler 1 decides on data shard 0 and parity 2. */
  function Decided(): seq<Step> {
    Opened() + [Arrive(1, 0, 2, [0], 0)] + [RecordShard(1, 2)]
  }

  /** Handler 2 stores parity 3 before handler 1 submits. */
  function Overtaken(): seq<Step> {
    Decided() + [Arrive(2, 0, 3, [0], 0)] + [RecordShard(2, 0)]
  }

  lemma OpenedRun(g: BipartiteGraph)
    requires Twice(g) && ValidGraph(g)
    ensures Reach(Init(g, 1, 0, 1), Opened()) == Some(State4(g, {0}, false, map[]))
  {
    var start := Init(g, 1, 0, 1);
    assert NewRequest(4) == Request4({}, false);
    assert Reach(start, [Start(0)]) == Some(State4(g, {}, false, map[])) by {
      assert [Start(0)][..0] == [];
    }
    ArriveAt(g, {}, false, map[], 0, 0);
    RecordAt(g, {}, false, map[], 0, 0);
    assert {} + {0} == {0};
    Deliver(start, [Start(0)], State4(g, {}, false, map[]), Arrive(0, 0, 0, [0], 0),
            Locked4(g, {}, false, map[], 0, 0), RecordShard(0, 0), State4(g, {0}, false, map[]));
  }

  lemma DecidedRun(g: BipartiteGraph)
    requires Twice(g) && ValidGraph(g)
    ensures Reach(Init(g, 1, 0, 1), Decided())
      == Some(State4(g, {0, 2}, true, map[1 := Submitting(0, Snapshot(g), Slots4({0, 2}))]))
  {
    OpenedRun(g);
    ArriveAt(g, {0}, false, map[], 1, 2);
    DecideAt(g);
    Deliver(Init(g, 1, 0, 1), Opened(), State4(g, {0}, false, map[]), Arrive(1, 0, 2, [0], 0),
            Locked4(g, {0}, false, map[], 1, 2), RecordShard(1, 2),
            State4(g, {0, 2}, true, map[1 := Submitting(0, Snapshot(g), Slots4({0, 2}))]));
  }

  lemma OvertakenRun(g: BipartiteGraph)
    requires Twice(g) && ValidGraph(g)
    ensures Reach(Init(g, 1, 0, 1), Overtaken()) == Some(Stale(g, Snapshot(g)))
  {
    DecidedRun(g);
    var handlers := map[1 := Submitting(0, Snapshot(g), Slots4({0, 2}))];
    ArriveAt(g, {0, 2}, true, handlers, 2, 3);
    RecordAt(g, {0, 2}, true, handlers, 2, 3);
    assert {0, 2} + {3} == {0, 2, 3};
    Deliver(Init(g, 1, 0, 1), Decided(), State4(g, {0, 2}, true, handlers), Arrive(2, 0, 3, [0], 0),
            Locked4(g, {0, 2}, true, handlers, 2, 3), RecordShard(2, 0), Stale(g, Snapshot(g)));
  }

  lemma Onward(s: System, steps: seq<Step>, step: Step)
    requires Reach(s, steps).Some?
    ensures Reach(s, steps + [step]) == AndThen(Reach(s, steps), step)
  {
    assert (steps + [step])[..|steps|] == steps;
  }

  /**
   * The claim that an accepted recovery succeeds is false under concurrent delivery: with one worker and a service
   * estimate of one, parity 3 is staged between handler 1's decision and its submission, and the recovery of a
   * recoverable request fails.
   */
  lemma AcceptedRecoveryCanFail(g: BipartiteGraph)
    requires Twice(g)
    ensures ValidGraph(g)
    ensures var end := Reach(Init(g, 1, 0, 1), Overtaken() + [CallSubmit(1)] + [Pop(0)] + [Check(0)] + [Complete(0)]);
      end.Some? && 0 in end.value.requests && end.value.requests[0].status.Failed?
  {
    TwiceIsValid(g);
    OvertakenRun(g);
    RunStale(g, Snapshot(g));
    var start := Init(g, 1, 0, 1);
    Onward(start, Overtaken(), CallSubmit(1));
    Onward(start, Overtaken() + [CallSubmit(1)], Pop(0));
    Onward(start, Overtaken() + [CallSubmit(1)] + [Pop(0)], Check(0));
    Onward(start, Overtaken() + [CallSubmit(1)] + [Pop(0)] + [Check(0)], Complete(0));
  }
}
