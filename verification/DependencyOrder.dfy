/** Any order that respects a plan's dependency lists computes the same shards as plan order. */
module DependencyOrder {
  import opened Shards
  import opened Graphs
  import opened Peeling
  import opened Codec

  /** In the final slots, the operation's output is the XOR of its sources. */
  predicate Settled(op: XorOperation, final: Slots) {
    && op.sources != [] && op.sources[0] < |final| && final[op.sources[0]].Some?
    && |final[op.sources[0]].value| > 0
    && Readable(op.sources, final, |final[op.sources[0]].value|)
    && op.output < |final| && final[op.output] == Some(Reconstruct(op, final))
  }

  /** Everything the operation reads was there from the start or is written by an operation in `done`. */
  predicate SourcesReady(op: XorOperation, slots: Slots, done: set<ShardId>) {
    forall i | 0 <= i < |op.sources| ::
      op.sources[i] < |slots| && (slots[op.sources[i]].Some? || op.sources[i] in done)
  }

  /** The start slots with the listed ids taken from the final slots. */
  function Overlay(slots: Slots, final: Slots, ids: set<ShardId>): Slots
    requires |slots| == |final|
  {
    seq(|slots|, i requires 0 <= i < |slots| => if i in ids then final[i] else slots[i])
  }

  lemma SettledAgrees(op: XorOperation, s: Slots, t: Slots)
    requires Settled(op, s) && |t| == |s|
    requires forall x | 0 <= x < |s| && s[x].Some? :: t[x] == s[x]
    ensures Settled(op, t)
  {
    assert t[op.sources[0]] == s[op.sources[0]];
    XorShardsAgrees(op.sources, s, t, |s[op.sources[0]].value|);
  }

  /** What an accepted run leaves behind: write-once outputs, each the XOR of final values, read only after written. */
  predicate RunFacts(operations: seq<XorOperation>, slots: Slots, final: Slots) {
    && |final| == |slots| && DistinctOutputs(operations)
    && (forall i | 0 <= i < |operations| ::
          && Settled(operations[i], final)
          && slots[operations[i].output].None?
          && SourcesReady(operations[i], slots, Outputs(operations[..i])))
    && final == Overlay(slots, final, Outputs(operations))
  }

  lemma RunFactsStep(front: seq<XorOperation>, op: XorOperation, slots: Slots, mid: Slots)
    requires RunFacts(front, slots, mid)
    requires CanRun(op, mid)
    ensures RunFacts(front + [op], slots, RunOp(op, mid))
  {
    var operations, final := front + [op], RunOp(op, mid);
    OutputsSnoc(front, op);
    assert operations[|front|] == op;
    XorShardsAgrees(op.sources, mid, final, |mid[op.sources[0]].value|);
    assert op.output !in Outputs(front);
    forall i | 0 <= i < |operations|
      ensures && Settled(operations[i], final)
              && slots[operations[i].output].None?
              && SourcesReady(operations[i], slots, Outputs(operations[..i]))
    {
      if i < |front| {
        assert operations[i] == front[i] && operations[..i] == front[..i];
        SettledAgrees(front[i], mid, final);
      }
    }
    assert DistinctOutputs(operations) by {
      assert forall i | 0 <= i < |front| :: operations[i] == front[i] && front[i].output in Outputs(front);
    }
  }

  lemma {:induction false} RunSettles(operations: seq<XorOperation>, slots: Slots)
    requires Run(operations, slots).Some?
    ensures RunFacts(operations, slots, Run(operations, slots).value)
  {
    if operations == [] {
      assert Outputs(operations) == {};
    } else {
      var front, op := operations[..|operations| - 1], operations[|operations| - 1];
      RunSettles(front, slots);
      assert operations == front + [op];
      RunSnoc(front, op, slots);
      RunFactsStep(front, op, slots, Run(front, slots).value);
    }
  }

  /** Running one operation whose sources are ready writes exactly its final value. */
  lemma OverlayStep(op: XorOperation, slots: Slots, final: Slots, done: set<ShardId>)
    requires |final| == |slots| && Settled(op, final)
    requires forall x | 0 <= x < |slots| && slots[x].Some? :: final[x] == slots[x]
    requires slots[op.output].None? && op.output !in done
    requires SourcesReady(op, slots, done)
    ensures CanRun(op, Overlay(slots, final, done))
    ensures RunOp(op, Overlay(slots, final, done)) == Overlay(slots, final, done + {op.output})
  {
    var now := Overlay(slots, final, done);
    forall i | 0 <= i < |op.sources| ensures op.sources[i] < |now| && now[op.sources[i]] == final[op.sources[i]] {}
    XorShardsAgrees(op.sources, final, now, |final[op.sources[0]].value|);
  }

  /** The i-th operation settles, writes a free slot nobody wrote before, and finds its sources ready. */
  predicate TurnIsReady(chosen: seq<XorOperation>, i: nat, slots: Slots, final: Slots)
    requires i < |chosen|
  {
    && Settled(chosen[i], final)
    && |final| == |slots| && slots[chosen[i].output].None? && chosen[i].output !in Outputs(chosen[..i])
    && SourcesReady(chosen[i], slots, Outputs(chosen[..i]))
  }

  /** Operations that settle, run in an order in which sources are always ready, reach the final slots. */
  lemma {:induction false} ReadyOrderRuns(chosen: seq<XorOperation>, slots: Slots, final: Slots)
    requires |final| == |slots|
    requires forall x | 0 <= x < |slots| && slots[x].Some? :: final[x] == slots[x]
    requires forall i | 0 <= i < |chosen| :: TurnIsReady(chosen, i, slots, final)
    ensures Run(chosen, slots) == Some(Overlay(slots, final, Outputs(chosen)))
  {
    if chosen == [] {
      assert Outputs(chosen) == {};
      assert Overlay(slots, final, {}) == slots;
    } else {
      var front, op := chosen[..|chosen| - 1], chosen[|chosen| - 1];
      forall i | 0 <= i < |front| ensures TurnIsReady(front, i, slots, final) {
        assert TurnIsReady(chosen, i, slots, final) && front[..i] == chosen[..i];
      }
      ReadyOrderRuns(front, slots, final);
      assert TurnIsReady(chosen, |front|, slots, final);
      assert chosen == front + [op];
      OutputsSnoc(front, op);
      RunSnoc(front, op, slots);
      OverlayStep(op, slots, final, Outputs(front));
    }
  }

  /**
   * What the executor accepts and what it leaves, without following its steps: a plan runs to `final` exactly when
   * every output is written once into a free slot and is the XOR of final, equal-sized, non-empty sources, each source
   * is there from the start or written earlier, and every other slot is as it was.
   */
  lemma RunIsExact(operations: seq<XorOperation>, slots: Slots, final: Slots)
    ensures Run(operations, slots) == Some(final) <==> RunFacts(operations, slots, final)
  {
    if Run(operations, slots) == Some(final) {
      RunSettles(operations, slots);
    }
    if RunFacts(operations, slots, final) {
      forall x | 0 <= x < |slots| && slots[x].Some? ensures final[x] == slots[x] {
        assert final[x] == Overlay(slots, final, Outputs(operations))[x];
      }
      forall i | 0 <= i < |operations| ensures TurnIsReady(operations, i, slots, final) {
        assert forall j | 0 <= j < i :: operations[..i][j] == operations[j];
      }
      ReadyOrderRuns(operations, slots, final);
    }
  }

  // ---------- orders ----------

  /** A reordering of 0..n-1: each index once. */
  predicate IsOrder(order: seq<nat>, n: nat) {
    && Distinct(order)
    && (forall t | 0 <= t < |order| :: order[t] < n)
    && forall i | 0 <= i < n :: i in order
  }

  /** Every dependency of an operation is scheduled before it. */
  predicate Respects(order: seq<nat>, dependencies: seq<seq<nat>>)
    requires IsOrder(order, |dependencies|)
  {
    forall t, d | 0 <= t < |order| && d in dependencies[order[t]] :: d in order[..t]
  }

  function Pick(operations: seq<XorOperation>, order: seq<nat>): seq<XorOperation>
    requires forall t | 0 <= t < |order| :: order[t] < |operations|
  {
    seq(|order|, t requires 0 <= t < |order| => operations[order[t]])
  }

  lemma {:induction false} ProducersComplete(operations: seq<XorOperation>, sources: seq<ShardId>, j: nat)
    requires j < |operations| && operations[j].output in sources
    ensures j in Producers(operations, sources)
  {
    if j < |operations| - 1 {
      ProducersComplete(operations[..|operations| - 1], sources, j);
    }
  }

  lemma PickedOutputs(operations: seq<XorOperation>, order: seq<nat>)
    requires IsOrder(order, |operations|)
    ensures Outputs(Pick(operations, order)) == Outputs(operations)
  {
    var chosen := Pick(operations, order);
    forall i | 0 <= i < |operations| ensures operations[i].output in Outputs(chosen) {
      assert i in order;
      var t :| 0 <= t < |order| && order[t] == i;
      assert chosen[t] == operations[i];
    }
  }

  /** In a dependency-respecting order, sources are ready when their reader's turn comes. */
  lemma DependenciesMakeReady(operations: seq<XorOperation>, dependencies: seq<seq<nat>>, order: seq<nat>,
                              slots: Slots, t: nat)
    requires ExactDependencies(operations, dependencies)
    requires IsOrder(order, |dependencies|) && Respects(order, dependencies) && t < |order|
    requires SourcesReady(operations[order[t]], slots, Outputs(operations[..order[t]]))
    ensures SourcesReady(operations[order[t]], slots, Outputs(Pick(operations, order)[..t]))
  {
    var i, earlier := order[t], Pick(operations, order)[..t];
    var op := operations[i];
    forall s | 0 <= s < |op.sources| && slots[op.sources[s]].None? ensures op.sources[s] in Outputs(earlier) {
      var j :| 0 <= j < i && operations[..i][j].output == op.sources[s];
      ProducersComplete(operations[..i], op.sources, j);
      assert j in order[..t];
      var u :| 0 <= u < t && order[..t][u] == j;
      assert earlier[u] == operations[j];
    }
  }

  /**
   * Whatever the shards contain: a plan the executor accepts in plan order is accepted in every order that respects
   * its dependency lists, with the same resulting shards.
   */
  lemma AnyDependencyOrderAgrees(operations: seq<XorOperation>, dependencies: seq<seq<nat>>, order: seq<nat>,
                                 slots: Slots)
    requires ExactDependencies(operations, dependencies)
    requires IsOrder(order, |dependencies|) && Respects(order, dependencies)
    requires Run(operations, slots).Some?
    ensures Run(Pick(operations, order), slots) == Run(operations, slots)
  {
    RunSettles(operations, slots);
    var final := Run(operations, slots).value;
    var chosen := Pick(operations, order);
    forall t | 0 <= t < |chosen| ensures TurnIsReady(chosen, t, slots, final) {
      DependenciesMakeReady(operations, dependencies, order, slots, t);
      forall u | 0 <= u < t ensures chosen[u].output != chosen[t].output {
        assert order[u] != order[t];
      }
    }
    PickedOutputs(operations, order);
    ReadyOrderRuns(chosen, slots, final);
  }

  // ---------- produced plans are executable on any contents ----------

  predicate FilledWith(slots: Slots, n: nat, filled: set<ShardId>) {
    && n > 0 && (forall id | id in filled :: id < |slots|)
    && forall id | 0 <= id < |slots| && id in filled :: slots[id].Some? && |slots[id].value| == n
  }

  /** The shards present at first and those solved since are filled, and those still to be solved are absent. */
  predicate Solved(slots: Slots, n: nat, present: set<ShardId>, missing: set<ShardId>, done: set<ShardId>) {
    && FilledWith(slots, n, present + done)
    && forall id | 0 <= id < |slots| && id in missing - done :: slots[id].None?
  }

  lemma SolvedOneMore(slots: Slots, n: nat, present: set<ShardId>, missing: set<ShardId>, done: set<ShardId>,
                      x: ShardId, shard: Shard)
    requires Solved(slots, n, present, missing, done)
    requires x < |slots| && |shard| == n
    ensures Solved(slots[x := Some(shard)], n, present, missing, done + {x})
  {}

  lemma SourcesSolved(g: BipartiteGraph, avail: set<ShardId>, missing: set<ShardId>, present: set<ShardId>,
                      done: set<ShardId>, op: XorOperation)
    requires ValidGraph(g) && avail <= Range(g.k, g.k + g.m)
    requires Range(0, g.k) <= present + missing && avail <= present
    requires IsPeelStep(g, avail, missing - done, op)
    ensures forall i | 0 <= i < |op.sources| :: op.sources[i] in present + done
  {
    var neighbors := g.equations[op.sources[0]];
    WithoutElements(neighbors, op.output);
    forall i | 1 <= i < |op.sources| ensures op.sources[i] in present + done {
      assert op.sources[i] in Without(neighbors, op.output);
      assert op.sources[i] in Range(0, g.k);
    }
  }

  lemma PeelStepRuns(g: BipartiteGraph, avail: set<ShardId>, missing: set<ShardId>, present: set<ShardId>,
                     done: set<ShardId>, op: XorOperation, n: nat, slots: Slots)
    requires ValidGraph(g) && |slots| == g.k + g.m && avail <= Range(g.k, g.k + g.m)
    requires Range(0, g.k) <= present + missing && avail <= present
    requires Solved(slots, n, present, missing, done)
    requires IsPeelStep(g, avail, missing - done, op)
    ensures CanRun(op, slots)
    ensures Solved(RunOp(op, slots), n, present, missing, done + {op.output})
  {
    SourcesSolved(g, avail, missing, present, done, op);
    assert op.output in g.equations[op.sources[0]];
    assert Readable(op.sources, slots, n);
    SolvedOneMore(slots, n, present, missing, done, op.output, Reconstruct(op, slots));
  }

  /** Peeling plans run on any equal-sized contents, codeword or not, as long as what they peel is absent. */
  lemma PeelingRuns(g: BipartiteGraph, avail: set<ShardId>, missing: set<ShardId>, present: set<ShardId>,
                    operations: seq<XorOperation>, n: nat, slots: Slots)
    requires ValidGraph(g) && |slots| == g.k + g.m && avail <= Range(g.k, g.k + g.m)
    requires Range(0, g.k) <= present + missing && avail <= present
    requires Solved(slots, n, present, missing, {})
    requires Peels(g, avail, missing, operations)
    ensures Run(operations, slots).Some?
    ensures Solved(Run(operations, slots).value, n, present, missing, Outputs(operations))
  {
    assert Outputs([]) == {};
    var p := (ops: seq<XorOperation>) =>
      Run(ops, slots).Some? && Solved(Run(ops, slots).value, n, present, missing, Outputs(ops));
    forall front, op | p(front) && IsPeelStep(g, avail, missing - Outputs(front), op) ensures p(front + [op]) {
      PeelStepRuns(g, avail, missing, present, Outputs(front), op, n, Run(front, slots).value);
      OutputsSnoc(front, op);
      RunSnoc(front, op, slots);
    }
    PeelsInduction(g, avail, missing, operations, p);
  }

  lemma CompletePeelingRuns(g: BipartiteGraph, missing: set<ShardId>, avail: set<ShardId>,
                            operations: seq<XorOperation>, n: nat, slots: Slots)
    requires ValidRequest(g, missing, avail) && |slots| == g.k + g.m
    requires Peels(g, avail, missing, operations)
    requires FilledWith(slots, n, Range(0, g.k) - missing + avail)
    requires forall id | id in missing :: slots[id].None?
    ensures Run(operations, slots).Some?
  {
    var present := Range(0, g.k) - missing + avail;
    assert present + {} == present;
    PeelingRuns(g, avail, missing, present, operations, n, slots);
  }

  lemma ProducedPlanRuns(g: BipartiteGraph, missing: set<ShardId>, avail: set<ShardId>, n: nat, slots: Slots)
    requires ValidRequest(g, missing, avail) && |slots| == g.k + g.m
    requires PlanOf(g, missing, avail).isRecoverable
    requires FilledWith(slots, n, Range(0, g.k) - missing + avail)
    requires forall id | id in missing :: slots[id].None?
    ensures Run(PlanOf(g, missing, avail).operations, slots).Some?
  {
    RecoverablePlanPeels(g, missing, avail);
    CompletePeelingRuns(g, missing, avail, PlanOf(g, missing, avail).operations, n, slots);
  }

  /** A plan the planner calls recoverable runs, in any dependency-respecting order, to one and the same result. */
  lemma ProducedPlanRunsInAnyOrder(g: BipartiteGraph, missing: set<ShardId>, avail: set<ShardId>,
                                   order: seq<nat>, n: nat, slots: Slots)
    requires ValidRequest(g, missing, avail) && |slots| == g.k + g.m
    requires FilledWith(slots, n, Range(0, g.k) - missing + avail)
    requires forall id | id in missing :: slots[id].None?
    requires var plan := PlanOf(g, missing, avail);
      plan.isRecoverable && IsOrder(order, |plan.operations|) && Respects(order, plan.dependencies)
    ensures var operations := PlanOf(g, missing, avail).operations;
      Run(operations, slots).Some? && Run(Pick(operations, order), slots) == Run(operations, slots)
  {
    var plan := PlanOf(g, missing, avail);
    ProducedPlanRuns(g, missing, avail, n, slots);
    assert ExactDependencies(plan.operations, plan.dependencies) by {
      RecoverablePlanPeels(g, missing, avail);
    }
    AnyDependencyOrderAgrees(plan.operations, plan.dependencies, order, slots);
  }
}
