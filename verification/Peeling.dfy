/**
 * The peeling decoder as a mathematical object: what one scan step does, what a whole plan is,
 * and the combinatorial characterisation of when peeling succeeds.
 */
module Peeling {
  import opened Shards
  import opened Graphs

  // ---------- the planner's steps ----------

  /** The planner's working state: shards still missing, and the plan grown so far. */
  datatype PeelState = PeelState(remaining: set<ShardId>, operations: seq<XorOperation>, dependencies: seq<seq<nat>>)

  predicate ValidRequest(g: BipartiteGraph, missing: set<ShardId>, avail: set<ShardId>) {
    && ValidGraph(g)
    && missing <= Range(0, g.k)
    && avail <= Range(g.k, g.k + g.m)
  }

  /** The neighbors that are still missing, in list order. */
  function MissingIn(neighbors: seq<ShardId>, remaining: set<ShardId>): (r: seq<ShardId>)
    ensures forall i | 0 <= i < |r| :: r[i] in remaining
    ensures remaining == {} ==> r == []
  {
    if neighbors == [] then []
    else
      var last := |neighbors| - 1;
      MissingIn(neighbors[..last], remaining) + if neighbors[last] in remaining then [neighbors[last]] else []
  }

  /** Indices, ascending, of the operations that produce one of the given sources. */
  function Producers(operations: seq<XorOperation>, sources: seq<ShardId>): (r: seq<nat>)
    ensures forall i | 0 <= i < |r| :: r[i] < |operations| && operations[r[i]].output in sources
  {
    if operations == [] then []
    else
      var last := |operations| - 1;
      Producers(operations[..last], sources) + if operations[last].output in sources then [last] else []
  }

  function PeelOperation(parity: ShardId, neighbors: seq<ShardId>, output: ShardId): XorOperation {
    XorOperation(output, [parity] + Without(neighbors, output))
  }

  /** One equation: peel it if it is available and exactly one neighbor is missing. */
  function PeelEquation(g: BipartiteGraph, avail: set<ShardId>, parity: ShardId, st: PeelState): (r: PeelState)
    requires parity in g.equations
    ensures |r.remaining| + |r.operations| == |st.remaining| + |st.operations|
    ensures r == st || |r.operations| == |st.operations| + 1
    ensures |r.dependencies| - |r.operations| == |st.dependencies| - |st.operations|
  {
    var missing := MissingIn(g.equations[parity], st.remaining);
    if parity !in avail || |missing| != 1 then st
    else
      var op := PeelOperation(parity, g.equations[parity], missing[0]);
      PeelState(st.remaining - {missing[0]}, st.operations + [op],
                st.dependencies + [Producers(st.operations, op.sources)])
  }

  /** The state after the equations of parity ids below `stop` have been scanned once. */
  function Scan(g: BipartiteGraph, avail: set<ShardId>, stop: nat, st: PeelState): (r: PeelState)
    requires ValidGraph(g) && g.k <= stop <= g.k + g.m
    ensures |r.remaining| + |r.operations| == |st.remaining| + |st.operations|
    ensures r == st || |r.operations| > |st.operations|
    ensures |r.dependencies| - |r.operations| == |st.dependencies| - |st.operations|
    decreases stop
  {
    if stop == g.k then st else PeelEquation(g, avail, stop - 1, Scan(g, avail, stop - 1, st))
  }

  /** Scan again and again until nothing is missing or a whole scan makes no progress. */
  function Peel(g: BipartiteGraph, avail: set<ShardId>, st: PeelState): (r: PeelState)
    requires ValidGraph(g)
    ensures |r.dependencies| - |r.operations| == |st.dependencies| - |st.operations|
    decreases |st.remaining|
  {
    var next := Scan(g, avail, g.k + g.m, st);
    if st.remaining == {} || next == st then st else Peel(g, avail, next)
  }

  /** The plan the planner returns. */
  function PlanOf(g: BipartiteGraph, missing: set<ShardId>, avail: set<ShardId>): (plan: DecodePlan)
    requires ValidGraph(g)
    ensures |plan.dependencies| == |plan.operations|
  {
    var st := Peel(g, avail, PeelState(missing, [], []));
    if st.remaining == {} then DecodePlan(st.operations, st.dependencies, true) else Unrecoverable
  }

  // ---------- what a peeling sequence is, in any order ----------

  function Outputs(operations: seq<XorOperation>): set<ShardId> {
    set i | 0 <= i < |operations| :: operations[i].output
  }

  /** x is the only neighbor that lies in s. */
  predicate MeetsOnce(neighbors: seq<ShardId>, s: set<ShardId>, x: ShardId) {
    && x in neighbors && x in s
    && forall i | 0 <= i < |neighbors| && neighbors[i] in s :: neighbors[i] == x
  }

  /** op solves one available equation for the only neighbor still missing. */
  predicate IsPeelStep(g: BipartiteGraph, avail: set<ShardId>, remaining: set<ShardId>, op: XorOperation) {
    && op.sources != []
    && var parity := op.sources[0];
       && parity in avail && parity in g.equations
       && MeetsOnce(g.equations[parity], remaining, op.output)
       && op == PeelOperation(parity, g.equations[parity], op.output)
  }

  /** The operations peel shards off `missing` one after the other; the order of equations is free. */
  predicate Peels(g: BipartiteGraph, avail: set<ShardId>, missing: set<ShardId>, operations: seq<XorOperation>) {
    operations == [] ||
    var front, op := operations[..|operations| - 1], operations[|operations| - 1];
    Peels(g, avail, missing, front) && IsPeelStep(g, avail, missing - Outputs(front), op)
  }

  /** No available equation can make progress. */
  ghost predicate Stuck(g: BipartiteGraph, avail: set<ShardId>, remaining: set<ShardId>)
    requires ValidGraph(g) && avail <= Range(g.k, g.k + g.m)
  {
    EquationIds(g);
    forall p, x | p in avail :: !MeetsOnce(g.equations[p], remaining, x)
  }

  /** A stopping set: erased systematic shards that no available equation meets in exactly one shard. */
  ghost predicate IsStoppingSubset(g: BipartiteGraph, avail: set<ShardId>, missing: set<ShardId>, s: set<ShardId>)
    requires ValidGraph(g) && avail <= Range(g.k, g.k + g.m)
  {
    s <= missing && Stuck(g, avail, s)
  }

  /** All erased shards that lie in some stopping set. */
  ghost function StoppingCore(g: BipartiteGraph, missing: set<ShardId>, avail: set<ShardId>): set<ShardId>
    requires ValidGraph(g) && avail <= Range(g.k, g.k + g.m)
  {
    set x | x in missing && exists s :: IsStoppingSubset(g, avail, missing, s) && x in s
  }

  // ---------- combinatorics ----------

  lemma OutputsSnoc(operations: seq<XorOperation>, op: XorOperation)
    ensures Outputs(operations + [op]) == Outputs(operations) + {op.output}
    ensures (operations + [op])[..|operations|] == operations
  {
    var all := operations + [op];
    assert forall i | 0 <= i < |operations| :: all[i] == operations[i];
    assert all[|operations|] == op;
  }

  /** What holds of no operations and survives every peel step holds of every peeling sequence. */
  lemma {:induction false} PeelsInduction(g: BipartiteGraph, avail: set<ShardId>, missing: set<ShardId>,
                                          operations: seq<XorOperation>, p: seq<XorOperation> -> bool)
    requires Peels(g, avail, missing, operations)
    requires p([])
    requires forall front, op | p(front) && IsPeelStep(g, avail, missing - Outputs(front), op) :: p(front + [op])
    ensures p(operations)
  {
    if operations != [] {
      var front, op := operations[..|operations| - 1], operations[|operations| - 1];
      PeelsInduction(g, avail, missing, front, p);
      assert operations == front + [op];
    }
  }

  /** The union of all stopping sets is itself one, hence the greatest. */
  lemma StoppingCoreIsGreatest(g: BipartiteGraph, missing: set<ShardId>, avail: set<ShardId>)
    requires ValidGraph(g) && avail <= Range(g.k, g.k + g.m)
    ensures IsStoppingSubset(g, avail, missing, StoppingCore(g, missing, avail))
    ensures forall s :: IsStoppingSubset(g, avail, missing, s) ==> s <= StoppingCore(g, missing, avail)
  {
    EquationIds(g);
    var core := StoppingCore(g, missing, avail);
    forall p, x | p in avail ensures !MeetsOnce(g.equations[p], core, x) {
      if MeetsOnce(g.equations[p], core, x) {
        var s :| IsStoppingSubset(g, avail, missing, s) && x in s;
        assert s <= core;
        assert MeetsOnce(g.equations[p], s, x);
      }
    }
  }

  lemma StepSparesCore(g: BipartiteGraph, avail: set<ShardId>, missing: set<ShardId>, remaining: set<ShardId>,
                       op: XorOperation)
    requires ValidGraph(g) && avail <= Range(g.k, g.k + g.m)
    requires StoppingCore(g, missing, avail) <= remaining && IsPeelStep(g, avail, remaining, op)
    ensures op.output !in StoppingCore(g, missing, avail)
  {
    StoppingCoreIsGreatest(g, missing, avail);
    var core := StoppingCore(g, missing, avail);
    assert op.output in core ==> MeetsOnce(g.equations[op.sources[0]], core, op.output);
  }

  /** Whatever order peeling is done in, no shard of the core is ever peeled. */
  lemma PeelingKeepsCore(g: BipartiteGraph, avail: set<ShardId>, missing: set<ShardId>, operations: seq<XorOperation>)
    requires ValidGraph(g) && avail <= Range(g.k, g.k + g.m)
    requires Peels(g, avail, missing, operations)
    ensures StoppingCore(g, missing, avail) <= missing - Outputs(operations)
  {
    var core := StoppingCore(g, missing, avail);
    var spared := (ops: seq<XorOperation>) => core <= missing - Outputs(ops);
    forall front, op | spared(front) && IsPeelStep(g, avail, missing - Outputs(front), op)
      ensures spared(front + [op])
    {
      StepSparesCore(g, avail, missing, missing - Outputs(front), op);
      OutputsSnoc(front, op);
    }
    PeelsInduction(g, avail, missing, operations, spared);
  }

  /** Confluence: every maximal peeling sequence, in any order of equations, is stuck with exactly the core. */
  lemma MaximalPeelingLeavesCore(g: BipartiteGraph, avail: set<ShardId>, missing: set<ShardId>,
                                 operations: seq<XorOperation>)
    requires ValidGraph(g) && avail <= Range(g.k, g.k + g.m)
    requires Peels(g, avail, missing, operations)
    requires Stuck(g, avail, missing - Outputs(operations))
    ensures missing - Outputs(operations) == StoppingCore(g, missing, avail)
  {
    PeelingKeepsCore(g, avail, missing, operations);
    StoppingCoreIsGreatest(g, missing, avail);
    assert IsStoppingSubset(g, avail, missing, missing - Outputs(operations));
  }

  /** Fewer erasures or more surviving parity can only shrink the core. */
  lemma CoreIsMonotone(g: BipartiteGraph, missing: set<ShardId>, avail: set<ShardId>,
                       fewer: set<ShardId>, more: set<ShardId>)
    requires ValidGraph(g) && more <= Range(g.k, g.k + g.m)
    requires fewer <= missing && avail <= more
    ensures StoppingCore(g, fewer, more) <= StoppingCore(g, missing, avail)
  {
    forall s | IsStoppingSubset(g, more, fewer, s) ensures IsStoppingSubset(g, avail, missing, s) {}
  }

  predicate DistinctOutputs(operations: seq<XorOperation>) {
    forall i, j | 0 <= i < j < |operations| :: operations[i].output != operations[j].output
  }

  predicate DistinctParities(operations: seq<XorOperation>) {
    && (forall i | 0 <= i < |operations| :: operations[i].sources != [])
    && forall i, j | 0 <= i < j < |operations| :: operations[i].sources[0] != operations[j].sources[0]
  }

  /** A peeling sequence writes each missing shard at most once and spends a fresh available parity each time. */
  lemma PeelingShape(g: BipartiteGraph, avail: set<ShardId>, missing: set<ShardId>, operations: seq<XorOperation>)
    requires Peels(g, avail, missing, operations)
    ensures DistinctOutputs(operations) && DistinctParities(operations)
    ensures Outputs(operations) <= missing && |Outputs(operations)| == |operations| <= |avail|
  {
    PeelingSpendsParities(g, avail, missing, operations);
    PeelingOutputs(g, avail, missing, operations);
  }

  /** Distinct outputs, all of them missing shards. */
  predicate WritesDistinct(missing: set<ShardId>, operations: seq<XorOperation>) {
    && DistinctOutputs(operations) && Outputs(operations) <= missing && |Outputs(operations)| == |operations|
  }

  lemma WritesDistinctSnoc(missing: set<ShardId>, front: seq<XorOperation>, op: XorOperation)
    requires WritesDistinct(missing, front) && op.output in missing - Outputs(front)
    ensures WritesDistinct(missing, front + [op])
  {
    OutputsSnoc(front, op);
    var all := front + [op];
    assert forall i | 0 <= i < |front| :: all[i].output == front[i].output && front[i].output in Outputs(front);
  }

  lemma PeelingOutputs(g: BipartiteGraph, avail: set<ShardId>, missing: set<ShardId>, operations: seq<XorOperation>)
    requires Peels(g, avail, missing, operations)
    ensures WritesDistinct(missing, operations)
  {
    assert Outputs([]) == {};
    var p := (ops: seq<XorOperation>) => WritesDistinct(missing, ops);
    forall front, op | p(front) && IsPeelStep(g, avail, missing - Outputs(front), op) ensures p(front + [op]) {
      WritesDistinctSnoc(missing, front, op);
    }
    PeelsInduction(g, avail, missing, operations, p);
  }

  /** Distinct surviving parities, and no equation used so far has a missing neighbor left. */
  predicate AllSpent(g: BipartiteGraph, avail: set<ShardId>, remaining: set<ShardId>, operations: seq<XorOperation>) {
    && DistinctParities(operations)
    && forall i | 0 <= i < |operations| ::
         && operations[i].sources[0] in avail && operations[i].sources[0] in g.equations
         && forall y | y in g.equations[operations[i].sources[0]] :: y !in remaining
  }

  lemma SpentStaysSpent(g: BipartiteGraph, avail: set<ShardId>, missing: set<ShardId>, front: seq<XorOperation>,
                        op: XorOperation)
    requires AllSpent(g, avail, missing - Outputs(front), front)
    requires IsPeelStep(g, avail, missing - Outputs(front), op)
    ensures AllSpent(g, avail, missing - Outputs(front + [op]), front + [op])
  {
    OutputsSnoc(front, op);
    var all := front + [op];
    assert op.output in g.equations[op.sources[0]] && op.output in missing - Outputs(front);
    assert forall i | 0 <= i < |front| :: all[i] == front[i] && front[i].sources[0] != op.sources[0];
    assert all[|front|] == op;
  }

  /** A spent equation has no missing neighbor left, so it is never spent again. */
  lemma PeelingSpendsParities(g: BipartiteGraph, avail: set<ShardId>, missing: set<ShardId>,
                              operations: seq<XorOperation>)
    requires Peels(g, avail, missing, operations)
    ensures DistinctParities(operations) && |operations| <= |avail|
  {
    var p := (ops: seq<XorOperation>) => AllSpent(g, avail, missing - Outputs(ops), ops);
    forall front, op | p(front) && IsPeelStep(g, avail, missing - Outputs(front), op) ensures p(front + [op]) {
      SpentStaysSpent(g, avail, missing, front, op);
    }
    PeelsInduction(g, avail, missing, operations, p);
    ParityCount(operations, avail);
  }

  lemma {:induction false} ParityCount(operations: seq<XorOperation>, avail: set<ShardId>)
    requires DistinctParities(operations)
    requires forall i | 0 <= i < |operations| :: operations[i].sources[0] in avail
    ensures |operations| <= |avail|
  {
    if operations != [] {
      var last := |operations| - 1;
      ParityCount(operations[..last], avail - {operations[last].sources[0]});
    }
  }

  // ---------- the planner's run is a peeling sequence ----------

  lemma {:induction false} MissingInElements(neighbors: seq<ShardId>, remaining: set<ShardId>)
    requires Distinct(neighbors)
    ensures forall x :: x in MissingIn(neighbors, remaining) <==> x in neighbors && x in remaining
    ensures Distinct(MissingIn(neighbors, remaining))
  {
    if neighbors != [] {
      var last := |neighbors| - 1;
      MissingInElements(neighbors[..last], remaining);
      assert neighbors == neighbors[..last] + [neighbors[last]];
    }
  }

  /** Counting the missing neighbors decides whether the equation meets the missing set once, and where. */
  lemma MissingInDecides(neighbors: seq<ShardId>, remaining: set<ShardId>)
    requires Distinct(neighbors)
    ensures |MissingIn(neighbors, remaining)| == 1
      ==> MeetsOnce(neighbors, remaining, MissingIn(neighbors, remaining)[0])
    ensures |MissingIn(neighbors, remaining)| != 1 ==> forall x :: !MeetsOnce(neighbors, remaining, x)
  {
    MissingInElements(neighbors, remaining);
    var found := MissingIn(neighbors, remaining);
    if |found| == 1 {
      assert found[0] in found;
    } else if |found| > 1 {
      assert found[0] in found && found[1] in found && found[0] != found[1];
    }
  }

  /** Each operation's dependency list is exactly the earlier operations producing one of its sources. */
  predicate ExactDependencies(operations: seq<XorOperation>, dependencies: seq<seq<nat>>) {
    && |dependencies| == |operations|
    && forall i | 0 <= i < |operations| :: dependencies[i] == Producers(operations[..i], operations[i].sources)
  }

  predicate PeelInvariant(g: BipartiteGraph, avail: set<ShardId>, missing: set<ShardId>, st: PeelState) {
    && Peels(g, avail, missing, st.operations)
    && st.remaining == missing - Outputs(st.operations)
    && ExactDependencies(st.operations, st.dependencies)
  }

  lemma ExactDependenciesSnoc(operations: seq<XorOperation>, dependencies: seq<seq<nat>>, op: XorOperation)
    requires ExactDependencies(operations, dependencies)
    ensures ExactDependencies(operations + [op], dependencies + [Producers(operations, op.sources)])
  {
    var all := operations + [op];
    forall i | 0 <= i < |operations| ensures all[..i] == operations[..i] && all[i] == operations[i] {}
    assert all[..|operations|] == operations && all[|operations|] == op;
  }

  lemma PeelsSnoc(g: BipartiteGraph, avail: set<ShardId>, missing: set<ShardId>, operations: seq<XorOperation>,
                  op: XorOperation)
    requires Peels(g, avail, missing, operations)
    requires IsPeelStep(g, avail, missing - Outputs(operations), op)
    ensures Peels(g, avail, missing, operations + [op])
    ensures missing - Outputs(operations + [op]) == missing - Outputs(operations) - {op.output}
  {
    OutputsSnoc(operations, op);
  }

  lemma PeelEquationKeepsInvariant(g: BipartiteGraph, avail: set<ShardId>, missing: set<ShardId>,
                                   parity: ShardId, st: PeelState)
    requires ValidGraph(g) && g.k <= parity < g.k + g.m
    requires PeelInvariant(g, avail, missing, st)
    ensures PeelInvariant(g, avail, missing, PeelEquation(g, avail, parity, st))
  {
    var found := MissingIn(g.equations[parity], st.remaining);
    if parity in avail && |found| == 1 {
      MissingInDecides(g.equations[parity], st.remaining);
      var op := PeelOperation(parity, g.equations[parity], found[0]);
      PeelsSnoc(g, avail, missing, st.operations, op);
      ExactDependenciesSnoc(st.operations, st.dependencies, op);
    }
  }

  /** Whatever one equation step keeps, a scan keeps. */
  lemma {:induction false} ScanKeeps(g: BipartiteGraph, avail: set<ShardId>, inv: PeelState -> bool,
                                     stop: nat, st: PeelState)
    requires ValidGraph(g) && g.k <= stop <= g.k + g.m
    requires forall p, s | g.k <= p < g.k + g.m && inv(s) :: inv(PeelEquation(g, avail, p, s))
    requires inv(st)
    ensures inv(Scan(g, avail, stop, st))
    decreases stop
  {
    if stop > g.k {
      ScanKeeps(g, avail, inv, stop - 1, st);
    }
  }

  /** Whatever one equation step keeps, peeling to the end keeps. */
  lemma {:induction false} PeelKeeps(g: BipartiteGraph, avail: set<ShardId>, inv: PeelState -> bool, st: PeelState)
    requires ValidGraph(g)
    requires forall p, s | g.k <= p < g.k + g.m && inv(s) :: inv(PeelEquation(g, avail, p, s))
    requires inv(st)
    ensures inv(Peel(g, avail, st))
    decreases |st.remaining|
  {
    var next := Scan(g, avail, g.k + g.m, st);
    if st.remaining != {} && next != st {
      ScanKeeps(g, avail, inv, g.k + g.m, st);
      PeelKeeps(g, avail, inv, next);
    }
  }

  /** A scan that peels nothing has looked at every available equation with the same missing set. */
  lemma {:induction false} IdleScan(g: BipartiteGraph, avail: set<ShardId>, stop: nat, st: PeelState)
    requires ValidGraph(g) && g.k <= stop <= g.k + g.m
    requires Scan(g, avail, stop, st) == st
    ensures forall p, x | g.k <= p < stop && p in avail :: !MeetsOnce(g.equations[p], st.remaining, x)
    decreases stop
  {
    if stop > g.k {
      IdleScan(g, avail, stop - 1, st);
      MissingInDecides(g.equations[stop - 1], st.remaining);
    }
  }

  lemma IdleMeansStuck(g: BipartiteGraph, avail: set<ShardId>, remaining: set<ShardId>)
    requires ValidGraph(g) && avail <= Range(g.k, g.k + g.m)
    requires forall p, x | g.k <= p < g.k + g.m && p in avail :: !MeetsOnce(g.equations[p], remaining, x)
    ensures Stuck(g, avail, remaining)
  {
    EquationIds(g);
  }

  /** What holds when nothing is missing and what holds when a scan changes nothing holds when peeling ends. */
  lemma {:induction false} PeelEnds(g: BipartiteGraph, avail: set<ShardId>, st: PeelState, p: PeelState -> bool)
    requires ValidGraph(g)
    requires forall s: PeelState | s.remaining == {} :: p(s)
    requires forall s | Scan(g, avail, g.k + g.m, s) == s :: p(s)
    ensures p(Peel(g, avail, st))
    decreases |st.remaining|
  {
    var next := Scan(g, avail, g.k + g.m, st);
    if st.remaining != {} && next != st {
      PeelEnds(g, avail, next, p);
    }
  }

  lemma PeelEndsStuck(g: BipartiteGraph, avail: set<ShardId>, st: PeelState)
    requires ValidGraph(g) && avail <= Range(g.k, g.k + g.m)
    ensures Stuck(g, avail, Peel(g, avail, st).remaining)
  {
    IdleMeansStuck(g, avail, {});
    var p := (s: PeelState) => Stuck(g, avail, s.remaining);
    forall s | Scan(g, avail, g.k + g.m, s) == s ensures p(s) {
      IdleScan(g, avail, g.k + g.m, s);
      IdleMeansStuck(g, avail, s.remaining);
    }
    PeelEnds(g, avail, st, p);
  }

  /** What the planner's run ends with: a peeling sequence with exact dependencies that nothing can extend. */
  lemma PeelResult(g: BipartiteGraph, missing: set<ShardId>, avail: set<ShardId>)
    requires ValidRequest(g, missing, avail)
    ensures var done := Peel(g, avail, PeelState(missing, [], []));
      PeelInvariant(g, avail, missing, done) && Stuck(g, avail, done.remaining)
  {
    var start := PeelState(missing, [], []);
    forall p, s | g.k <= p < g.k + g.m && PeelInvariant(g, avail, missing, s)
      ensures PeelInvariant(g, avail, missing, PeelEquation(g, avail, p, s))
    {
      PeelEquationKeepsInvariant(g, avail, missing, p, s);
    }
    PeelKeeps(g, avail, s => PeelInvariant(g, avail, missing, s), start);
    PeelEndsStuck(g, avail, start);
  }

  // ---------- main results about the planner ----------

  /** The planner is stuck with the stopping core, and reports success when that is empty. */
  lemma PlannerLeavesCore(g: BipartiteGraph, missing: set<ShardId>, avail: set<ShardId>)
    requires ValidRequest(g, missing, avail)
    ensures Peel(g, avail, PeelState(missing, [], [])).remaining == StoppingCore(g, missing, avail)
    ensures PlanOf(g, missing, avail).isRecoverable <==> StoppingCore(g, missing, avail) == {}
  {
    PeelResult(g, missing, avail);
    MaximalPeelingLeavesCore(g, avail, missing, Peel(g, avail, PeelState(missing, [], [])).operations);
  }

  /**
   * Exactness: the planner gives up if and only if the erased shards contain a non-empty stopping set,
   * and what it is stuck with is then the greatest one.
   */
  lemma PlannerIsExact(g: BipartiteGraph, missing: set<ShardId>, avail: set<ShardId>)
    requires ValidRequest(g, missing, avail)
    ensures Peel(g, avail, PeelState(missing, [], [])).remaining == StoppingCore(g, missing, avail)
    ensures !PlanOf(g, missing, avail).isRecoverable
       <==> exists s :: s != {} && IsStoppingSubset(g, avail, missing, s)
  {
    PlannerLeavesCore(g, missing, avail);
    StoppingCoreIsGreatest(g, missing, avail);
  }

  /** A recoverable plan peels exactly the missing shards, with exact dependencies. */
  lemma RecoverablePlanPeels(g: BipartiteGraph, missing: set<ShardId>, avail: set<ShardId>)
    requires ValidRequest(g, missing, avail)
    requires PlanOf(g, missing, avail).isRecoverable
    ensures var plan := PlanOf(g, missing, avail);
      && Peels(g, avail, missing, plan.operations)
      && Outputs(plan.operations) == missing
      && ExactDependencies(plan.operations, plan.dependencies)
  {
    PeelResult(g, missing, avail);
    PeelingShape(g, avail, missing, PlanOf(g, missing, avail).operations);
  }

  /** Dependencies point backwards, so both executors' shape checks accept the plan. */
  lemma RecoverablePlanShape(g: BipartiteGraph, missing: set<ShardId>, avail: set<ShardId>)
    requires ValidRequest(g, missing, avail)
    requires PlanOf(g, missing, avail).isRecoverable
    ensures ValidShape(PlanOf(g, missing, avail))
  {
    RecoverablePlanPeels(g, missing, avail);
  }

  /** One operation per erased shard, each with its own surviving parity. */
  lemma RecoverablePlanSize(g: BipartiteGraph, missing: set<ShardId>, avail: set<ShardId>)
    requires ValidRequest(g, missing, avail)
    requires PlanOf(g, missing, avail).isRecoverable
    ensures |PlanOf(g, missing, avail).operations| == |missing| <= |avail|
    ensures DistinctParities(PlanOf(g, missing, avail).operations)
    ensures DistinctOutputs(PlanOf(g, missing, avail).operations)
  {
    RecoverablePlanPeels(g, missing, avail);
    PeelingShape(g, avail, missing, PlanOf(g, missing, avail).operations);
  }

  /** More erasures than surviving parities is always reported unrecoverable. */
  lemma TooManyErasures(g: BipartiteGraph, missing: set<ShardId>, avail: set<ShardId>)
    requires ValidRequest(g, missing, avail)
    requires |missing| > |avail|
    ensures PlanOf(g, missing, avail) == Unrecoverable
  {
    if PlanOf(g, missing, avail).isRecoverable {
      RecoverablePlanSize(g, missing, avail);
    }
  }

  /** Recoverability survives fewer erasures and more surviving parity. */
  lemma RecoverabilityIsMonotone(g: BipartiteGraph, missing: set<ShardId>, avail: set<ShardId>,
                                 fewer: set<ShardId>, more: set<ShardId>)
    requires ValidRequest(g, missing, avail) && ValidRequest(g, fewer, more)
    requires fewer <= missing && avail <= more
    requires PlanOf(g, missing, avail).isRecoverable
    ensures PlanOf(g, fewer, more).isRecoverable
  {
    PlannerLeavesCore(g, missing, avail);
    PlannerLeavesCore(g, fewer, more);
    CoreIsMonotone(g, missing, avail, fewer, more);
  }

  /**
   * Equation order does not matter: if any sequence of peel steps, in any order, recovers everything, so does the
   * planner; and if some order gets stuck early, so does the planner, with the same residue.
   */
  lemma EquationOrderIsIrrelevant(g: BipartiteGraph, missing: set<ShardId>, avail: set<ShardId>,
                                  operations: seq<XorOperation>)
    requires ValidRequest(g, missing, avail)
    requires Peels(g, avail, missing, operations)
    requires Stuck(g, avail, missing - Outputs(operations))
    ensures Peel(g, avail, PeelState(missing, [], [])).remaining == missing - Outputs(operations)
    ensures PlanOf(g, missing, avail).isRecoverable <==> Outputs(operations) == missing
  {
    MaximalPeelingLeavesCore(g, avail, missing, operations);
    PlannerLeavesCore(g, missing, avail);
    PeelingShape(g, avail, missing, operations);
  }
}
