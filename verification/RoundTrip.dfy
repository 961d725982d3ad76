/** Bit-exact recovery: peeling the erased shards of a codeword and running the plan restores the data. */
module RoundTrip {
  import opened Shards
  import opened Graphs
  import opened Peeling
  import opened Codec
  import Planner

  /** Every filled slot holds the codeword shard of its id. */
  predicate HoldsCodeword(g: BipartiteGraph, data: seq<Shard>, n: nat, slots: Slots)
    requires ValidGraph(g) && |data| == g.k && Uniform(data, n)
  {
    && |slots| == g.k + g.m
    && forall id | 0 <= id < |slots| && slots[id].Some? :: slots[id].value == CodewordShard(g, data, n, id)
  }

  function MissingSystematic(k: nat, slots: Slots): (r: set<ShardId>)
    requires k <= |slots|
    ensures forall id: nat :: id in r <==> id < k && slots[id].None?
    ensures r <= Range(0, k)
  {
    set id | id in Range(0, k) && slots[id].None?
  }

  predicate AllPresent(ids: set<ShardId>, slots: Slots) {
    forall id | id in ids :: id < |slots| && slots[id].Some?
  }

  /** The slots with the listed ids filled with the original data. */
  function Restored(data: seq<Shard>, ids: set<ShardId>, slots: Slots): Slots
    requires ids <= Range(0, |data|)
  {
    seq(|slots|, i requires 0 <= i < |slots| => if i in ids then Some(data[i]) else slots[i])
  }

  /** XOR of an equation's neighbors and all of them but one differ by exactly that one. */
  lemma SolvesForOne(neighbors: seq<ShardId>, x: ShardId, data: seq<Shard>, n: nat, w: nat)
    requires Uniform(data, n) && w < n && NeighborsOk(neighbors, |data|) && x in neighbors
    ensures Readable(neighbors, Present(data), n) && Readable(Without(neighbors, x), Present(data), n)
    ensures x < |data| && w < |data[x]|
    ensures XorAt(neighbors, Present(data), n, w) ^ XorAt(Without(neighbors, x), Present(data), n, w) == data[x][w]
  {
    XorAtWithout(neighbors, x, Present(data), n, w);
    var rest := XorAt(Without(neighbors, x), Present(data), n, w);
    var i :| 0 <= i < |neighbors| && neighbors[i] == x;
    XorSwap(rest, data[x][w], rest);
    XorSelf(rest, data[x][w]);
  }

  lemma XorSelf(a: Word, b: Word)
    ensures (a ^ a) ^ b == b
  {}

  /** One peel step on slots that agree with the codeword yields the missing shard. */
  lemma PeelStepRestores(g: BipartiteGraph, parity: ShardId, x: ShardId, data: seq<Shard>, n: nat, slots: Slots)
    requires ValidGraph(g) && |data| == g.k && Uniform(data, n) && HoldsCodeword(g, data, n, slots)
    requires g.k <= parity < g.k + g.m && slots[parity].Some?
    requires x in g.equations[parity] && slots[x].None?
    requires forall y | y in g.equations[parity] && y != x :: slots[y].Some?
    ensures var op := PeelOperation(parity, g.equations[parity], x);
      CanRun(op, slots) && Reconstruct(op, slots) == data[x]
  {
    var neighbors := g.equations[parity];
    var rest := Without(neighbors, x);
    var op := PeelOperation(parity, neighbors, x);
    WithoutElements(neighbors, x);
    forall i | 0 <= i < |rest|
      ensures rest[i] < g.k && slots[rest[i]] == Present(data)[rest[i]]
    {
      assert rest[i] in rest;
    }
    assert Readable(rest, Present(data), n);
    assert Readable(op.sources, slots, n);
    forall w: nat | w < n ensures XorAt(op.sources, slots, n, w) == data[x][w] {
      XorAtCons(op.sources, parity, rest, slots, n, w);
      XorAtAgrees(rest, Present(data), slots, n, w);
      SolvesForOne(neighbors, x, data, n, w);
    }
  }

  lemma RestoreStep(g: BipartiteGraph, avail: set<ShardId>, missing: set<ShardId>, done: set<ShardId>,
                    op: XorOperation, data: seq<Shard>, n: nat, slots: Slots)
    requires ValidGraph(g) && |data| == g.k && Uniform(data, n) && HoldsCodeword(g, data, n, slots)
    requires missing == MissingSystematic(g.k, slots) && done <= missing
    requires avail <= Range(g.k, g.k + g.m) && AllPresent(avail, slots)
    requires IsPeelStep(g, avail, missing - done, op)
    ensures op.output in missing
    ensures CanRun(op, Restored(data, done, slots))
    ensures RunOp(op, Restored(data, done, slots)) == Restored(data, done + {op.output}, slots)
  {
    var now := Restored(data, done, slots);
    var neighbors := g.equations[op.sources[0]];
    forall y | y in neighbors && y != op.output ensures now[y].Some? {
      assert y !in missing - done;
    }
    PeelStepRestores(g, op.sources[0], op.output, data, n, now);
  }

  /** Running any peeling sequence is never refused, and fills exactly its outputs with the original data. */
  lemma PeelingRestores(g: BipartiteGraph, avail: set<ShardId>, missing: set<ShardId>,
                        operations: seq<XorOperation>, data: seq<Shard>, n: nat, slots: Slots)
    requires ValidGraph(g) && |data| == g.k && Uniform(data, n) && HoldsCodeword(g, data, n, slots)
    requires missing == MissingSystematic(g.k, slots)
    requires avail <= Range(g.k, g.k + g.m) && AllPresent(avail, slots)
    requires Peels(g, avail, missing, operations)
    ensures Outputs(operations) <= missing
    ensures Run(operations, slots) == Some(Restored(data, Outputs(operations), slots))
  {
    assert Outputs([]) == {} && Restored(data, {}, slots) == slots;
    var p := (ops: seq<XorOperation>) =>
      Outputs(ops) <= missing && Run(ops, slots) == Some(Restored(data, Outputs(ops), slots));
    forall front, op | p(front) && IsPeelStep(g, avail, missing - Outputs(front), op) ensures p(front + [op]) {
      RestoreStep(g, avail, missing, Outputs(front), op, data, n, slots);
      OutputsSnoc(front, op);
      RunSnoc(front, op, slots);
    }
    PeelsInduction(g, avail, missing, operations, p);
  }

  lemma PeelingRestoresAll(g: BipartiteGraph, avail: set<ShardId>, operations: seq<XorOperation>, data: seq<Shard>,
                           n: nat, slots: Slots)
    requires ValidGraph(g) && |data| == g.k && Uniform(data, n) && HoldsCodeword(g, data, n, slots)
    requires avail <= Range(g.k, g.k + g.m) && AllPresent(avail, slots)
    requires Peels(g, avail, MissingSystematic(g.k, slots), operations)
    requires Outputs(operations) == MissingSystematic(g.k, slots)
    ensures Run(operations, slots).Some?
    ensures forall id | 0 <= id < g.k :: Run(operations, slots).value[id] == Some(data[id])
    ensures forall id | g.k <= id < g.k + g.m :: Run(operations, slots).value[id] == slots[id]
  {
    PeelingRestores(g, avail, Outputs(operations), operations, data, n, slots);
  }

  /**
   * End to end: whatever is erased and whichever parities survive, a plan reported recoverable is accepted by the
   * executor and leaves every systematic slot bit-equal to the original and every other slot as it was.
   */
  lemma ErasureRoundTrip(g: BipartiteGraph, avail: set<ShardId>, data: seq<Shard>, n: nat, slots: Slots)
    requires ValidGraph(g) && |data| == g.k && Uniform(data, n) && HoldsCodeword(g, data, n, slots)
    requires avail <= Range(g.k, g.k + g.m) && AllPresent(avail, slots)
    requires PlanOf(g, MissingSystematic(g.k, slots), avail).isRecoverable
    ensures var plan := PlanOf(g, MissingSystematic(g.k, slots), avail);
      && Run(plan.operations, slots).Some?
      && (forall id | 0 <= id < g.k :: Run(plan.operations, slots).value[id] == Some(data[id]))
      && (forall id | g.k <= id < g.k + g.m :: Run(plan.operations, slots).value[id] == slots[id])
  {
    var missing := MissingSystematic(g.k, slots);
    RecoverablePlanPeels(g, missing, avail);
    PeelingRestoresAll(g, avail, PlanOf(g, missing, avail).operations, data, n, slots);
  }

  /** A full set of shards with the missing data and the lost parities taken out. */
  function Erased(data: seq<Shard>, parity: seq<Shard>, missing: set<ShardId>, avail: set<ShardId>): Slots {
    seq(|data| + |parity|, i requires 0 <= i < |data| + |parity| =>
      if i < |data| then (if i in missing then None else Some(data[i]))
      else if i in avail then Some(parity[i - |data|]) else None)
  }

  lemma ErasedHoldsCodeword(g: BipartiteGraph, data: seq<Shard>, n: nat, parity: seq<Shard>,
                            missing: set<ShardId>, avail: set<ShardId>)
    requires ValidRequest(g, missing, avail)
    requires |data| == g.k && Uniform(data, n) && |parity| == g.m
    requires forall id | g.k <= id < g.k + g.m :: parity[id - g.k] == CodewordShard(g, data, n, id)
    ensures HoldsCodeword(g, data, n, Erased(data, parity, missing, avail))
    ensures MissingSystematic(g.k, Erased(data, parity, missing, avail)) == missing
    ensures AllPresent(avail, Erased(data, parity, missing, avail))
  {
    var slots := Erased(data, parity, missing, avail);
    forall id | 0 <= id < |slots| && slots[id].Some? ensures slots[id].value == CodewordShard(g, data, n, id) {
      if id >= g.k {
        assert slots[id].value == parity[id - g.k];
      }
    }
  }

  method EncodeAll(g: BipartiteGraph, code: CodeGraph, data: seq<Shard>) returns (parity: seq<Shard>)
    requires ValidGraph(g) && ValidCodeGraph(code) && SameCode(g, code)
    requires |data| == g.k && Uniform(data, |data[0]|)
    ensures |parity| == g.m
    ensures forall id | g.k <= id < g.k + g.m :: parity[id - g.k] == CodewordShard(g, data, |data[0]|, id)
  {
    forall i, j | 0 <= i < code.m && 0 <= j < |code.equations[i].sources|
      ensures code.equations[i].sources[j] < code.k
    {
      assert NeighborsOk(g.equations[code.equations[i].output], g.k);
    }
    var r := EncodeParity(code, data);
    parity := r.value;
    forall id | g.k <= id < g.k + g.m ensures parity[id - g.k] == CodewordShard(g, data, |data[0]|, id) {
      EncodingIsCodeword(g, code, data, parity, id);
    }
  }

  /** The executor on shard buffers of its own. */
  method RunPlan(plan: DecodePlan, slots: Slots) returns (r: Option<Slots>)
    requires ValidShape(plan)
    ensures r == Run(plan.operations, slots)
  {
    var shards := new Option<Shard>[|slots|](i requires 0 <= i < |slots| => slots[i]);
    assert shards[..] == slots;
    var accepted := ExecuteDecodePlan(plan, shards);
    r := if accepted then Some(shards[..]) else None;
  }

  /** Encode, erase, plan, execute: recovery succeeds exactly when the erased shards contain no stopping set. */
  method RecoverErased(g: BipartiteGraph, code: CodeGraph, data: seq<Shard>, missing: set<ShardId>, avail: set<ShardId>)
    returns (r: Option<Slots>)
    requires ValidCodeGraph(code) && SameCode(g, code)
    requires ValidRequest(g, missing, avail)
    requires |data| == g.k && Uniform(data, |data[0]|)
    ensures r.Some? <==> forall s | IsStoppingSubset(g, avail, missing, s) :: s == {}
    ensures r.Some? ==> |r.value| == g.k + g.m && forall id | 0 <= id < g.k :: r.value[id] == Some(data[id])
  {
    var parity := EncodeAll(g, code, data);
    var slots := Erased(data, parity, missing, avail);
    ErasedHoldsCodeword(g, data, |data[0]|, parity, missing, avail);

    PlannerIsExact(g, missing, avail);
    var plan := Planner.CreatePlan(g, missing, avail);
    if !plan.value.isRecoverable { return None; }

    RecoverablePlanShape(g, missing, avail);
    ErasureRoundTrip(g, avail, data, |data[0]|, slots);
    r := RunPlan(plan.value, slots);
  }
}
