/** The CPU codec: what running a plan means, and the word loops that do it in place. */
module Codec {
  import opened Shards
  import opened Graphs
  import opened BitParity

  // ---------- meaning of a plan ----------

  /**
   * The executor accepts an operation when its output slot is free and its sources are filled, equal-sized, non-empty.
   */
  predicate CanRun(op: XorOperation, slots: Slots) {
    && op.output < |slots| && op.sources != [] && slots[op.output].None?
    && op.sources[0] < |slots| && slots[op.sources[0]].Some?
    && |slots[op.sources[0]].value| > 0
    && Readable(op.sources, slots, |slots[op.sources[0]].value|)
  }

  function Reconstruct(op: XorOperation, slots: Slots): Shard
    requires op.sources != [] && op.sources[0] < |slots| && slots[op.sources[0]].Some?
    requires Readable(op.sources, slots, |slots[op.sources[0]].value|)
  {
    XorShards(op.sources, slots, |slots[op.sources[0]].value|)
  }

  function RunOp(op: XorOperation, slots: Slots): Slots
    requires CanRun(op, slots)
  {
    slots[op.output := Some(Reconstruct(op, slots))]
  }

  /** The slots after running the operations in order, or None when one of them is refused. */
  function Run(operations: seq<XorOperation>, slots: Slots): (r: Option<Slots>)
    ensures r.Some? ==> |r.value| == |slots|
  {
    if operations == [] then Some(slots)
    else
      var before := Run(operations[..|operations| - 1], slots);
      var op := operations[|operations| - 1];
      if before.Some? && CanRun(op, before.value) then Some(RunOp(op, before.value)) else None
  }

  lemma RunSnoc(operations: seq<XorOperation>, op: XorOperation, slots: Slots)
    ensures Run(operations + [op], slots) ==
      var before := Run(operations, slots);
      if before.Some? && CanRun(op, before.value) then Some(RunOp(op, before.value)) else None
  {
    var all := operations + [op];
    assert all[..|all| - 1] == operations && all[|all| - 1] == op;
  }

  /** A refused operation refuses every longer plan. */
  lemma {:induction false} RunPrefix(operations: seq<XorOperation>, n: nat, slots: Slots)
    requires n <= |operations|
    ensures Run(operations, slots).Some? ==> Run(operations[..n], slots).Some?
  {
    if n < |operations| {
      RunPrefix(operations[..|operations| - 1], n, slots);
      assert operations[..|operations| - 1][..n] == operations[..n];
    } else {
      assert operations[..n] == operations;
    }
  }

  // ---------- codewords ----------

  function Present(data: seq<Shard>): Slots {
    seq(|data|, i requires 0 <= i < |data| => Some(data[i]))
  }

  predicate Uniform(data: seq<Shard>, n: nat) {
    n > 0 && forall i | 0 <= i < |data| :: |data[i]| == n
  }

  /** The shard that belongs at an id: the data itself, or the XOR of the data its equation names. */
  function CodewordShard(g: BipartiteGraph, data: seq<Shard>, n: nat, id: ShardId): (r: Shard)
    requires ValidGraph(g) && |data| == g.k && Uniform(data, n) && id < g.k + g.m
    ensures |r| == n
  {
    if id < g.k then data[id] else XorShards(g.equations[id], Present(data), n)
  }

  /** A systematic code graph lists the same equations as the planner's map. */
  predicate SameCode(g: BipartiteGraph, code: CodeGraph) {
    && g.k == code.k && g.m == code.m
    && forall i | 0 <= i < |code.equations| ::
         code.equations[i].output in g.equations && g.equations[code.equations[i].output] == code.equations[i].sources
  }

  // ---------- the loops ----------

  /** The innermost word loop shared by encoder and executor. */
  method AccumulateXor(acc: array<Word>, input: Shard)
    requires acc.Length == |input|
    modifies acc
    ensures forall w | 0 <= w < acc.Length :: acc[w] == old(acc[w]) ^ input[w]
  {
    for word := 0 to acc.Length
      invariant forall w | 0 <= w < word :: acc[w] == old(acc[w]) ^ input[w]
      invariant forall w | word <= w < acc.Length :: acc[w] == old(acc[w])
    {
      acc[word] := acc[word] ^ input[word];
    }
  }

  /** XOR the listed slots into a zeroed buffer, refusing at the first source that is missing or of another size. */
  method XorSources(sources: seq<ShardId>, slots: Slots, n: nat) returns (r: Option<Shard>)
    ensures r == if Readable(sources, slots, n) then Some(XorShards(sources, slots, n)) else None
  {
    var output := new Word[n](_ => 0);
    for i := 0 to |sources|
      invariant Readable(sources[..i], slots, n)
      invariant forall w: nat | w < n :: output[w] == XorAt(sources[..i], slots, n, w)
    {
      var source := sources[i];
      assert sources[i] == source;
      if source >= |slots| || slots[source].None? || |slots[source].value| != n { return None; }
      AccumulateXor(output, slots[source].value);
      assert sources[..i + 1] == sources[..i] + [source];
      forall w: nat | w < n ensures output[w] == XorAt(sources[..i + 1], slots, n, w) {
        XorAtSnoc(sources[..i + 1], sources[..i], source, slots, n, w);
      }
    }
    assert sources[..|sources|] == sources;
    assert output[..] == XorShards(sources, slots, n);
    return Some(output[..]);
  }

  method WordCount(shards: seq<Shard>) returns (n: nat)
    ensures n > 0 <==> shards != [] && Uniform(shards, |shards[0]|)
    ensures n > 0 ==> n == |shards[0]|
  {
    if shards == [] || shards[0] == [] { return 0; }
    n := |shards[0]|;
    for i := 0 to |shards|
      invariant forall j | 0 <= j < i :: |shards[j]| == n
    {
      if |shards[i]| != n { return 0; }
    }
  }

  /** One parity shard per equation, ordered by parity id; parity-of-parity graphs are refused. */
  method EncodeParity(code: CodeGraph, data: seq<Shard>) returns (r: Option<seq<Shard>>)
    requires ValidCodeGraph(code)
    ensures r.Some? <==>
      && |data| == code.k && Uniform(data, |data[0]|)
      && forall i, j | 0 <= i < code.m && 0 <= j < |code.equations[i].sources| :: code.equations[i].sources[j] < code.k
    ensures r.Some? ==>
      && |r.value| == code.m
      && forall i | 0 <= i < code.m ::
           Readable(code.equations[i].sources, Present(data), |data[0]|) &&
           r.value[code.equations[i].output - code.k] == XorShards(code.equations[i].sources, Present(data), |data[0]|)
    ensures r.Some? ==> forall i | 0 <= i < code.m ::
      IsXorOf(r.value[code.equations[i].output - code.k], code.equations[i].sources, Present(data), |data[0]|)
  {
    if |data| != code.k { return None; }
    var n := WordCount(data);
    if n == 0 { return None; }
    var parity := seq(code.m, _ => seq(n, _ => 0 as Word));
    for e := 0 to |code.equations|
      invariant |parity| == code.m
      invariant forall i | 0 <= i < e :: Readable(code.equations[i].sources, Present(data), n)
      invariant forall i | 0 <= i < e ::
        parity[code.equations[i].output - code.k] == XorShards(code.equations[i].sources, Present(data), n)
    {
      var shard := XorSources(code.equations[e].sources, Present(data), n);
      if shard.None? { return None; }
      parity := parity[code.equations[e].output - code.k := shard.value];
    }
    forall i | 0 <= i < code.m
      ensures IsXorOf(parity[code.equations[i].output - code.k], code.equations[i].sources, Present(data), n)
    {
      XorShardsIsXor(code.equations[i].sources, Present(data), n);
    }
    return Some(parity);
  }

  /** Encoding yields, for every parity id, the codeword shard of the planner's equation with that id. */
  lemma EncodingIsCodeword(g: BipartiteGraph, code: CodeGraph, data: seq<Shard>, parity: seq<Shard>, id: ShardId)
    requires ValidGraph(g) && ValidCodeGraph(code) && SameCode(g, code)
    requires |data| == g.k && Uniform(data, |data[0]|) && |parity| == g.m
    requires forall i | 0 <= i < code.m ::
      && Readable(code.equations[i].sources, Present(data), |data[0]|)
      && parity[code.equations[i].output - code.k] == XorShards(code.equations[i].sources, Present(data), |data[0]|)
    requires g.k <= id < g.k + g.m
    ensures parity[id - g.k] == CodewordShard(g, data, |data[0]|, id)
  {
    var i := EveryParityHasAnEquation(code, id);
  }

  /**
   * Runs a plan over the slots in place. A plan that is refused part way leaves the slots as the accepted
   * operations before it made them.
   */
  method ExecuteDecodePlan(plan: DecodePlan, shards: array<Option<Shard>>) returns (accepted: bool)
    modifies shards
    ensures accepted <==> ValidShape(plan) && Run(plan.operations, old(shards[..])).Some?
    ensures accepted ==> Some(shards[..]) == Run(plan.operations, old(shards[..]))
    ensures !accepted && !ValidShape(plan) ==> shards[..] == old(shards[..])
    ensures !accepted && ValidShape(plan) ==>
      exists i | 0 <= i < |plan.operations| ::
        Some(shards[..]) == Run(plan.operations[..i], old(shards[..])) && !CanRun(plan.operations[i], shards[..])
  {
    var shaped := ValidatePlanShape(plan);
    if !shaped { return false; }
    ghost var start := shards[..];
    for i := 0 to |plan.operations|
      invariant Some(shards[..]) == Run(plan.operations[..i], start)
    {
      var op := plan.operations[i];
      var output: Option<Shard> := None;
      if op.output < shards.Length && op.sources != [] && shards[op.output].None? {
        var first := op.sources[0];
        if first < shards.Length && shards[first].Some? && |shards[first].value| > 0 {
          output := XorSources(op.sources, shards[..], |shards[first].value|);
        }
      }
      assert plan.operations[..i + 1] == plan.operations[..i] + [op];
      RunSnoc(plan.operations[..i], op, start);
      RunPrefix(plan.operations, i + 1, start);
      if output.None? {
        return false;
      }
      assert RunOp(op, shards[..]) == shards[..][op.output := output];
      shards[op.output] := output;
    }
    assert plan.operations[..|plan.operations|] == plan.operations;
    return true;
  }
}
