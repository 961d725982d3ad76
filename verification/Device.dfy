/** Prepared decode contexts: device memory, repeated launches and downloads. */
module Device {
  import opened Shards
  import opened Graphs
  import opened Peeling
  import opened Codec
  import opened Admission
  import DependencyOrder
  import Kernel

  /** Launch tuning reported by the occupancy query. */
  datatype Tuning = Tuning(threadsPerBlock: nat, maxGridBlocks: nat)

  predicate ValidTuning(t: Tuning) {
    t.threadsPerBlock >= 3
  }

  /**
   * Device memory while a plan is launched: every required buffer is allocated at its final size, uploaded shards hold
   * their data, and the outputs of the first i operations hold their final value. Other outputs hold anything.
   */
  predicate MemoryAt(operations: seq<XorOperation>, i: nat, slots: Slots, memory: Slots)
    requires i <= |operations| && Run(operations, slots).Some?
  {
    var final := Run(operations, slots).value;
    && |memory| == |slots|
    && (forall x | x in Required(operations) ::
          x < |slots| && final[x].Some? && memory[x].Some? && |memory[x].value| == |final[x].value|)
    && (forall x | x in Required(operations) && slots[x].Some? :: memory[x] == slots[x])
    && forall j | 0 <= j < i ::
         operations[j].output < |slots| && memory[operations[j].output] == final[operations[j].output]
  }

  lemma OutputWasAbsent(operations: seq<XorOperation>, i: nat, slots: Slots)
    requires i < |operations| && Run(operations, slots).Some?
    ensures operations[i].output < |slots| && slots[operations[i].output].None?
  {
    DependencyOrder.RunSettles(operations, slots);
    assert operations[i].output in Outputs(operations);
  }

  /** Storing the next output's final value is what remains to be done. */
  lemma NextOutput(operations: seq<XorOperation>, i: nat, slots: Slots, memory: Slots)
    requires i < |operations| && Run(operations, slots).Some? && MemoryAt(operations, i, slots, memory)
    ensures var x, final := operations[i].output, Run(operations, slots).value;
      && x < |memory| && memory[x].Some? && final[x].Some? && |memory[x].value| == |final[x].value|
      && MemoryAt(operations, i + 1, slots, memory[x := final[x]])
  {
    OutputWasAbsent(operations, i, slots);
    RequiredElements(operations, i);
  }

  /** The next operation reads only final values, so it computes a final value, whatever its own buffer holds. */
  lemma LaunchStep(operations: seq<XorOperation>, i: nat, slots: Slots, memory: Slots)
    requires i < |operations| && Run(operations, slots).Some? && MemoryAt(operations, i, slots, memory)
    requires var op, final := operations[i], Run(operations, slots).value;
      && op.output < |memory| && memory[op.output].Some? && final[op.output].Some?
      && |memory[op.output].value| == |final[op.output].value|
    ensures var op, final := operations[i], Run(operations, slots).value;
      && Readable(op.sources, memory, |memory[op.output].value|)
      && XorShards(op.sources, memory, |memory[op.output].value|) == final[op.output].value
  {
    var op, final := operations[i], Run(operations, slots).value;
    DependencyOrder.RunSettles(operations, slots);
    RequiredElements(operations, i);
    assert DependencyOrder.Settled(op, final) && DependencyOrder.SourcesReady(op, slots, Outputs(operations[..i]));
    forall s | 0 <= s < |op.sources| ensures op.sources[s] < |memory| && memory[op.sources[s]] == final[op.sources[s]] {
      SourceIsFinal(operations, i, op.sources[s], slots, memory);
    }
    XorShardsAgrees(op.sources, final, memory, |final[op.sources[0]].value|);
  }

  lemma SourceIsFinal(operations: seq<XorOperation>, i: nat, x: ShardId, slots: Slots, memory: Slots)
    requires i < |operations| && Run(operations, slots).Some? && MemoryAt(operations, i, slots, memory)
    requires x in Required(operations) && (slots[x].Some? || x in Outputs(operations[..i]))
    ensures memory[x] == Run(operations, slots).value[x]
  {
    DependencyOrder.RunSettles(operations, slots);
    if slots[x].Some? {
      assert x !in Outputs(operations);
    } else {
      var j :| 0 <= j < i && operations[..i][j].output == x;
      assert operations[j].output == x;
    }
  }

  /** One pass over all operations, kernels in plan order on one stream. */
  method LaunchAll(operations: seq<XorOperation>, offsets: seq<nat>, sources: seq<ShardId>, start: Slots,
                   tuning: Tuning, ghost slots: Slots)
    returns (memory: Slots)
    requires ValidTuning(tuning)
    requires Run(operations, slots).Some? && MemoryAt(operations, 0, slots, start)
    requires offsets == Offsets(operations) && sources == Flatten(operations)
    ensures MemoryAt(operations, |operations|, slots, memory)
    ensures forall x | 0 <= x < |start| && x !in Outputs(operations) :: memory[x] == start[x]
  {
    memory := start;
    for i := 0 to |operations|
      invariant MemoryAt(operations, i, slots, memory)
      invariant forall x | 0 <= x < |start| && x !in Outputs(operations) :: memory[x] == start[x]
    {
      var op := operations[i];
      NextOutput(operations, i, slots, memory);
      LaunchStep(operations, i, slots, memory);
      FlattenedSources(operations, i);
      var held := memory[op.output].value;
      var buffer := new Word[|held|](w requires 0 <= w < |held| => held[w]);
      Kernel.LaunchXorOperation(|op.sources|, sources, offsets[i], memory, buffer,
                                tuning.threadsPerBlock, tuning.maxGridBlocks);
      memory := memory[op.output := Some(buffer[..])];
    }
  }

  /** Buffers for everything required: uploads where the host has the shard, uninitialised memory elsewhere. */
  method Allocate(required: set<ShardId>, counts: Counts, shards: Slots) returns (memory: Slots)
    requires |counts| == |shards|
    requires forall x | x in required :: x < |counts| && counts[x].Some?
    ensures |memory| == |shards|
    ensures forall x | x in required && shards[x].Some? :: memory[x] == shards[x]
    ensures forall x | x in required && shards[x].None? :: memory[x].Some? && |memory[x].value| == counts[x].value
    ensures forall x | 0 <= x < |memory| && x !in required :: memory[x].None?
  {
    memory := seq(|shards|, _ => None);
    for x := 0 to |shards|
      invariant |memory| == |shards|
      invariant forall y | y in required && y < x && shards[y].Some? :: memory[y] == shards[y]
      invariant forall y | y in required && y < x && shards[y].None? ::
        memory[y].Some? && |memory[y].value| == counts[y].value
      invariant forall y | 0 <= y < |memory| && (y !in required || y >= x) :: memory[y].None?
    {
      if x in required {
        if shards[x].Some? {
          memory := memory[x := shards[x]];
        } else {
          var uninitialised := new Word[counts[x].value];
          memory := memory[x := Some(uninitialised[..])];
        }
      }
    }
  }

  /** Fresh buffers satisfy the launch precondition. */
  lemma AllocatedMemory(operations: seq<XorOperation>, slots: Slots, memory: Slots)
    requires NoEmptyShard(slots) && Run(operations, slots).Some? && |memory| == |slots|
    requires forall x | x in Required(operations) :: x < |slots| && memory[x].Some?
    requires forall x | x in Required(operations) && slots[x].Some? :: memory[x] == slots[x]
    requires forall x | x in Required(operations) && slots[x].None? ::
      Some(|memory[x].value|) == CountsOf(Run(operations, slots).value)[x]
    ensures MemoryAt(operations, 0, slots, memory)
  {
    AdmitsWhatRuns(operations, slots);
    RequiredCounts(operations, CountsOf(slots));
    DependencyOrder.RunSettles(operations, slots);
    var final := Run(operations, slots).value;
    forall x | x in Required(operations)
      ensures final[x].Some? && |memory[x].value| == |final[x].value|
    {
      assert CountsOf(final)[x].Some?;
      assert slots[x].Some? ==> x !in Outputs(operations);
    }
  }

  /** Device memory ready for the first launch of an accepted plan. */
  method AllocateFor(operations: seq<XorOperation>, required: set<ShardId>, counts: Counts, shards: Slots)
    returns (memory: Slots)
    requires NoEmptyShard(shards) && Run(operations, shards).Some?
    requires required == Required(operations) && counts == CountsOf(Run(operations, shards).value)
    ensures MemoryAt(operations, 0, shards, memory)
  {
    AdmitsWhatRuns(operations, shards);
    RequiredCounts(operations, CountsOf(shards));
    memory := Allocate(required, counts, shards);
    AllocatedMemory(operations, shards, memory);
  }

  /** Copy the outputs back, one destination slot per operation. */
  method Download(operations: seq<XorOperation>, memory: Slots, shards: array<Option<Shard>>)
    requires forall i | 0 <= i < |operations| :: operations[i].output < |memory|
    requires shards.Length == |memory|
    modifies shards
    ensures shards[..] == DependencyOrder.Overlay(old(shards[..]), memory, Outputs(operations))
  {
    for i := 0 to |operations|
      invariant shards[..] == DependencyOrder.Overlay(old(shards[..]), memory, Outputs(operations[..i]))
    {
      assert operations[..i + 1] == operations[..i] + [operations[i]];
      OutputsSnoc(operations[..i], operations[i]);
      shards[operations[i].output] := memory[operations[i].output];
    }
    assert operations[..|operations|] == operations;
  }

  /** Overlaying computed outputs on the slots the plan started from gives the CPU executor's result. */
  lemma DownloadedIsRun(operations: seq<XorOperation>, slots: Slots, memory: Slots)
    requires Run(operations, slots).Some? && MemoryAt(operations, |operations|, slots, memory)
    ensures DependencyOrder.Overlay(slots, memory, Outputs(operations)) == Run(operations, slots).value
  {
    DependencyOrder.RunSettles(operations, slots);
  }

  /** A plan with its device buffers, prepared once and launched any number of times. */
  class DeviceDecodeContext {
    var plan: DecodePlan
    var wordCounts: Counts
    var sourceOffsets: seq<nat>
    var sourceIds: seq<ShardId>
    var deviceShards: Slots
    ghost var hostShards: Slots

    ghost predicate Valid()
      reads this
    {
      && ValidShape(plan) && NoEmptyShard(hostShards) && Run(plan.operations, hostShards).Some?
      && wordCounts == CountsOf(Run(plan.operations, hostShards).value)
      && sourceOffsets == Offsets(plan.operations) && sourceIds == Flatten(plan.operations)
      && MemoryAt(plan.operations, 0, hostShards, deviceShards)
    }

    /** At least one launch has completed. */
    ghost predicate Launched()
      reads this
    {
      Valid() && MemoryAt(plan.operations, |plan.operations|, hostShards, deviceShards)
    }

    constructor (plan: DecodePlan, wordCounts: Counts, offsets: seq<nat>, sources: seq<ShardId>, memory: Slots,
                 ghost shards: Slots)
      requires ValidShape(plan) && NoEmptyShard(shards) && Run(plan.operations, shards).Some?
      requires wordCounts == CountsOf(Run(plan.operations, shards).value)
      requires offsets == Offsets(plan.operations) && sources == Flatten(plan.operations)
      requires MemoryAt(plan.operations, 0, shards, memory)
      ensures Valid() && this.plan == plan && hostShards == shards
    {
      this.plan, this.wordCounts, this.sourceOffsets, this.sourceIds := plan, wordCounts, offsets, sources;
      this.deviceShards, this.hostShards := memory, shards;
    }

    /** From the first launch on, every launch leaves the same outputs. */
    method Launch(tuning: Tuning)
      requires Valid() && ValidTuning(tuning)
      modifies this`deviceShards
      ensures Launched()
    {
      deviceShards := LaunchAll(plan.operations, sourceOffsets, sourceIds, deviceShards, tuning, hostShards);
    }

    /**
     * Writes the output buffers into destination slots of the prepared size, keeping all others. After a launch the
     * buffers hold the CPU executor's outputs; before one, whatever the device memory held.
     */
    method DownloadResults(shards: array<Option<Shard>>) returns (ok: bool)
      requires Valid()
      modifies shards
      ensures ok <==> shards.Length == |hostShards|
      ensures !ok ==> shards[..] == old(shards[..])
      ensures ok ==> |deviceShards| == shards.Length
                     && shards[..] == DependencyOrder.Overlay(old(shards[..]), deviceShards, Outputs(plan.operations))
      ensures ok && Launched() ==>
        var final := Run(plan.operations, hostShards).value;
        shards[..] == DependencyOrder.Overlay(old(shards[..]), final, Outputs(plan.operations))
    {
      if shards.Length != |wordCounts| { return false; }
      forall i | 0 <= i < |plan.operations| ensures plan.operations[i].output < |deviceShards| {
        RequiredElements(plan.operations, i);
      }
      Download(plan.operations, deviceShards, shards);
      return true;
    }
  }

  /** Validate, allocate, upload. */
  method PrepareDecodePlan(plan: DecodePlan, shards: Slots) returns (context: DeviceDecodeContext?)
    ensures context != null <==> ValidShape(plan) && NoEmptyShard(shards) && Run(plan.operations, shards).Some?
    ensures context != null ==> && fresh(context) && context.Valid()
                                && context.plan == plan && context.hostShards == shards
  {
    var shaped := ValidatePlanShape(plan);
    if !shaped { return null; }
    if exists i | 0 <= i < |shards| :: shards[i].Some? && shards[i].value == [] { return null; }
    var counts, offsets, sources, required := CheckOperations(plan.operations, CountsOf(shards));
    AdmitsWhatRuns(plan.operations, shards);
    if counts.None? { return null; }
    var memory := AllocateFor(plan.operations, required, counts.value, shards);
    context := new DeviceDecodeContext(plan, counts.value, offsets, sources, memory, shards);
  }

  /**
   * The one-shot device executor. It agrees with the CPU executor on acceptance and result, except that a non-empty
   * plan is refused when some present shard is empty, and that a refused plan leaves the slots untouched.
   */
  method RunDecodePlan(plan: DecodePlan, shards: array<Option<Shard>>, tuning: Tuning) returns (ok: bool)
    requires ValidTuning(tuning)
    modifies shards
    ensures ok <==> && ValidShape(plan) && Run(plan.operations, old(shards[..])).Some?
                    && (plan.operations == [] || NoEmptyShard(old(shards[..])))
    ensures ok ==> Some(shards[..]) == Run(plan.operations, old(shards[..]))
    ensures !ok ==> shards[..] == old(shards[..])
  {
    var shaped := ValidatePlanShape(plan);
    if !shaped { return false; }
    if plan.operations == [] { return true; }
    ghost var slots := shards[..];
    var context := PrepareDecodePlan(plan, shards[..]);
    if context == null { return false; }
    context.Launch(tuning);
    DownloadedIsRun(plan.operations, slots, context.deviceShards);
    Download(plan.operations, context.deviceShards, shards);
    return true;
  }
}
