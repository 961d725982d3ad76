/** The staging context: shards are uploaded one by one as they arrive; one successful run closes the context. */
module Staging {
  import opened Shards
  import opened Graphs
  import opened Peeling
  import opened Codec
  import opened Admission
  import opened Device
  import DependencyOrder

  function EmptySlots(n: nat): Slots {
    seq(n, _ => None)
  }

  /** Allocates the missing buffers of an accepted plan, launches it, and leaves every output ready for download. */
  method LaunchStaged(operations: seq<XorOperation>, offsets: seq<nat>, sources: seq<ShardId>, required: set<ShardId>,
                      counts: Counts, staged: Slots, tuning: Tuning) returns (memory: Slots)
    requires NoEmptyShard(staged) && Run(operations, staged).Some? && ValidTuning(tuning)
    requires required == Required(operations) && counts == CountsOf(Run(operations, staged).value)
    requires offsets == Offsets(operations) && sources == Flatten(operations)
    ensures |memory| == |staged| && forall i | 0 <= i < |operations| :: operations[i].output < |memory|
    ensures DependencyOrder.Overlay(staged, memory, Outputs(operations)) == Run(operations, staged).value
  {
    var buffers := AllocateFor(operations, required, counts, staged);
    memory := LaunchAll(operations, offsets, sources, buffers, tuning, staged);
    DownloadedIsRun(operations, staged, memory);
  }

  class DeviceShardStagingContext {
    const shardCount: nat
    var wordCounts: Counts
    var stagedShards: Slots
    var deviceShards: Slots
    var finalized: bool

    /** Until the context is finalized, device memory mirrors the staged shards, all of them non-empty. */
    ghost predicate Valid()
      reads this
    {
      && shardCount > 0
      && (finalized ||
           (&& |stagedShards| == shardCount && NoEmptyShard(stagedShards)
            && wordCounts == CountsOf(stagedShards) && deviceShards == stagedShards))
    }

    constructor (shardCount: nat)
      requires shardCount > 0
      ensures Valid() && !finalized && this.shardCount == shardCount && stagedShards == EmptySlots(shardCount)
    {
      this.shardCount := shardCount;
      wordCounts := seq(shardCount, _ => None);
      stagedShards, deviceShards, finalized := EmptySlots(shardCount), EmptySlots(shardCount), false;
    }

    /** Accepts a non-empty shard for a free in-range slot of an open context; refuses without effect otherwise. */
    method Stage(id: ShardId, shard: Shard) returns (ok: bool)
      requires Valid()
      modifies this
      ensures Valid() && finalized == old(finalized)
      ensures ok <==> !old(finalized) && id < shardCount && shard != [] && old(stagedShards)[id].None?
      ensures ok ==> stagedShards == old(stagedShards)[id := Some(shard)]
      ensures !ok ==> unchanged(this)
    {
      if finalized || id >= shardCount || shard == [] || deviceShards[id].Some? { return false; }
      stagedShards := stagedShards[id := Some(shard)];
      wordCounts := wordCounts[id := Some(|shard|)];
      deviceShards := deviceShards[id := Some(shard)];
      return true;
    }

    /**
     * Runs a plan over exactly the staged shards. Accepted when the context is open, the host slots equal the staged
     * ones, and the CPU executor accepts; the result is then the CPU executor's and the context is closed for good.
     * A refused plan changes nothing.
     */
    method RunPlan(plan: DecodePlan, shards: array<Option<Shard>>, tuning: Tuning) returns (ok: bool)
      requires Valid() && ValidTuning(tuning)
      modifies this, shards
      ensures Valid()
      ensures ok <==> && !old(finalized) && old(shards[..]) == old(stagedShards)
                      && ValidShape(plan) && Run(plan.operations, old(shards[..])).Some?
      ensures ok ==> finalized && Some(shards[..]) == Run(plan.operations, old(shards[..]))
      ensures !ok ==> unchanged(this) && shards[..] == old(shards[..])
    {
      assert |shards[..]| == shards.Length;
      if finalized || shards.Length != shardCount { return false; }
      var shaped := ValidatePlanShape(plan);
      if !shaped || shards[..] != stagedShards { return false; }

      var counts, offsets, sources, required := CheckOperations(plan.operations, wordCounts);
      AdmitsWhatRuns(plan.operations, stagedShards);
      if counts.None? { return false; }
      finalized, wordCounts := true, counts.value;
      deviceShards := LaunchStaged(plan.operations, offsets, sources, required, counts.value, deviceShards, tuning);
      Download(plan.operations, deviceShards, shards);
      stagedShards := [];
      return true;
    }
  }

  /** An arrival order for the filled slots: each filled slot once. */
  predicate IsArrivalOrder(order: seq<ShardId>, shards: Slots) {
    && Distinct(order)
    && (forall i | 0 <= i < |order| :: order[i] < |shards| && shards[order[i]].Some?)
    && forall x | 0 <= x < |shards| && shards[x].Some? :: x in order
  }

  /**
   * Staging all shards in any arrival order and then running once equals running the CPU executor on those shards;
   * afterwards nothing more can be staged or run.
   */
  method StageThenRun(order: seq<ShardId>, plan: DecodePlan, shards: array<Option<Shard>>, tuning: Tuning)
    returns (ok: bool, context: DeviceShardStagingContext)
    requires shards.Length > 0 && NoEmptyShard(shards[..]) && IsArrivalOrder(order, shards[..]) && ValidTuning(tuning)
    modifies shards
    ensures ok <==> ValidShape(plan) && Run(plan.operations, old(shards[..])).Some?
    ensures ok ==> Some(shards[..]) == Run(plan.operations, old(shards[..])) && context.finalized
    ensures !ok ==> shards[..] == old(shards[..]) && context.Valid() && !context.finalized
                    && context.stagedShards == shards[..]
  {
    context := new DeviceShardStagingContext(shards.Length);
    var start := shards[..];
    for i := 0 to |order|
      invariant context.Valid() && !context.finalized && context.shardCount == |start| && fresh(context)
      invariant shards[..] == start
      invariant forall x | 0 <= x < |start| :: context.stagedShards[x] == if x in order[..i] then start[x] else None
    {
      assert order[i] !in order[..i];
      var staged := context.Stage(order[i], start[order[i]].value);
      assert order[..i + 1] == order[..i] + [order[i]];
    }
    assert order[..|order|] == order;
    assert context.stagedShards == start;
    ok := context.RunPlan(plan, shards, tuning);
  }
}
