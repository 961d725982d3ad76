/**
 * The device path's up-front check: availability and word counts are followed through the plan symbolically, before
 * any data moves. It accepts exactly what the CPU executor accepts step by step.
 */
module Admission {
  import opened Shards
  import opened Graphs
  import opened Codec

  type Counts = seq<Option<nat>>

  function CountsOf(slots: Slots): Counts {
    seq(|slots|, i requires 0 <= i < |slots| => if slots[i].Some? then Some(|slots[i].value|) else None)
  }

  predicate NoEmptyShard(slots: Slots) {
    forall i | 0 <= i < |slots| && slots[i].Some? :: slots[i].value != []
  }

  predicate CanAdmit(op: XorOperation, counts: Counts) {
    && op.output < |counts| && op.sources != [] && counts[op.output].None?
    && op.sources[0] < |counts| && counts[op.sources[0]].Some?
    && forall i | 0 <= i < |op.sources| :: op.sources[i] < |counts| && counts[op.sources[i]] == counts[op.sources[0]]
  }

  /** Word counts after the plan, or None when the symbolic check refuses it. */
  function Admit(operations: seq<XorOperation>, counts: Counts): (r: Option<Counts>)
    ensures r.Some? ==> |r.value| == |counts|
  {
    if operations == [] then Some(counts)
    else
      var before := Admit(operations[..|operations| - 1], counts);
      var op := operations[|operations| - 1];
      if before.Some? && CanAdmit(op, before.value) then Some(before.value[op.output := before.value[op.sources[0]]])
      else None
  }

  lemma AdmitSnoc(operations: seq<XorOperation>, op: XorOperation, counts: Counts)
    ensures Admit(operations + [op], counts) ==
      var before := Admit(operations, counts);
      if before.Some? && CanAdmit(op, before.value) then Some(before.value[op.output := before.value[op.sources[0]]])
      else None
  {
    var all := operations + [op];
    assert all[..|all| - 1] == operations && all[|all| - 1] == op;
  }

  lemma {:induction false} AdmitPrefix(operations: seq<XorOperation>, n: nat, counts: Counts)
    requires n <= |operations|
    ensures Admit(operations, counts).Some? ==> Admit(operations[..n], counts).Some?
  {
    if n < |operations| {
      AdmitPrefix(operations[..|operations| - 1], n, counts);
      assert operations[..|operations| - 1][..n] == operations[..n];
    } else {
      assert operations[..n] == operations;
    }
  }

  lemma StepAgrees(op: XorOperation, slots: Slots)
    requires NoEmptyShard(slots)
    ensures CanAdmit(op, CountsOf(slots)) <==> CanRun(op, slots)
    ensures CanRun(op, slots) ==>
      && NoEmptyShard(RunOp(op, slots))
      && CountsOf(RunOp(op, slots)) == CountsOf(slots)[op.output := CountsOf(slots)[op.sources[0]]]
  {
    var counts := CountsOf(slots);
    assert forall i | 0 <= i < |slots| :: counts[i].Some? <==> slots[i].Some?;
  }

  /** The symbolic pass accepts a plan exactly when the step-by-step executor does, and predicts every word count. */
  lemma {:induction false} AdmitsWhatRuns(operations: seq<XorOperation>, slots: Slots)
    requires NoEmptyShard(slots)
    ensures Admit(operations, CountsOf(slots)).Some? <==> Run(operations, slots).Some?
    ensures Run(operations, slots).Some? ==>
      && NoEmptyShard(Run(operations, slots).value)
      && Admit(operations, CountsOf(slots)) == Some(CountsOf(Run(operations, slots).value))
  {
    if operations != [] {
      AdmitsWhatRuns(operations[..|operations| - 1], slots);
      if Run(operations[..|operations| - 1], slots).Some? {
        StepAgrees(operations[|operations| - 1], Run(operations[..|operations| - 1], slots).value);
      }
    }
  }

  // ---------- flattened sources ----------

  function Flatten(operations: seq<XorOperation>): seq<ShardId> {
    if operations == [] then [] else Flatten(operations[..|operations| - 1]) + operations[|operations| - 1].sources
  }

  function Offsets(operations: seq<XorOperation>): (r: seq<nat>)
    ensures |r| == |operations|
  {
    if operations == [] then []
    else Offsets(operations[..|operations| - 1]) + [|Flatten(operations[..|operations| - 1])|]
  }

  lemma SliceOfFront(front: seq<ShardId>, back: seq<ShardId>, offset: nat, n: nat)
    requires offset + n <= |front|
    ensures (front + back)[offset..offset + n] == front[offset..offset + n]
  {}

  /** The flattened list at an operation's offset is exactly that operation's source list. */
  lemma {:induction false} FlattenedSources(operations: seq<XorOperation>, i: nat)
    requires i < |operations|
    ensures Offsets(operations)[i] + |operations[i].sources| <= |Flatten(operations)|
    ensures Flatten(operations)[Offsets(operations)[i]..Offsets(operations)[i] + |operations[i].sources|]
      == operations[i].sources
  {
    var last := |operations| - 1;
    if i < last {
      FlattenedSources(operations[..last], i);
      SliceOfFront(Flatten(operations[..last]), operations[last].sources, Offsets(operations)[i],
                   |operations[i].sources|);
    }
  }

  /** Shards that need a device buffer: everything a plan reads or writes. */
  function Required(operations: seq<XorOperation>): (r: set<ShardId>)
  {
    if operations == [] then {}
    else
      var op := operations[|operations| - 1];
      Required(operations[..|operations| - 1]) + {op.output} + set i | 0 <= i < |op.sources| :: op.sources[i]
  }

  lemma {:induction false} RequiredElements(operations: seq<XorOperation>, i: nat)
    requires i < |operations|
    ensures operations[i].output in Required(operations)
    ensures forall x | x in operations[i].sources :: x in Required(operations)
  {
    if i < |operations| - 1 {
      RequiredElements(operations[..|operations| - 1], i);
    }
  }

  /** Everything required is available once the plan has been followed. */
  lemma {:induction false} RequiredCounts(operations: seq<XorOperation>, counts: Counts)
    requires Admit(operations, counts).Some?
    ensures forall x | x in Required(operations) :: x < |counts| && Admit(operations, counts).value[x].Some?
  {
    if operations != [] {
      RequiredCounts(operations[..|operations| - 1], counts);
    }
  }

  /** The checking loop of the device path. */
  method CheckOperations(operations: seq<XorOperation>, start: Counts)
    returns (r: Option<Counts>, offsets: seq<nat>, sources: seq<ShardId>, required: set<ShardId>)
    ensures r == Admit(operations, start)
    ensures r.Some? ==> && offsets == Offsets(operations) && sources == Flatten(operations)
                        && required == Required(operations)
  {
    var counts := start;
    offsets, sources, required := [], [], {};
    for i := 0 to |operations|
      invariant Some(counts) == Admit(operations[..i], start)
      invariant offsets == Offsets(operations[..i]) && sources == Flatten(operations[..i])
      invariant required == Required(operations[..i])
    {
      var op := operations[i];
      assert operations[..i + 1] == operations[..i] + [op];
      assert operations[..i + 1][..i] == operations[..i];
      AdmitSnoc(operations[..i], op, start);
      AdmitPrefix(operations, i + 1, start);
      if op.output >= |counts| || op.sources == [] || counts[op.output].Some? { return None, [], [], {}; }
      var count: Option<nat>, flat, needed := CheckSources(op, counts);
      if count.None? { return None, [], [], {}; }
      offsets, sources := offsets + [|sources|], sources + flat;
      required := required + needed + {op.output};
      counts := counts[op.output := count];
    }
    assert operations[..|operations|] == operations;
    return Some(counts), offsets, sources, required;
  }

  /** The inner loop: all sources available, all of one word count. */
  method CheckSources(op: XorOperation, counts: Counts) returns (count: Option<nat>, flat: seq<ShardId>,
                      needed: set<ShardId>)
    requires op.output < |counts| && op.sources != [] && counts[op.output].None?
    ensures count.Some? <==> CanAdmit(op, counts)
    ensures count.Some? ==> count == counts[op.sources[0]]
    ensures count.Some? ==> flat == op.sources && needed == set i | 0 <= i < |op.sources| :: op.sources[i]
  {
    count, flat, needed := None, [], {};
    for i := 0 to |op.sources|
      invariant i > 0 <==> count.Some?
      invariant forall j | 0 <= j < i :: op.sources[j] < |counts| && counts[op.sources[j]] == count
      invariant flat == op.sources[..i] && needed == set j | 0 <= j < i :: op.sources[j]
    {
      var source := op.sources[i];
      if source >= |counts| || counts[source].None? { return None, [], {}; }
      if count.None? {
        count := counts[source];
      } else if count != counts[source] {
        return None, [], {};
      }
      flat, needed := flat + [source], needed + {source};
    }
  }
}
