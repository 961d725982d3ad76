/** The decode planner as it runs: nested scans that shrink the missing set and grow the plan in place. */
module Planner {
  import opened Shards
  import opened Graphs
  import opened Peeling

  predicate Ascending(s: seq<nat>) {
    forall i, j | 0 <= i < j < |s| :: s[i] < s[j]
  }

  function Insert(x: nat, s: seq<nat>): (r: seq<nat>)
    requires Ascending(s)
    ensures Ascending(r) && forall y :: y in r <==> y == x || y in s
  {
    if s == [] then [x]
    else
      var last := |s| - 1;
      if s[last] < x then s + [x]
      else if s[last] == x then s
      else
        var front := Insert(x, s[..last]);
        assert s == s[..last] + [s[last]];
        assert forall i | 0 <= i < |front| :: front[i] in front;
        front + [s[last]]
  }

  /** Sort, then drop repetitions. */
  function SortUnique(s: seq<nat>): (r: seq<nat>)
    ensures Ascending(r) && forall y :: y in r <==> y in s
  {
    if s == [] then []
    else
      assert s == s[..|s| - 1] + [s[|s| - 1]];
      Insert(s[|s| - 1], SortUnique(s[..|s| - 1]))
  }

  lemma AscendingEnds(s: seq<nat>, last: nat)
    requires Ascending(s) && (forall i | 0 <= i < |s| :: s[i] <= last) && last in s
    ensures s == s[..|s| - 1] + [last]
    ensures Ascending(s[..|s| - 1]) && forall i | 0 <= i < |s| - 1 :: s[i] < last
  {
    assert forall i | 0 <= i < |s| :: s[i] <= s[|s| - 1];
  }

  lemma {:induction false} AscendingBelow(s: seq<nat>, n: nat)
    requires Ascending(s) && forall i | 0 <= i < |s| :: s[i] < n
    ensures |s| <= n
  {
    if s != [] {
      AscendingBelow(s[..|s| - 1], s[|s| - 1]);
    }
  }

  /** s lists exactly the indices of the operations that produce one of the sources. */
  predicate ListsProducers(operations: seq<XorOperation>, sources: seq<ShardId>, s: seq<nat>) {
    && Ascending(s)
    && (forall i | 0 <= i < |s| :: s[i] < |operations| && operations[s[i]].output in sources)
    && forall d | 0 <= d < |operations| && operations[d].output in sources :: d in s
  }

  lemma ListsFront(operations: seq<XorOperation>, sources: seq<ShardId>, s: seq<nat>)
    requires operations != [] && ListsProducers(operations, sources, s)
    ensures var last := |operations| - 1;
      if operations[last].output in sources
      then s != [] && s == s[..|s| - 1] + [last] && ListsProducers(operations[..last], sources, s[..|s| - 1])
      else ListsProducers(operations[..last], sources, s)
  {
    var last := |operations| - 1;
    if operations[last].output in sources {
      AscendingEnds(s, last);
    }
  }

  /** An ascending list of exactly the producing operations is the dependency list. */
  lemma {:induction false} ProducersUnique(operations: seq<XorOperation>, sources: seq<ShardId>, s: seq<nat>)
    requires ListsProducers(operations, sources, s)
    ensures s == Producers(operations, sources)
  {
    if operations == [] {
      AscendingBelow(s, 0);
    } else {
      var last := |operations| - 1;
      ListsFront(operations, sources, s);
      ProducersUnique(operations[..last], sources,
                      if operations[last].output in sources then s[..|s| - 1] else s);
    }
  }

  lemma EmptyEquation(g: BipartiteGraph, avail: set<ShardId>, parity: ShardId, st: PeelState)
    requires parity in g.equations && st.remaining == {}
    ensures PeelEquation(g, avail, parity, st) == st
  {
    assert MissingIn(g.equations[parity], st.remaining) == [];
  }

  lemma ScanStep(g: BipartiteGraph, avail: set<ShardId>, parity: ShardId, st: PeelState)
    requires ValidGraph(g) && g.k <= parity < g.k + g.m
    ensures Scan(g, avail, parity + 1, st) == PeelEquation(g, avail, parity, Scan(g, avail, parity, st))
    ensures |Scan(g, avail, parity, st).operations| >= |st.operations|
    ensures |Scan(g, avail, parity + 1, st).operations| >= |Scan(g, avail, parity, st).operations|
  {}

  lemma {:induction false} FixedScan(g: BipartiteGraph, avail: set<ShardId>, here: nat, stop: nat,
                                     st: PeelState, done: PeelState)
    requires ValidGraph(g) && g.k <= here <= stop <= g.k + g.m
    requires Scan(g, avail, here, st) == done
    requires forall p | here <= p < stop :: PeelEquation(g, avail, p, done) == done
    ensures Scan(g, avail, stop, st) == done
    decreases stop
  {
    if here < stop {
      FixedScan(g, avail, here, stop - 1, st, done);
    }
  }

  /** Once nothing is missing, the rest of the scan does nothing: leaving the loop early is sound. */
  lemma EmptyScan(g: BipartiteGraph, avail: set<ShardId>, here: nat, st: PeelState)
    requires ValidGraph(g) && g.k <= here <= g.k + g.m
    requires Scan(g, avail, here, st).remaining == {}
    ensures Scan(g, avail, g.k + g.m, st) == Scan(g, avail, here, st)
  {
    var done := Scan(g, avail, here, st);
    forall p | here <= p < g.k + g.m ensures PeelEquation(g, avail, p, done) == done {
      EmptyEquation(g, avail, p, done);
    }
    FixedScan(g, avail, here, g.k + g.m, st, done);
  }

  /** The producing-operation index maps every output written so far to the one operation writing it. */
  predicate Indexes(producing: map<ShardId, nat>, operations: seq<XorOperation>) {
    && (forall y | y in producing :: producing[y] < |operations| && operations[producing[y]].output == y)
    && forall i | 0 <= i < |operations| :: operations[i].output in producing && producing[operations[i].output] == i
  }

  /** No output is still missing, and only systematic shards are missing or written. */
  predicate Tracks(k: nat, producing: map<ShardId, nat>, st: PeelState) {
    && Indexes(producing, st.operations)
    && (forall y | y in producing :: y < k && y !in st.remaining)
    && forall y | y in st.remaining :: y < k
  }

  /** Number of neighbors still missing, and the last of them. */
  method CountMissing(neighbors: seq<ShardId>, remaining: set<ShardId>) returns (count: nat, last: ShardId)
    ensures count == |MissingIn(neighbors, remaining)|
    ensures count > 0 ==> last == MissingIn(neighbors, remaining)[count - 1]
  {
    count, last := 0, 0;
    for i := 0 to |neighbors|
      invariant count == |MissingIn(neighbors[..i], remaining)|
      invariant count > 0 ==> last == MissingIn(neighbors[..i], remaining)[count - 1]
    {
      assert neighbors[..i + 1][..i] == neighbors[..i];
      if neighbors[i] in remaining {
        last := neighbors[i];
        count := count + 1;
      }
    }
    assert neighbors[..|neighbors|] == neighbors;
  }

  /** Source list and dependency list of the operation that solves one equation. */
  method BuildOperation(parity: ShardId, neighbors: seq<ShardId>, output: ShardId,
                        producing: map<ShardId, nat>, ghost operations: seq<XorOperation>)
    returns (op: XorOperation, deps: seq<nat>)
    requires Indexes(producing, operations) && parity !in producing
    ensures op == PeelOperation(parity, neighbors, output)
    ensures deps == Producers(operations, op.sources)
  {
    var sources := [parity];
    deps := [];
    for i := 0 to |neighbors|
      invariant sources == [parity] + Without(neighbors[..i], output)
      invariant forall d | 0 <= d < |deps| :: deps[d] < |operations| && operations[deps[d]].output in sources
      invariant forall d | 0 <= d < |operations| && operations[d].output in sources :: d in deps
    {
      assert neighbors[..i + 1][..i] == neighbors[..i];
      if neighbors[i] != output {
        sources := sources + [neighbors[i]];
        if neighbors[i] in producing {
          deps := deps + [producing[neighbors[i]]];
        }
      }
    }
    assert neighbors[..|neighbors|] == neighbors;
    op := XorOperation(output, sources);
    deps := SortUnique(deps);
    assert forall d | 0 <= d < |deps| :: deps[d] in deps;
    ProducersUnique(operations, sources, deps);
  }

  /** One equation of the scan. */
  method TryEquation(g: BipartiteGraph, avail: set<ShardId>, parity: ShardId, st: PeelState,
                     producing: map<ShardId, nat>)
    returns (next: PeelState, producing': map<ShardId, nat>, progress: bool)
    requires parity in g.equations && parity !in producing
    requires Tracks(g.k, producing, st)
    ensures next == PeelEquation(g, avail, parity, st) && (progress <==> |next.operations| > |st.operations|)
    ensures Tracks(g.k, producing', next)
  {
    next, producing', progress := st, producing, false;
    if parity !in avail { return; }
    var neighbors := g.equations[parity];
    var count, missingNeighbor := CountMissing(neighbors, st.remaining);
    if count != 1 { return; }
    var op, deps := BuildOperation(parity, neighbors, missingNeighbor, producing, st.operations);
    next := PeelState(st.remaining - {missingNeighbor}, st.operations + [op], st.dependencies + [deps]);
    producing' := producing[missingNeighbor := |st.operations|];
    progress := true;
  }

  /** One scan over all equations, left early when nothing is missing any more. */
  method ScanOnce(g: BipartiteGraph, avail: set<ShardId>, st: PeelState, producing: map<ShardId, nat>)
    returns (next: PeelState, producing': map<ShardId, nat>, madeProgress: bool)
    requires ValidGraph(g) && Tracks(g.k, producing, st)
    ensures next == Scan(g, avail, g.k + g.m, st) && (madeProgress <==> |next.operations| > |st.operations|)
    ensures Tracks(g.k, producing', next)
  {
    next, producing', madeProgress := st, producing, false;
    for parity := g.k to g.k + g.m
      invariant next == Scan(g, avail, parity, st)
      invariant madeProgress <==> |next.operations| > |st.operations|
      invariant Tracks(g.k, producing', next)
    {
      var progress;
      next, producing', progress := TryEquation(g, avail, parity, next, producing');
      madeProgress := madeProgress || progress;
      ScanStep(g, avail, parity, st);
      if next.remaining == {} {
        EmptyScan(g, avail, parity + 1, st);
        return;
      }
    }
  }

  lemma PeelOnce(g: BipartiteGraph, avail: set<ShardId>, st: PeelState)
    requires ValidGraph(g) && st.remaining != {}
    ensures var next := Scan(g, avail, g.k + g.m, st);
      Peel(g, avail, st) == if |next.operations| > |st.operations| then Peel(g, avail, next) else st
  {}

  method CreatePlan(g: BipartiteGraph, missing: set<ShardId>, avail: set<ShardId>) returns (r: Option<DecodePlan>)
    ensures r == if ValidRequest(g, missing, avail) then Some(PlanOf(g, missing, avail)) else None
  {
    var valid := ValidateGraph(g);
    if !valid { return None; }
    if exists id | id in missing :: id >= g.k { return None; }
    if exists id | id in avail :: id < g.k || id >= g.k + g.m { return None; }

    var st := PeelState(missing, [], []);
    var producing: map<ShardId, nat> := map[];
    while st.remaining != {}
      invariant Peel(g, avail, PeelState(missing, [], [])) == Peel(g, avail, st)
      invariant Tracks(g.k, producing, st)
      decreases |st.remaining|
    {
      var next, producing', madeProgress := ScanOnce(g, avail, st, producing);
      PeelOnce(g, avail, st);
      if !madeProgress {
        return Some(Unrecoverable);
      }
      st, producing := next, producing';
    }
    return Some(DecodePlan(st.operations, st.dependencies, true));
  }

  /** Without an explicit availability set, every parity shard counts as available. */
  method CreatePlanAllParity(g: BipartiteGraph, missing: set<ShardId>) returns (r: Option<DecodePlan>)
    ensures r == if ValidGraph(g) && missing <= Range(0, g.k)
                 then Some(PlanOf(g, missing, Range(g.k, g.k + g.m))) else None
  {
    r := CreatePlan(g, missing, g.equations.Keys);
    if ValidGraph(g) {
      EquationIds(g);
    }
  }
}
