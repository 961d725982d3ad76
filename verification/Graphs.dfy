/** Code graphs and decode plans, with the checks their constructors make. */
module Graphs {
  import opened Shards

  /** Shard ids are 32-bit: a graph may use at most this many. */
  const SHARD_ID_COUNT: nat := 0x1_0000_0000

  /** One XOR equation per parity shard; the map is walked in ascending parity id. */
  datatype BipartiteGraph = BipartiteGraph(k: nat, m: nat, equations: map<ShardId, seq<ShardId>>)

  datatype ParityEquation = ParityEquation(output: ShardId, sources: seq<ShardId>)

  datatype CodeGraph = CodeGraph(k: nat, m: nat, equations: seq<ParityEquation>)

  datatype XorOperation = XorOperation(output: ShardId, sources: seq<ShardId>)

  datatype DecodePlan = DecodePlan(operations: seq<XorOperation>, dependencies: seq<seq<nat>>, isRecoverable: bool)

  const Unrecoverable := DecodePlan([], [], false)

  predicate NeighborsOk(neighbors: seq<ShardId>, bound: nat) {
    neighbors != [] && (forall i | 0 <= i < |neighbors| :: neighbors[i] < bound) && Distinct(neighbors)
  }

  /** A shuffle of 0, .., k - 1. */
  predicate IsShuffle(permutation: seq<ShardId>, k: nat) {
    |permutation| == k && Distinct(permutation) && forall i | 0 <= i < k :: permutation[i] < k
  }

  predicate ValidGraph(g: BipartiteGraph) {
    && 0 < g.k < SHARD_ID_COUNT
    && 0 < g.m <= SHARD_ID_COUNT - g.k
    && |g.equations| == g.m
    && forall p | g.k <= p < g.k + g.m :: p in g.equations && NeighborsOk(g.equations[p], g.k)
  }

  predicate ValidCodeGraph(g: CodeGraph) {
    && 0 < g.k && 0 < g.m && g.k + g.m < SHARD_ID_COUNT
    && |g.equations| == g.m
    && (forall i | 0 <= i < g.m ::
          g.k <= g.equations[i].output < g.k + g.m && NeighborsOk(g.equations[i].sources, g.k + g.m))
    && forall i, j | 0 <= i < j < g.m :: g.equations[i].output != g.equations[j].output
  }

  /** The shape check both executors make before they touch a shard. */
  predicate ValidShape(plan: DecodePlan) {
    && plan.isRecoverable
    && |plan.dependencies| == |plan.operations|
    && forall i, d | 0 <= i < |plan.dependencies| && 0 <= d < |plan.dependencies[i]| ::
         plan.dependencies[i][d] < i
  }

  /** The ids lo, lo+1, .., hi-1. */
  function Range(lo: nat, hi: nat): (s: set<nat>)
    ensures forall x :: x in s <==> lo <= x < hi
    ensures |s| == if lo < hi then hi - lo else 0
  {
    if lo < hi then Range(lo, hi - 1) + {hi - 1} else {}
  }

  lemma {:induction false} SubsetSize<T>(a: set<T>, b: set<T>)
    requires a <= b
    ensures |a| <= |b|
    ensures |a| == |b| ==> a == b
  {
    if a != {} {
      var x :| x in a;
      SubsetSize(a - {x}, b - {x});
      assert a == (a - {x}) + {x} && b == (b - {x}) + {x};
    }
  }

  /** Having one equation per parity id and no other count of equations, the ids are exactly the parity range. */
  lemma EquationIds(g: BipartiteGraph)
    requires ValidGraph(g)
    ensures g.equations.Keys == Range(g.k, g.k + g.m)
  {
    SubsetSize(Range(g.k, g.k + g.m), g.equations.Keys);
  }

  function OutputIds(equations: seq<ParityEquation>): set<ShardId> {
    set i | 0 <= i < |equations| :: equations[i].output
  }

  lemma OutputIdsOfPrefix(equations: seq<ParityEquation>, e: nat)
    requires e < |equations|
    ensures OutputIds(equations[..e + 1]) == OutputIds(equations[..e]) + {equations[e].output}
    ensures equations[e].output in OutputIds(equations[..e])
       <==> exists i :: 0 <= i < e && equations[i].output == equations[e].output
  {
    assert forall i | 0 <= i < e :: equations[..e][i] == equations[i] == equations[..e + 1][i];
    assert equations[..e + 1][e] == equations[e];
  }

  lemma {:induction false} OutputIdsSize(equations: seq<ParityEquation>)
    requires forall i, j | 0 <= i < j < |equations| :: equations[i].output != equations[j].output
    ensures |OutputIds(equations)| == |equations|
  {
    if equations != [] {
      var last := |equations| - 1;
      OutputIdsSize(equations[..last]);
      assert OutputIds(equations) == OutputIds(equations[..last]) + {equations[last].output};
    }
  }

  /** Distinct in-range outputs, as many as there are parity shards: by pigeonhole every parity id has its equation. */
  lemma EveryParityHasAnEquation(g: CodeGraph, p: ShardId) returns (i: nat)
    requires ValidCodeGraph(g) && g.k <= p < g.k + g.m
    ensures i < g.m && g.equations[i].output == p
  {
    OutputIdsSize(g.equations);
    SubsetSize(OutputIds(g.equations), Range(g.k, g.k + g.m));
    assert p in OutputIds(g.equations);
    i :| 0 <= i < |g.equations| && g.equations[i].output == p;
  }

  /** Duplicate and bounds scan of one neighbor list, growing the set of ids already seen. */
  method CheckNeighbors(neighbors: seq<ShardId>, bound: nat) returns (ok: bool)
    ensures ok <==> NeighborsOk(neighbors, bound)
  {
    if neighbors == [] { return false; }
    var seen: set<ShardId> := {};
    for i := 0 to |neighbors|
      invariant seen == set j | 0 <= j < i :: neighbors[j]
      invariant forall j | 0 <= j < i :: neighbors[j] < bound
      invariant Distinct(neighbors[..i])
    {
      if neighbors[i] >= bound { return false; }
      if neighbors[i] in seen {
        var j :| 0 <= j < i && neighbors[j] == neighbors[i];
        assert !Distinct(neighbors);
        return false;
      }
      seen := seen + {neighbors[i]};
    }
    assert neighbors[..|neighbors|] == neighbors;
    return true;
  }

  method ValidateGraph(g: BipartiteGraph) returns (ok: bool)
    ensures ok <==> ValidGraph(g)
  {
    if g.k == 0 || g.m == 0 { return false; }
    if g.k > SHARD_ID_COUNT - 1 || g.m > SHARD_ID_COUNT - g.k { return false; }
    if |g.equations| != g.m { return false; }
    for parity := g.k to g.k + g.m
      invariant forall p | g.k <= p < parity :: p in g.equations && NeighborsOk(g.equations[p], g.k)
    {
      if parity !in g.equations { return false; }
      var fine := CheckNeighbors(g.equations[parity], g.k);
      if !fine { return false; }
    }
    return true;
  }

  method ValidateCodeGraph(g: CodeGraph) returns (ok: bool)
    ensures ok <==> ValidCodeGraph(g)
  {
    if g.k == 0 || g.m == 0 { return false; }
    if g.m > SHARD_ID_COUNT - 1 || g.k > SHARD_ID_COUNT - 1 - g.m { return false; }
    if |g.equations| != g.m { return false; }
    var outputs: set<ShardId> := {};
    for e := 0 to |g.equations|
      invariant outputs == OutputIds(g.equations[..e])
      invariant forall i | 0 <= i < e ::
        g.k <= g.equations[i].output < g.k + g.m && NeighborsOk(g.equations[i].sources, g.k + g.m)
      invariant forall i, j | 0 <= i < j < e :: g.equations[i].output != g.equations[j].output
    {
      var equation := g.equations[e];
      OutputIdsOfPrefix(g.equations, e);
      if equation.output < g.k || equation.output >= g.k + g.m { return false; }
      if equation.output in outputs { return false; }
      outputs := outputs + {equation.output};
      var fine := CheckNeighbors(equation.sources, g.k + g.m);
      if !fine { return false; }
    }
    return true;
  }

  method ValidatePlanShape(plan: DecodePlan) returns (ok: bool)
    ensures ok <==> ValidShape(plan)
  {
    if !plan.isRecoverable { return false; }
    if |plan.dependencies| != |plan.operations| { return false; }
    for i := 0 to |plan.dependencies|
      invariant forall j, d | 0 <= j < i && 0 <= d < |plan.dependencies[j]| :: plan.dependencies[j][d] < j
    {
      for d := 0 to |plan.dependencies[i]|
        invariant forall e | 0 <= e < d :: plan.dependencies[i][e] < i
      {
        if plan.dependencies[i][d] >= i { return false; }
      }
    }
    return true;
  }

  /** The dimensions the graph generator accepts. */
  predicate RegularDimensions(k: nat, m: nat, degree: nat) {
    0 < k < SHARD_ID_COUNT && 0 < m <= SHARD_ID_COUNT - k && 0 < degree <= k
  }

  lemma PrefixIsOk(shuffle: seq<ShardId>, k: nat, degree: nat)
    requires IsShuffle(shuffle, k) && 0 < degree <= k
    ensures NeighborsOk(shuffle[..degree], k)
  {}

  /** Equations k, .., k + n - 1 read the first `degree` of each shuffle, and there are no others. */
  ghost predicate ReadsShuffles(equations: map<ShardId, seq<ShardId>>, k: nat, degree: nat,
                                shuffles: seq<seq<ShardId>>, n: nat)
    requires n <= |shuffles|
  {
    && (forall p :: p in equations <==> k <= p < k + n)
    && (forall i | 0 <= i < n :: degree <= |shuffles[i]|)
    && forall p | k <= p < k + n :: equations[p] == shuffles[p - k][..degree]
  }

  lemma ReadsOneMore(equations: map<ShardId, seq<ShardId>>, k: nat, degree: nat, shuffles: seq<seq<ShardId>>, n: nat)
    requires n < |shuffles| && degree <= |shuffles[n]|
    requires ReadsShuffles(equations, k, degree, shuffles, n)
    ensures ReadsShuffles(equations[k + n := shuffles[n][..degree]], k, degree, shuffles, n + 1)
  {
    var more := equations[k + n := shuffles[n][..degree]];
    assert forall p: nat | k <= p < k + n :: more[p] == equations[p];
  }

  lemma RegularGraphIsValid(g: BipartiteGraph, degree: nat, shuffles: seq<seq<ShardId>>)
    requires RegularDimensions(g.k, g.m, degree) && |shuffles| == g.m
    requires ReadsShuffles(g.equations, g.k, degree, shuffles, g.m)
    requires forall i | 0 <= i < g.m :: IsShuffle(shuffles[i], g.k)
    ensures ValidGraph(g)
    ensures forall p | g.k <= p < g.k + g.m :: |g.equations[p]| == degree
  {
    assert g.equations.Keys == Range(g.k, g.k + g.m);
    forall p | g.k <= p < g.k + g.m
      ensures p in g.equations && NeighborsOk(g.equations[p], g.k) && |g.equations[p]| == degree
    {
      PrefixIsOk(shuffles[p - g.k], g.k, degree);
    }
  }

  /**
   * A right-regular graph: every parity reads the first `degree` of the reshuffled data shards. `shuffles` holds the
   * candidates after each reshuffle; whatever they are, the graph is valid and every parity has exactly that many
   * distinct neighbors.
   */
  method GenerateRegularGraph(k: nat, m: nat, degree: nat,
                              shuffles: seq<seq<ShardId>>) returns (r: Option<BipartiteGraph>)
    requires |shuffles| == m && forall i | 0 <= i < m :: IsShuffle(shuffles[i], k)
    ensures r.Some? <==> RegularDimensions(k, m, degree)
    ensures r.Some? ==> && ValidGraph(r.value) && r.value.k == k && r.value.m == m
                        && ReadsShuffles(r.value.equations, k, degree, shuffles, m)
                        && forall p | k <= p < k + m :: |r.value.equations[p]| == degree
  {
    if k == 0 || m == 0 || degree == 0 || degree > k { return None; }
    if k > SHARD_ID_COUNT - 1 || m > SHARD_ID_COUNT - k { return None; }
    var equations: map<ShardId, seq<ShardId>> := map[];
    for parity := 0 to m
      invariant ReadsShuffles(equations, k, degree, shuffles, parity)
    {
      ReadsOneMore(equations, k, degree, shuffles, parity);
      equations := equations[k + parity := shuffles[parity][..degree]];
    }
    var g := BipartiteGraph(k, m, equations);
    RegularGraphIsValid(g, degree, shuffles);
    return Some(g);
  }
}
