/** Capacity-normalised replication: each request protects the next r shards of a shuffled circle. */
module Replicas {
  import opened Shards
  import opened Graphs
  import opened Queueing

  /** Where a request's arc begins. */
  function ArcStart(request: nat, k: nat, r: nat): nat
    requires k > 0
  {
    (request % k) * r % k
  }

  function Around(permutation: seq<ShardId>, t: nat): ShardId
    requires permutation != []
  {
    permutation[t % |permutation|]
  }

  /** The r shards that follow position `start`. */
  function Arc(permutation: seq<ShardId>, start: nat, r: nat): (s: seq<ShardId>)
    requires permutation != []
    ensures |s| == r
  {
    if r == 0 then [] else Arc(permutation, start, r - 1) + [Around(permutation, start + (r - 1))]
  }

  function Select(permutation: seq<ShardId>, request: nat, r: nat): (s: seq<ShardId>)
    requires permutation != []
    ensures |s| == r
  {
    Arc(permutation, ArcStart(request, |permutation|, r), r)
  }

  /** Systematic shard counts the generator accepts. */
  predicate ValidShardCount(k: nat) { 0 < k < SHARD_ID_COUNT }

  /** `permutation` is the shuffle of the k shards that the replication seed gives. */
  method SelectCapacityNormalizedReplicas(request: nat, k: nat, r: nat, permutation: seq<ShardId>)
    returns (selected: Option<seq<ShardId>>)
    requires ValidShardCount(k) ==> |permutation| == k
    ensures selected == if ValidShardCount(k) && r <= k then Some(Select(permutation, request, r)) else None
    ensures selected.Some? <==> 0 < k < SHARD_ID_COUNT && r <= k
    ensures selected.Some? ==>
      |selected.value| == r && forall i | 0 <= i < r :: selected.value[i] == ProtectedAt(permutation, request, r, i)
  {
    if k == 0 || k > SHARD_ID_COUNT - 1 || r > k { return None; }
    var chosen := [];
    var start := ArcStart(request, k, r);
    for replica := 0 to r
      invariant chosen == Arc(permutation, start, replica)
      invariant forall i | 0 <= i < replica :: chosen[i] == permutation[(start + i) % k]
    {
      chosen := chosen + [Around(permutation, start + replica)];
    }
    return Some(chosen);
  }

  // ---------- positions on the circle ----------

  /** The position after p on a circle of k. */
  function Next(p: nat, k: nat): nat { if p + 1 == k then 0 else p + 1 }

  /** Where the t-th step around a circle of k positions is. */
  function Position(t: nat, k: nat): (p: nat)
    requires k > 0
    ensures p < k
  {
    if t == 0 then 0 else Next(Position(t - 1, k), k)
  }

  lemma RemainderStep(t: nat, k: nat)
    requires k > 0
    ensures (t + 1) % k == Next(t % k, k)
  {
    var a, b := t / k, (t + 1) / k;
    assert t == k * a + t % k && t + 1 == k * b + (t + 1) % k;
    assert k * (b - a) == k * b - k * a;
    if t % k + 1 == k {
      assert k * (b - a - 1) == k * (b - a) - k;
      OnlyZero(k, b - a - 1);
    } else {
      OnlyZero(k, b - a);
    }
  }

  /** r is what remains of t. */
  lemma {:induction false} PositionIsRemainderOf(t: nat, k: nat, r: nat)
    requires k > 0 && r == t % k
    ensures Position(t, k) == r
  {
    if t == 0 {
      OnlyZero(k, -(t / k));
    } else {
      PositionIsRemainderOf(t - 1, k, (t - 1) % k);
      RemainderStep(t - 1, k);
    }
  }

  lemma PositionIsRemainder(t: nat, k: nat)
    requires k > 0
    ensures Position(t, k) == t % k
  {
    PositionIsRemainderOf(t, k, t % k);
  }

  /** Walking on from an equal position stays equal. */
  lemma {:induction false} WalkOn(a: nat, b: nat, i: nat, k: nat)
    requires k > 0 && Position(a, k) == Position(b, k)
    ensures Position(a + i, k) == Position(b + i, k)
  {
    if i > 0 { WalkOn(a, b, i - 1, k); }
  }

  lemma {:induction false} FullCircle(t: nat, k: nat)
    requires k > 0
    ensures Position(t + k, k) == Position(t, k)
  {
    if t == 0 {
      PositionIsRemainder(k, k);
      RemainderStep(k - 1, k);
      PositionIsRemainder(k - 1, k);
      SmallPosition(k - 1, k);
    } else {
      FullCircle(t - 1, k);
    }
  }

  lemma {:induction false} SmallPosition(t: nat, k: nat)
    requires t < k
    ensures Position(t, k) == t
  {
    if t > 0 { SmallPosition(t - 1, k); }
  }

  lemma {:induction false} FullCircles(t: nat, m: nat, k: nat)
    requires k > 0
    ensures Position(t + Work(m, k), k) == Position(t, k)
  {
    if m > 0 {
      FullCircles(t, m - 1, k);
      FullCircle(t + Work(m - 1, k), k);
    }
  }

  lemma RoundsOf(request: nat, k: nat) returns (turns: nat, rest: nat)
    requires k > 0
    ensures rest == request % k && request == Work(turns, k) + rest
  {
    turns, rest := request / k, request % k;
    WorkIsProduct(turns, k);
    assert request == k * turns + rest;
  }

  lemma ArcStartInRound(request: nat, k: nat, r: nat, rest: nat)
    requires k > 0 && rest == request % k
    ensures ArcStart(request, k, r) == Position(Work(rest, r), k)
  {
    WorkIsProduct(rest, r);
    PositionIsRemainder(Work(rest, r), k);
  }

  lemma RoundsWalkCircles(turns: nat, rest: nat, k: nat, r: nat)
    requires k > 0
    ensures Position(Work(Work(turns, k) + rest, r), k) == Position(Work(rest, r), k)
  {
    WorkOfTurns(turns, k, rest, r);
    FullCircles(Work(rest, r), Work(turns, r), k);
  }

  /** A request's arc begins where the previous request's ends: r positions per request, all around. */
  lemma ArcStartIsWalked(request: nat, k: nat, r: nat)
    requires k > 0
    ensures ArcStart(request, k, r) == Position(Work(request, r), k)
  {
    var turns, rest := RoundsOf(request, k);
    ArcStartInRound(request, k, r, rest);
    RoundsWalkCircles(turns, rest, k, r);
  }

  lemma WorkCommutes(a: nat, b: nat)
    ensures Work(a, b) == Work(b, a)
  {
    WorkIsProduct(a, b);
    WorkIsProduct(b, a);
  }

  /** Requests come in rounds of k, and a round of k requests walks r whole circles. */
  lemma {:induction false} WorkOfTurns(turns: nat, k: nat, rest: nat, r: nat)
    ensures Work(Work(turns, k) + rest, r) == Work(rest, r) + Work(Work(turns, r), k)
  {
    if turns > 0 {
      WorkOfTurns(turns - 1, k, rest, r);
      WorkOfSum(Work(turns - 1, k) + rest, k, r);
      WorkOfSum(Work(turns - 1, r), r, k);
      WorkCommutes(k, r);
    }
  }

  lemma {:induction false} WorkOfSum(a: nat, b: nat, r: nat)
    ensures Work(a + b, r) == Work(a, r) + Work(b, r)
  {
    if b > 0 { WorkOfSum(a, b - 1, r); }
  }

  /** The i-th shard a request protects, counted on the circle from its place. */
  function ProtectedAt(permutation: seq<ShardId>, request: nat, r: nat, i: nat): ShardId
    requires permutation != []
  {
    permutation[(request % |permutation| * r % |permutation| + i) % |permutation|]
  }

  lemma SelectAt(permutation: seq<ShardId>, request: nat, r: nat, i: nat)
    requires permutation != [] && i < r
    ensures Select(permutation, request, r)[i] == ProtectedAt(permutation, request, r, i)
  {
    ArcAt(permutation, ArcStart(request, |permutation|, r), r, i);
  }

  lemma {:induction false} ArcAt(permutation: seq<ShardId>, start: nat, r: nat, i: nat)
    requires permutation != [] && i < r
    ensures Arc(permutation, start, r)[i] == permutation[(start + i) % |permutation|]
  {
    if i < r - 1 { ArcAt(permutation, start, r - 1, i); }
  }

  // ---------- balance ----------

  predicate Protects(permutation: seq<ShardId>, request: nat, r: nat, shard: ShardId)
    requires permutation != []
  {
    shard in Select(permutation, request, r)
  }

  /** How many of the n numbers from `first` on satisfy p. */
  function Tally(first: nat, n: nat, p: nat -> bool): nat {
    if n == 0 then 0 else Tally(first, n - 1, p) + if p(first + (n - 1)) then 1 else 0
  }

  /** How many of the n requests from `first` on protect a shard. */
  function Protected(permutation: seq<ShardId>, first: nat, n: nat, r: nat, shard: ShardId): nat
    requires permutation != []
  {
    Tally(first, n, (request: nat) => Protects(permutation, request, r, shard))
  }

  /** How many of the steps from, .., from + n - 1 are at position p. */
  function Visits(from: nat, n: nat, p: nat, k: nat): nat
    requires k > 0
  {
    if n == 0 then 0 else Visits(from, n - 1, p, k) + if Position(from + (n - 1), k) == p then 1 else 0
  }

  lemma {:induction false} VisitsConcat(from: nat, m: nat, n: nat, p: nat, k: nat)
    requires k > 0
    ensures Visits(from, m + n, p, k) == Visits(from, m, p, k) + Visits(from + m, n, p, k)
  {
    if n > 0 { VisitsConcat(from, m, n - 1, p, k); }
  }

  /** Steps still to go to position p. */
  function Distance(from: nat, p: nat, k: nat): (d: nat)
    requires k > 0 && p < k
    ensures d < k
  {
    var at := Position(from, k);
    if at <= p then p - at else p + k - at
  }

  /** Each visit costs exactly one circle. */
  lemma {:induction false} VisitsAreEven(from: nat, n: nat, p: nat, k: nat)
    requires 0 < k && p < k
    ensures n + Distance(from + n, p, k) == Distance(from, p, k) + Work(Visits(from, n, p, k), k)
  {
    if n > 0 {
      VisitsAreEven(from, n - 1, p, k);
    }
  }

  lemma {:induction false} ArcElements(permutation: seq<ShardId>, start: nat, r: nat, i: nat)
    requires permutation != [] && i < r
    ensures Arc(permutation, start, r)[i] == permutation[Position(start + i, |permutation|)]
  {
    PositionIsRemainder(start + i, |permutation|);
    if i < r - 1 { ArcElements(permutation, start, r - 1, i); }
  }

  /** Fewer than a circle's worth of steps visit a position at most once. */
  lemma VisitsAtMostOnce(from: nat, n: nat, p: nat, k: nat)
    requires p < k && n <= k
    ensures Visits(from, n, p, k) <= 1
  {
    VisitsAreEven(from, n, p, k);
    if Visits(from, n, p, k) >= 2 {
      WorkGrows(2, Visits(from, n, p, k), k);
    }
  }

  /** A shard is selected exactly when its position is visited. */
  lemma {:induction false} ArcVisits(permutation: seq<ShardId>, start: nat, r: nat, p: nat)
    requires permutation != [] && Distinct(permutation) && p < |permutation|
    ensures permutation[p] in Arc(permutation, start, r) <==> Visits(start, r, p, |permutation|) > 0
  {
    if r > 0 {
      ArcVisits(permutation, start, r - 1, p);
      PositionIsRemainder(start + (r - 1), |permutation|);
    }
  }

  /** Equal positions walk equally. */
  lemma {:induction false} VisitsFrom(a: nat, b: nat, n: nat, p: nat, k: nat)
    requires k > 0 && Position(a, k) == Position(b, k)
    ensures Visits(a, n, p, k) == Visits(b, n, p, k)
  {
    if n > 0 {
      VisitsFrom(a, b, n - 1, p, k);
      WalkOn(a, b, n - 1, k);
    }
  }

  /** One request protects the shard at p once if its stretch of the walk visits p, and not otherwise. */
  lemma RequestVisits(permutation: seq<ShardId>, request: nat, r: nat, p: nat)
    requires IsShuffle(permutation, |permutation|) && p < |permutation| && r <= |permutation|
    ensures Visits(Work(request, r), r, p, |permutation|)
      == if Protects(permutation, request, r, permutation[p]) then 1 else 0
  {
    var k := |permutation|;
    var start := ArcStart(request, k, r);
    ArcStartIsWalked(request, k, r);
    SmallPosition(start, k);
    VisitsFrom(start, Work(request, r), r, p, k);
    ArcVisits(permutation, start, r, p);
    VisitsAtMostOnce(start, r, p, k);
  }

  lemma VisitsOfOneMore(first: nat, n: nat, r: nat, p: nat, k: nat)
    requires k > 0 && n > 0
    ensures Visits(Work(first, r), Work(n, r), p, k)
      == Visits(Work(first, r), Work(n - 1, r), p, k) + Visits(Work(first + (n - 1), r), r, p, k)
  {
    WorkOfSum(first, n - 1, r);
    VisitsConcat(Work(first, r), Work(n - 1, r), r, p, k);
  }

  /** When one stretch of r steps per request visits p exactly for the hits, the whole walk visits p once per hit. */
  lemma {:induction false} TallyIsVisits(first: nat, n: nat, r: nat, p: nat, k: nat, hit: nat -> bool)
    requires k > 0
    requires forall request: nat {:trigger hit(request)} ::
      Visits(Work(request, r), r, p, k) == if hit(request) then 1 else 0
    ensures Tally(first, n, hit) == Visits(Work(first, r), Work(n, r), p, k)
  {
    if n > 0 {
      TallyIsVisits(first, n - 1, r, p, k, hit);
      VisitsOfOneMore(first, n, r, p, k);
    }
  }

  lemma ProtectedIsVisits(permutation: seq<ShardId>, first: nat, n: nat, r: nat, p: nat)
    requires IsShuffle(permutation, |permutation|) && p < |permutation| && r <= |permutation|
    ensures Protected(permutation, first, n, r, permutation[p]) == Visits(Work(first, r), Work(n, r), p, |permutation|)
  {
    var hit := (request: nat) => Protects(permutation, request, r, permutation[p]);
    forall request: nat
      ensures Visits(Work(request, r), r, p, |permutation|) == if hit(request) then 1 else 0
    {
      RequestVisits(permutation, request, r, p);
    }
    TallyIsVisits(first, n, r, p, |permutation|, hit);
  }

  /** A selection names r distinct shards. */
  lemma SelectionIsDistinct(permutation: seq<ShardId>, request: nat, r: nat)
    requires IsShuffle(permutation, |permutation|) && permutation != [] && r <= |permutation|
    ensures |Select(permutation, request, r)| == r && Distinct(Select(permutation, request, r))
    ensures forall i | 0 <= i < r :: Select(permutation, request, r)[i] < |permutation|
  {
    var k, start := |permutation|, ArcStart(request, |permutation|, r);
    var arc := Arc(permutation, start, r);
    forall i | 0 <= i < r ensures arc[i] < k { ArcElements(permutation, start, r, i); }
    forall i, j | 0 <= i < j < r ensures arc[i] != arc[j] {
      ArcElements(permutation, start, r, i);
      ArcElements(permutation, start, r, j);
      PositionsDiffer(start, i, j, k);
    }
  }

  lemma PositionsDiffer(start: nat, i: nat, j: nat, k: nat)
    requires i < j < i + k
    ensures Position(start + i, k) != Position(start + j, k)
  {
    var p := Position(start + i, k);
    VisitsAtMostOnce(start + i, j - i + 1, p, k);
    VisitsConcat(start + i, 1, j - i, p, k);
    assert Visits(start + i, 1, p, k) == 1;
    assert Visits(start + i + 1, j - i, p, k) == 0;
  }

  lemma {:induction false} DistinctValues(s: seq<ShardId>)
    requires Distinct(s)
    ensures |set i | 0 <= i < |s| :: s[i]| == |s|
  {
    if s != [] {
      var front, last := s[..|s| - 1], s[|s| - 1];
      DistinctValues(front);
      assert (set i | 0 <= i < |s| :: s[i]) == (set i | 0 <= i < |front| :: front[i]) + {last};
    }
  }

  /** Every shard is somewhere on the circle. */
  lemma ShuffleCovers(permutation: seq<ShardId>, shard: ShardId) returns (p: nat)
    requires IsShuffle(permutation, |permutation|) && shard < |permutation|
    ensures p < |permutation| && permutation[p] == shard
  {
    var values := set i | 0 <= i < |permutation| :: permutation[i];
    DistinctValues(permutation);
    SubsetSize(values, Range(0, |permutation|));
    assert shard in values;
    p :| 0 <= p < |permutation| && permutation[p] == shard;
  }

  lemma BalancedAt(permutation: seq<ShardId>, first: nat, n: nat, r: nat, p: nat)
    requires IsShuffle(permutation, |permutation|) && p < |permutation| && r <= |permutation|
    ensures var k, times := |permutation|, Protected(permutation, first, n, r, permutation[p]);
      n * r - k < times * k < n * r + k
  {
    var k, times := |permutation|, Protected(permutation, first, n, r, permutation[p]);
    ProtectedIsVisits(permutation, first, n, r, p);
    VisitsAreEven(Work(first, r), Work(n, r), p, k);
    WorkIsProduct(n, r);
    WorkIsProduct(times, k);
  }

  /** Closer to the total than one circle either way leaves the floor and the ceiling of the quotient. */
  lemma FloorOrCeiling(total: nat, times: nat, k: nat)
    requires k > 0 && total - k < times * k < total + k
    ensures times == total / k || (times == total / k + 1 && total % k != 0)
  {
    var floor, rest := total / k, total % k;
    assert total == k * floor + rest;
    assert k * (times - floor) == times * k - k * floor;
    if rest == 0 { OnlyZero(k, times - floor); }
    if times - floor >= 2 { AtLeastOnce(k, times - floor - 1); }
    if times - floor <= -1 { AtLeastOnce(k, floor - times); }
  }

  /**
   * Balance on every stretch of requests: over any n consecutive requests each shard has been protected either
   * floor(n * r / k) or ceil(n * r / k) times.
   */
  lemma EveryStretchIsBalanced(permutation: seq<ShardId>, first: nat, n: nat, r: nat, shard: ShardId)
    requires IsShuffle(permutation, |permutation|) && shard < |permutation| && r <= |permutation|
    ensures var k, times := |permutation|, Protected(permutation, first, n, r, shard);
      times == n * r / k || (times == n * r / k + 1 && n * r % k != 0)
  {
    var p := ShuffleCovers(permutation, shard);
    BalancedAt(permutation, first, n, r, p);
    FloorOrCeiling(n * r, Protected(permutation, first, n, r, shard), |permutation|);
  }

  lemma {:induction false} SameWork(a: nat, b: nat, k: nat)
    requires k > 0 && Work(a, k) == Work(b, k)
    ensures a == b
  {
    if a > 0 && b > 0 { SameWork(a - 1, b - 1, k); }
  }

  /** And over k consecutive requests each shard exactly r times. */
  lemma FullRoundIsExact(permutation: seq<ShardId>, first: nat, r: nat, shard: ShardId)
    requires IsShuffle(permutation, |permutation|) && shard < |permutation| && r <= |permutation|
    ensures Protected(permutation, first, |permutation|, r, shard) == r
  {
    var p := ShuffleCovers(permutation, shard);
    var k, from := |permutation|, Work(first, r);
    ProtectedIsVisits(permutation, first, k, r, p);
    WorkCommutes(k, r);
    FullCircles(from, r, k);
    VisitsAreEven(from, Work(r, k), p, k);
    SameWork(Visits(from, Work(r, k), p, k), r, k);
  }
}
