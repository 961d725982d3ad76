/** Arrival tracking and the recover-or-wait decision shared by the runtime and the simulators. */
module Policy {
  import opened Shards
  import opened Graphs
  import opened Peeling
  import Planner

  /** First arrival time of every shard, by id. */
  type Arrivals = seq<Option<int>>

  function NoArrivals(n: nat): Arrivals {
    seq(n, _ => None)
  }

  /** The earliest time wins. */
  function Mark(a: Arrivals, id: ShardId, now: int): Arrivals
    requires id < |a|
  {
    if a[id].None? || now < a[id].value then a[id := Some(now)] else a
  }

  predicate SystematicComplete(k: nat, a: Arrivals)
    requires k <= |a|
  {
    forall id | 0 <= id < k :: a[id].Some?
  }

  function Missing(k: nat, a: Arrivals): (r: set<ShardId>)
    requires k <= |a|
    ensures forall id :: id in r <==> 0 <= id < k && a[id].None?
  {
    set id | id in Range(0, k) && a[id].None?
  }

  function ArrivedParity(g: BipartiteGraph, a: Arrivals): (r: set<ShardId>)
    requires |a| == g.k + g.m
    ensures forall id :: id in r <==> g.k <= id < g.k + g.m && a[id].Some?
  {
    set id | id in Range(g.k, g.k + g.m) && a[id].Some?
  }

  /** The plan for what has arrived so far. */
  function PlanFor(g: BipartiteGraph, a: Arrivals): DecodePlan
    requires ValidGraph(g) && |a| == g.k + g.m
  {
    PlanOf(g, Missing(g.k, a), ArrivedParity(g, a))
  }

  /** What has not arrived holds a non-empty stopping set for the parity that has. */
  ghost predicate Stopped(g: BipartiteGraph, a: Arrivals)
    requires ValidGraph(g) && |a| == g.k + g.m
  {
    exists s :: s != {} && IsStoppingSubset(g, ArrivedParity(g, a), Missing(g.k, a), s)
  }

  lemma PlanForStopped(g: BipartiteGraph, a: Arrivals)
    requires ValidGraph(g) && |a| == g.k + g.m
    ensures PlanFor(g, a).isRecoverable <==> !Stopped(g, a)
  {
    PlannerIsExact(g, Missing(g.k, a), ArrivedParity(g, a));
  }

  /** The tracker after marks of (shard, time) in order. */
  function Marked(n: nat, marks: seq<(ShardId, int)>): (a: Arrivals)
    requires forall i | 0 <= i < |marks| :: marks[i].0 < n
    ensures |a| == n
  {
    if marks == [] then NoArrivals(n)
    else
      var last := marks[|marks| - 1];
      Mark(Marked(n, marks[..|marks| - 1]), last.0, last.1)
  }

  /** In whatever order shards are marked, each has the earliest of its times, and none if it was never marked. */
  lemma {:induction false} EarliestIsKept(n: nat, marks: seq<(ShardId, int)>, id: ShardId)
    requires (forall i | 0 <= i < |marks| :: marks[i].0 < n) && id < n
    ensures Marked(n, marks)[id].Some? <==> exists i | 0 <= i < |marks| :: marks[i].0 == id
    ensures forall i | 0 <= i < |marks| && marks[i].0 == id :: Marked(n, marks)[id].value <= marks[i].1
    ensures Marked(n, marks)[id].Some? ==>
      exists i | 0 <= i < |marks| :: marks[i] == (id, Marked(n, marks)[id].value)
  {
    if marks != [] {
      var front, last := marks[..|marks| - 1], marks[|marks| - 1];
      EarliestIsKept(n, front, id);
      assert marks == front + [last];
      assert forall i | 0 <= i < |front| :: marks[i] == front[i];
      assert marks[|front|] == last;
    }
  }

  datatype Decision = Wait | Recover | CannotRecover

  /** Recover only when that is strictly cheaper than waiting. */
  function Evaluate(plan: DecodePlan, waitCost: int, recoveryCost: int): Decision {
    if !plan.isRecoverable then CannotRecover else if recoveryCost < waitCost then Recover else Wait
  }

  class ShardArrivalTracker {
    const systematicCount: nat
    const parityCount: nat
    const arrivals: array<Option<int>>

    ghost predicate Valid()
      reads this
    {
      0 < systematicCount && 0 < parityCount && arrivals.Length == systematicCount + parityCount
    }

    constructor (k: nat, m: nat)
      requires 0 < k && 0 < m && k + m <= SHARD_ID_COUNT
      ensures Valid() && systematicCount == k && parityCount == m && fresh(arrivals)
      ensures arrivals[..] == NoArrivals(k + m)
    {
      systematicCount, parityCount := k, m;
      arrivals := new Option<int>[k + m](_ => None);
    }

    /** Refuses an id that names no shard. */
    method MarkArrived(id: ShardId, now: int) returns (ok: bool)
      requires Valid()
      modifies arrivals
      ensures ok <==> id < arrivals.Length
      ensures arrivals[..] == if ok then Mark(old(arrivals[..]), id, now) else old(arrivals[..])
      ensures ok ==> arrivals[id] == Some(if old(arrivals[id]).Some? && old(arrivals[id]).value < now
                                          then old(arrivals[id]).value else now)
      ensures forall i | 0 <= i < arrivals.Length && i != id :: arrivals[i] == old(arrivals[i])
    {
      if id >= arrivals.Length { return false; }
      if arrivals[id].None? || now < arrivals[id].value {
        arrivals[id] := Some(now);
      }
      return true;
    }

    method IsSystematicComplete() returns (complete: bool)
      requires Valid()
      ensures complete <==> SystematicComplete(systematicCount, arrivals[..])
    {
      for id := 0 to systematicCount
        invariant forall i | 0 <= i < id :: arrivals[i].Some?
      {
        if arrivals[id].None? { return false; }
      }
      return true;
    }

    method GetMissingSystematic() returns (missing: set<ShardId>)
      requires Valid()
      ensures missing == Missing(systematicCount, arrivals[..])
      ensures forall id :: id in missing <==> 0 <= id < systematicCount && arrivals[id].None?
    {
      missing := {};
      for id := 0 to systematicCount
        invariant forall i :: i in missing <==> 0 <= i < id && arrivals[i].None?
      {
        if arrivals[id].None? {
          missing := missing + {id};
        }
      }
    }
  }

  /**
   * The policy's plan: collect what is missing and which parities arrived, then ask the planner. None for another code.
   */
  method CreatePlan(g: BipartiteGraph, tracker: ShardArrivalTracker) returns (plan: Option<DecodePlan>)
    requires ValidGraph(g) && tracker.Valid()
    ensures plan == if tracker.systematicCount == g.k && tracker.parityCount == g.m
                    then Some(PlanFor(g, tracker.arrivals[..])) else None
  {
    if tracker.systematicCount != g.k || tracker.parityCount != g.m { return None; }
    var available: set<ShardId> := {};
    for parity := g.k to g.k + g.m
      invariant forall p :: p in available <==> g.k <= p < parity && tracker.arrivals[p].Some?
    {
      if tracker.arrivals[parity].Some? {
        available := available + {parity};
      }
    }
    var missing := tracker.GetMissingSystematic();
    assert available == ArrivedParity(g, tracker.arrivals[..]);
    plan := Planner.CreatePlan(g, missing, available);
  }

  /**
   * Once everything has arrived the answer is to wait, whatever the costs and whatever the code. Before that it is to
   * recover exactly when nothing stops recovery and recovering is strictly cheaper.
   */
  method EvaluateTracker(g: BipartiteGraph, tracker: ShardArrivalTracker, waitCost: int, recoveryCost: int)
    returns (decision: Option<Decision>)
    requires ValidGraph(g) && tracker.Valid()
    ensures decision ==
      if SystematicComplete(tracker.systematicCount, tracker.arrivals[..]) then Some(Wait)
      else if tracker.systematicCount != g.k || tracker.parityCount != g.m then None
      else Some(Evaluate(PlanFor(g, tracker.arrivals[..]), waitCost, recoveryCost))
    ensures var a, sameCode := tracker.arrivals[..], tracker.systematicCount == g.k && tracker.parityCount == g.m;
      var complete := forall id | 0 <= id < tracker.systematicCount :: a[id].Some?;
      && (decision == None <==> !complete && !sameCode)
      && (decision == Some(Recover) <==> !complete && sameCode && !Stopped(g, a) && recoveryCost < waitCost)
      && (decision == Some(CannotRecover) <==> !complete && sameCode && Stopped(g, a))
      && (decision == Some(Wait) <==> complete || (sameCode && !Stopped(g, a) && recoveryCost >= waitCost))
  {
    if tracker.systematicCount == g.k && tracker.parityCount == g.m {
      PlanForStopped(g, tracker.arrivals[..]);
    }
    var complete := tracker.IsSystematicComplete();
    if complete { return Some(Wait); }
    var plan := CreatePlan(g, tracker);
    if plan.None? { return None; }
    return Some(Evaluate(plan.value, waitCost, recoveryCost));
  }
}
