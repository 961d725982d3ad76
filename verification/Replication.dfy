/** Replicated arrivals: the sooner of a shard's own arrival and its replica's. */
module Replication {
  import opened Shards
  import opened Graphs
  import opened Events
  import opened ClusterSimulator
  import opened Sweep
  import Replicas

  function Min(a: int, b: int): int { if b < a then b else a }

  /** The event's shard is systematic and, if only some shards are replicated, selected for its request. */
  predicate IsReplicated(e: Event, k: nat, selection: Option<(seq<ShardId>, nat)>) {
    && e.shard < k
    && (selection.Some? && selection.value.0 != [] ==>
          Replicas.Protects(selection.value.0, e.request, selection.value.1, e.shard))
  }

  /** How many delays the sampler has given out after these events. */
  function Drawn(events: seq<Event>, k: nat, selection: Option<(seq<ShardId>, nat)>): nat {
    if events == [] then 0
    else
      Drawn(events[..|events| - 1], k, selection) + if IsReplicated(events[|events| - 1], k, selection) then 1 else 0
  }

  function Replicated(events: seq<Event>, k: nat, selection: Option<(seq<ShardId>, nat)>,
                      delays: nat -> nat): (r: seq<Event>)
    ensures |r| == |events|
  {
    if events == [] then []
    else
      var front, e := events[..|events| - 1], events[|events| - 1];
      Replicated(front, k, selection, delays)
        + [if IsReplicated(e, k, selection)
           then e.(arrival := Min(e.arrival, e.start + delays(Drawn(front, k, selection)))) else e]
  }

  lemma ReplicatedNext(events: seq<Event>, i: nat, k: nat, selection: Option<(seq<ShardId>, nat)>, delays: nat -> nat)
    requires i < |events|
    ensures Drawn(events[..i + 1], k, selection)
      == Drawn(events[..i], k, selection) + if IsReplicated(events[i], k, selection) then 1 else 0
    ensures Replicated(events[..i + 1], k, selection, delays)
      == Replicated(events[..i], k, selection, delays)
         + [if IsReplicated(events[i], k, selection)
            then events[i].(arrival := Min(events[i].arrival,
                                           events[i].start + delays(Drawn(events[..i], k, selection))))
            else events[i]]
  {
    assert events[..i + 1][..i] == events[..i] && events[..i + 1][i] == events[i];
  }

  /** Events refer to scheduled requests and carry their start times. */
  predicate MatchesSchedule(events: seq<Event>, requestArrivals: seq<int>) {
    forall i | 0 <= i < |events| ::
      events[i].request < |requestArrivals| && events[i].start == requestArrivals[events[i].request]
  }

  method Matches(events: seq<Event>, requestArrivals: seq<int>) returns (ok: bool)
    ensures ok <==> MatchesSchedule(events, requestArrivals)
  {
    for i := 0 to |events|
      invariant MatchesSchedule(events[..i], requestArrivals)
    {
      var e := events[i];
      if e.request >= |requestArrivals| || e.start != requestArrivals[e.request] { return false; }
    }
    assert events[..|events|] == events;
    return true;
  }

  /** A configuration; a rate or a probability that is not finite is None. Times are microseconds. */
  datatype WorkloadConfig = WorkloadConfig(numRequests: nat, arrivalRate: Option<real>,
                                           stragglerProbability: Option<real>,
                                           normalMean: int, normalStddev: int, stragglerMean: int, stragglerStddev: int)

  predicate ValidConfig(c: WorkloadConfig) {
    && c.numRequests > 0
    && c.arrivalRate.Some? && c.arrivalRate.value > 0.0
    && c.stragglerProbability.Some? && 0.0 <= c.stragglerProbability.value <= 1.0
    && c.normalMean >= 0 && c.normalStddev >= 0 && c.stragglerMean >= 0 && c.stragglerStddev >= 0
  }

  method ValidateConfig(c: WorkloadConfig) returns (ok: bool)
    ensures ok <==> ValidConfig(c)
  {
    if c.numRequests == 0 { return false; }
    if c.arrivalRate.None? || c.arrivalRate.value <= 0.0 { return false; }
    if c.stragglerProbability.None? || c.stragglerProbability.value < 0.0 || c.stragglerProbability.value > 1.0 {
      return false;
    }
    return c.normalMean >= 0 && c.normalStddev >= 0 && c.stragglerMean >= 0 && c.stragglerStddev >= 0;
  }

  method Chosen(e: Event, k: nat, selection: Option<(seq<ShardId>, nat)>) returns (chosen: bool)
    requires Replicas.ValidShardCount(k) && (selection.Some? ==> |selection.value.0| == k && selection.value.1 <= k)
    ensures chosen <==> IsReplicated(e, k, selection)
  {
    if e.shard >= k { return false; }
    if selection.None? { return true; }
    var selected := Replicas.SelectCapacityNormalizedReplicas(e.request, k, selection.value.1, selection.value.0);
    return e.shard in selected.value;
  }

  /**
   * Both replication strategies; a shuffle and a replica count select shards, otherwise all systematic ones are. The
   * request arrivals are those generated for the configuration.
   */
  method Apply(events: seq<Event>, config: WorkloadConfig, k: nat, selection: Option<(seq<ShardId>, nat)>,
               requestArrivals: seq<int>, delays: nat -> nat)
    returns (r: Option<seq<Event>>)
    requires ValidConfig(config) ==> |requestArrivals| == config.numRequests
    requires selection.Some? && Replicas.ValidShardCount(k) ==> |selection.value.0| == k
    ensures r ==
      if && ValidConfig(config) && Replicas.ValidShardCount(k) && (selection.Some? ==> selection.value.1 <= k)
         && MatchesSchedule(events, requestArrivals)
      then Some(Replicated(events, k, selection, delays)) else None
  {
    var valid := ValidateConfig(config);
    if !valid || k == 0 || k > SHARD_ID_COUNT - 1 { return None; }
    if selection.Some? && selection.value.1 > k { return None; }
    var scheduled := Matches(events, requestArrivals);
    if !scheduled { return None; }
    var replicated, drawn := events, 0;
    for i := 0 to |events|
      invariant |replicated| == |events| && drawn == Drawn(events[..i], k, selection)
      invariant replicated[..i] == Replicated(events[..i], k, selection, delays)
      invariant forall j | i <= j < |events| :: replicated[j] == events[j]
    {
      ReplicatedNext(events, i, k, selection, delays);
      var e := replicated[i];
      var chosen := Chosen(e, k, selection);
      if chosen {
        replicated := replicated[i := e.(arrival := Min(e.arrival, requestArrivals[e.request] + delays(drawn)))];
        drawn := drawn + 1;
      }
      assert replicated[..i + 1] == replicated[..i] + [replicated[i]];
    }
    assert events[..|events|] == events && replicated[..|events|] == replicated;
    return Some(replicated);
  }

  /** The events before the i-th that are replicated. */
  function ReplicatedBefore(events: seq<Event>, i: nat, k: nat, selection: Option<(seq<ShardId>, nat)>): set<nat>
    requires i <= |events|
  {
    set j: nat | j < i && IsReplicated(events[j], k, selection)
  }

  lemma {:induction false} DrawnCounts(events: seq<Event>, k: nat, selection: Option<(seq<ShardId>, nat)>)
    ensures Drawn(events, k, selection) == |ReplicatedBefore(events, |events|, k, selection)|
  {
    if events == [] {
      assert ReplicatedBefore(events, 0, k, selection) == {};
    } else {
      var last := |events| - 1;
      DrawnCounts(events[..last], k, selection);
      assert ReplicatedBefore(events, |events|, k, selection)
        == ReplicatedBefore(events[..last], last, k, selection)
           + if IsReplicated(events[last], k, selection) then {last} else {};
    }
  }

  lemma ReplicatedIsOnArc(e: Event, k: nat, selection: Option<(seq<ShardId>, nat)>)
    requires k > 0 && (selection.Some? ==> |selection.value.0| == k)
    ensures IsReplicated(e, k, selection) <==> e.shard < k && (selection.Some? ==>
      exists i | 0 <= i < selection.value.1 ::
        Replicas.ProtectedAt(selection.value.0, e.request, selection.value.1, i) == e.shard)
  {
    if selection.Some? {
      var (permutation, r) := selection.value;
      forall i: nat | i < r
        ensures Replicas.Select(permutation, e.request, r)[i] == Replicas.ProtectedAt(permutation, e.request, r, i)
      {
        Replicas.SelectAt(permutation, e.request, r, i);
      }
      if e.shard in Replicas.Select(permutation, e.request, r) {
        var i: nat :| i < r && Replicas.Select(permutation, e.request, r)[i] == e.shard;
        assert Replicas.ProtectedAt(permutation, e.request, r, i) == e.shard;
      }
    }
  }

  /**
   * Event by event: a systematic shard that is selected, if only some are, takes the sooner of its own arrival and the
   * replica's, whose delay after the request's start is the next of the sampled ones. Every other event stays as it is.
   */
  lemma ReplicatedIsExact(events: seq<Event>, k: nat, selection: Option<(seq<ShardId>, nat)>, delays: nat -> nat,
                          i: nat)
    requires i < |events| && k > 0 && (selection.Some? ==> |selection.value.0| == k)
    ensures var e, r := events[i], Replicated(events, k, selection, delays)[i];
      var chosen := e.shard < k && (selection.Some? ==>
        exists j | 0 <= j < selection.value.1 ::
          Replicas.ProtectedAt(selection.value.0, e.request, selection.value.1, j) == e.shard);
      if chosen then
        var replica := e.start + delays(|ReplicatedBefore(events, i, k, selection)|);
        && r == e.(arrival := r.arrival) && r.arrival <= e.arrival && r.arrival <= replica
        && (r.arrival == e.arrival || r.arrival == replica)
      else r == e
  {
    ReplicatedIsOnArc(events[i], k, selection);
    ReplicatedEach(events, k, selection, delays, i);
  }

  lemma {:induction false} ReplicatedEach(events: seq<Event>, k: nat, selection: Option<(seq<ShardId>, nat)>,
                                          delays: nat -> nat, i: nat)
    requires i < |events|
    ensures var e, r := events[i], Replicated(events, k, selection, delays)[i];
      if IsReplicated(e, k, selection) then
        var replica := e.start + delays(|ReplicatedBefore(events, i, k, selection)|);
        && r == e.(arrival := r.arrival) && r.arrival <= e.arrival && r.arrival <= replica
        && (r.arrival == e.arrival || r.arrival == replica)
      else r == e
  {
    var front := events[..|events| - 1];
    if i < |front| {
      ReplicatedEach(front, k, selection, delays, i);
    } else {
      DrawnCounts(front, k, selection);
    }
    assert ReplicatedBefore(front, i, k, selection) == ReplicatedBefore(events, i, k, selection);
  }

  /** The same events, none of them later. */
  predicate NoLater(sooner: seq<Event>, events: seq<Event>) {
    && |sooner| == |events|
    && forall i | 0 <= i < |events| ::
         sooner[i].arrival <= events[i].arrival && sooner[i] == events[i].(arrival := sooner[i].arrival)
  }

  lemma {:induction false} ReplicatedIsNoLater(events: seq<Event>, k: nat, selection: Option<(seq<ShardId>, nat)>,
                                               delays: nat -> nat)
    ensures NoLater(Replicated(events, k, selection, delays), events)
  {
    if events != [] {
      ReplicatedIsNoLater(events[..|events| - 1], k, selection, delays);
    }
  }

  lemma {:induction false} SoonerCompletes(sooner: seq<Event>, events: seq<Event>, k: nat)
    requires NoLater(sooner, events)
    ensures CompletionTimes(sooner, k).Keys == CompletionTimes(events, k).Keys
    ensures forall id | id in CompletionTimes(events, k) ::
      CompletionTimes(sooner, k)[id] <= CompletionTimes(events, k)[id]
    ensures StartTimes(sooner) == StartTimes(events)
  {
    if events != [] {
      SoonerCompletes(sooner[..|sooner| - 1], events[..|events| - 1], k);
    }
  }

  lemma SoonerIsNoWorse(sooner: seq<Event>, events: seq<Event>, k: nat)
    requires NoLater(sooner, events) && Baseline(events, k).Some?
    ensures Baseline(sooner, k).Some? && NoWorse(Baseline(sooner, k).value, Baseline(events, k).value)
  {
    SoonerCompletes(sooner, events, k);
    assert SharedStarts(sooner) by {
      forall i, j | 0 <= i < |sooner| && 0 <= j < |sooner| && sooner[i].request == sooner[j].request
        ensures sooner[i].start == sooner[j].start
      {
        assert events[i].request == events[j].request;
      }
    }
  }

  /** Replication never delays a request: its baseline exists whenever the original's does, and is no worse. */
  lemma ReplicationNeverDelays(events: seq<Event>, k: nat, selection: Option<(seq<ShardId>, nat)>, delays: nat -> nat)
    requires Baseline(events, k).Some?
    ensures Baseline(Replicated(events, k, selection, delays), k).Some?
    ensures NoWorse(Baseline(Replicated(events, k, selection, delays), k).value, Baseline(events, k).value)
  {
    ReplicatedIsNoLater(events, k, selection, delays);
    SoonerIsNoWorse(Replicated(events, k, selection, delays), events, k);
  }
}
