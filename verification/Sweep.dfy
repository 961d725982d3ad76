/** The sweep's baseline, exact wait oracle and percentile, and what recovery buys against waiting. */
module Sweep {
  import opened Shards
  import opened Policy
  import opened Queueing
  import opened Events
  import opened ClusterSimulator
  import opened NaturalCompletion

  // ---------- the baseline: wait for every systematic shard ----------

  /** Latest systematic arrival by request. */
  function CompletionTimes(events: seq<Event>, k: nat): map<RequestId, int> {
    if events == [] then map[]
    else
      var before, e := CompletionTimes(events[..|events| - 1], k), events[|events| - 1];
      if e.shard >= k then before
      else if e.request !in before then before[e.request := e.arrival]
      else before[e.request := Max(before[e.request], e.arrival)]
  }

  method GetNaturalCompletionTimes(events: seq<Event>, k: nat) returns (times: map<RequestId, int>)
    ensures times == CompletionTimes(events, k)
  {
    times := map[];
    for i := 0 to |events|
      invariant times == CompletionTimes(events[..i], k)
    {
      var e := events[i];
      assert events[..i + 1][..i] == events[..i] && events[..i + 1][i] == e;
      if e.shard < k {
        if e.request !in times {
          times := times[e.request := e.arrival];
        } else {
          times := times[e.request := Max(times[e.request], e.arrival)];
        }
      }
    }
    assert events[..|events|] == events;
  }

  predicate IsSystematic(events: seq<Event>, k: nat, id: RequestId, i: nat) {
    i < |events| && events[i].request == id && events[i].shard < k
  }

  /** The recorded time is attained by a systematic arrival of the request and bounds all of them. */
  lemma {:induction false} CompletionIsLatest(events: seq<Event>, k: nat, id: RequestId)
    ensures id in CompletionTimes(events, k) <==> exists i: nat :: IsSystematic(events, k, id, i)
    ensures id in CompletionTimes(events, k) ==>
      && (exists i: nat :: IsSystematic(events, k, id, i) && events[i].arrival == CompletionTimes(events, k)[id])
      && (forall i: nat | IsSystematic(events, k, id, i) :: events[i].arrival <= CompletionTimes(events, k)[id])
  {
    if events != [] {
      var n := |events| - 1;
      var front := events[..n];
      CompletionIsLatest(front, k, id);
      assert forall i | 0 <= i < n :: IsSystematic(front, k, id, i) <==> IsSystematic(events, k, id, i);
      assert IsSystematic(events, k, id, n) <==> events[n].request == id && events[n].shard < k;
      assert forall i: nat | IsSystematic(events, k, id, i) :: i < n || i == n;
      if id in CompletionTimes(front, k) {
        var i: nat :| IsSystematic(front, k, id, i) && front[i].arrival == CompletionTimes(front, k)[id];
        assert IsSystematic(events, k, id, i);
      }
    }
  }

  predicate SharedStarts(events: seq<Event>) {
    forall i, j | 0 <= i < |events| && 0 <= j < |events| && events[i].request == events[j].request ::
      events[i].start == events[j].start
  }

  function Waited(latency: int): RequestMetrics {
    RequestMetrics(latency, false, false, false, false, false)
  }

  function WaitedFor(times: map<RequestId, int>, starts: map<RequestId, int>): Option<Metrics> {
    if starts.Keys <= times.Keys then Some(map id | id in starts :: Waited(times[id] - starts[id])) else None
  }

  function Baseline(events: seq<Event>, k: nat): Option<Metrics> {
    if SharedStarts(events) then WaitedFor(CompletionTimes(events, k), StartTimes(events)) else None
  }

  predicate StartsMatch(events: seq<Event>, n: nat, starts: map<RequestId, int>)
    requires n <= |events|
  {
    forall i | 0 <= i < n :: events[i].request in starts && starts[events[i].request] == events[i].start
  }

  lemma MatchingStartsAreShared(events: seq<Event>, starts: map<RequestId, int>)
    requires StartsMatch(events, |events|, starts)
    ensures SharedStarts(events)
  {}

  lemma MismatchIsNotShared(events: seq<Event>, i: nat)
    requires i < |events| && events[i].request in StartTimes(events[..i])
    requires StartTimes(events[..i])[events[i].request] != events[i].start
    ensures !SharedStarts(events)
  {
    var j := StartTimesAreStarts(events[..i], events[i].request);
    assert events[j].request == events[i].request && events[j].start != events[i].start;
  }

  method CollectStarts(events: seq<Event>) returns (ok: bool, starts: map<RequestId, int>)
    ensures ok <==> SharedStarts(events)
    ensures ok ==> starts == StartTimes(events)
  {
    starts := map[];
    for i := 0 to |events|
      invariant starts == StartTimes(events[..i]) && StartsMatch(events, i, starts)
    {
      var e := events[i];
      RequestsOfNext(events, i);
      if e.request !in starts {
        starts := starts[e.request := e.start];
      } else if starts[e.request] != e.start {
        MismatchIsNotShared(events, i);
        return false, starts;
      }
    }
    assert events[..|events|] == events;
    MatchingStartsAreShared(events, starts);
    return true, starts;
  }

  method RunBaseline(events: seq<Event>, k: nat) returns (r: Option<Metrics>)
    ensures r == Baseline(events, k)
  {
    var times := GetNaturalCompletionTimes(events, k);
    var ok, starts := CollectStarts(events);
    if !ok || exists id | id in starts :: id !in times { return None; }
    return Some(map id | id in starts :: Waited(times[id] - starts[id]));
  }

  /** i is a systematic arrival of the request, and none is later. */
  predicate IsLastSystematic(events: seq<Event>, k: nat, id: RequestId, i: nat) {
    && IsSystematic(events, k, id, i)
    && forall j | 0 <= j < |events| && IsSystematic(events, k, id, j) :: events[j].arrival <= events[i].arrival
  }

  lemma BaselineStart(events: seq<Event>, i: nat)
    requires SharedStarts(events) && i < |events|
    ensures events[i].request in StartTimes(events) && StartTimes(events)[events[i].request] == events[i].start
  {
    assert events[i].request in RequestsOf(events);
    var j := StartTimesAreStarts(events, events[i].request);
  }

  /**
   * The baseline exists exactly when events of one request share its start and every request has a systematic arrival;
   * a request then waits from its start to its last systematic arrival, without any recovery.
   */
  lemma BaselineIsExact(events: seq<Event>, k: nat)
    ensures Baseline(events, k).Some? <==>
      && SharedStarts(events) && forall id | id in RequestsOf(events) :: exists i: nat :: IsSystematic(events, k, id, i)
    ensures Baseline(events, k).Some? ==>
      && Baseline(events, k).value.Keys == RequestsOf(events)
      && forall id | id in Baseline(events, k).value :: exists i: nat ::
           && IsLastSystematic(events, k, id, i)
           && Baseline(events, k).value[id]
                == RequestMetrics(events[i].arrival - events[i].start, false, false, false, false, false)
  {
    forall id: RequestId ensures id in CompletionTimes(events, k) <==> exists i: nat :: IsSystematic(events, k, id, i) {
      CompletionIsLatest(events, k, id);
    }
    if Baseline(events, k).Some? {
      forall id | id in Baseline(events, k).value
        ensures exists i: nat ::
          && IsLastSystematic(events, k, id, i)
          && Baseline(events, k).value[id]
               == RequestMetrics(events[i].arrival - events[i].start, false, false, false, false, false)
      {
        CompletionIsLatest(events, k, id);
        var i: nat :| IsSystematic(events, k, id, i) && events[i].arrival == CompletionTimes(events, k)[id];
        BaselineStart(events, i);
        assert IsLastSystematic(events, k, id, i);
      }
    }
  }

  // ---------- recovery never loses to waiting ----------

  lemma PermutationKeepsSystematic(a: seq<Event>, b: seq<Event>, k: nat, id: RequestId, i: nat) returns (j: nat)
    requires multiset(a) == multiset(b) && IsSystematic(a, k, id, i)
    ensures IsSystematic(b, k, id, j) && b[j] == a[i]
  {
    j := SameElements(a, b, i);
  }

  /** The natural completion time is never later than the last systematic arrival. */
  lemma FirstCompleteIsInTime(events: seq<Event>, ordered: seq<Event>, k: nat, id: RequestId, t: int)
    requires multiset(ordered) == multiset(events) && k > 0 && FirstComplete(ordered, k, id, t)
    ensures id in CompletionTimes(events, k) && t <= CompletionTimes(events, k)[id]
  {
    CompletionIsLatest(events, k, id);
    assert ArrivesBy(ordered, id, 0, t);
    var x :| 0 <= x < |ordered| && ordered[x].request == id && ordered[x].shard == 0 && ordered[x].arrival <= t;
    var y := PermutationKeepsSystematic(ordered, events, k, id, x);
    var last := CompletionTimes(events, k)[id];
    forall shard: ShardId | shard < k ensures ArrivesBy(ordered, id, shard, last) {
      assert ArrivesBy(ordered, id, shard, t);
      var i :| 0 <= i < |ordered| && ordered[i].request == id && ordered[i].shard == shard && ordered[i].arrival <= t;
      var j := PermutationKeepsSystematic(ordered, events, k, id, i);
    }
    assert CompleteBy(ordered, k, id, last);
  }

  /** No systematic shard of a request arrives twice. */
  predicate OneArrivalEach(events: seq<Event>, k: nat) {
    forall i, j | 0 <= i < j < |events| && events[i].shard == events[j].shard < k ::
      events[i].request != events[j].request
  }

  lemma OneArrivalTime(events: seq<Event>, k: nat, i: nat, j: nat)
    requires OneArrivalEach(events, k) && i < |events| && j < |events|
    requires events[i].shard == events[j].shard < k && events[i].request == events[j].request
    ensures events[i] == events[j]
  {
    assert i == j;
  }

  /** With one arrival per shard it is exactly the last systematic arrival. */
  lemma FirstCompleteIsLast(events: seq<Event>, ordered: seq<Event>, k: nat, id: RequestId, t: int)
    requires multiset(ordered) == multiset(events) && OneArrivalEach(events, k)
    requires k > 0 && FirstComplete(ordered, k, id, t)
    ensures id in CompletionTimes(events, k) && t == CompletionTimes(events, k)[id]
  {
    FirstCompleteIsInTime(events, ordered, k, id, t);
    CompletionIsLatest(events, k, id);
    var last: nat :| IsSystematic(events, k, id, last) && events[last].arrival == CompletionTimes(events, k)[id];
    assert ArrivesBy(ordered, id, events[last].shard, t);
    var shard := events[last].shard;
    var i :| 0 <= i < |ordered| && ordered[i].request == id && ordered[i].shard == shard && ordered[i].arrival <= t;
    var j := PermutationKeepsSystematic(ordered, events, k, id, i);
    OneArrivalTime(events, k, j, last);
  }

  lemma SameStart(events: seq<Event>, ordered: seq<Event>, id: RequestId)
    requires multiset(ordered) == multiset(events) && ConsistentStarts(events) && id in RequestsOf(ordered)
    ensures id in RequestsOf(events) && StartTimes(ordered)[id] == StartTimes(events)[id]
  {
    var i := StartTimesAreStarts(ordered, id);
    var j := SameElements(ordered, events, i);
    assert events[j].request in RequestsOf(events);
    var x := StartTimesAreStarts(events, id);
  }

  lemma SameRequests(events: seq<Event>, ordered: seq<Event>)
    requires multiset(ordered) == multiset(events)
    ensures RequestsOf(events) == RequestsOf(ordered)
  {
    forall id | id in RequestsOf(events) ensures id in RequestsOf(ordered) {
      var i :| 0 <= i < |events| && events[i].request == id;
      var j := SameElements(events, ordered, i);
    }
    forall id | id in RequestsOf(ordered) ensures id in RequestsOf(events) {
      var i :| 0 <= i < |ordered| && ordered[i].request == id;
      var j := SameElements(ordered, events, i);
    }
  }

  /** What a finished run knows about one request, in terms of the events as given. */
  lemma FinishedRequest(c: Config, q: Queue, events: seq<Event>, id: RequestId) returns (o: Outcomes)
    requires ValidConfig(c) && QueueFits(q) && Outcome(c, q, events).0.Some? && id in Outcome(c, q, events).0.value
    ensures id in RequestsOf(events) && id in CompletionTimes(events, c.k) && id in o.natural
    ensures o.natural[id] <= CompletionTimes(events, c.k)[id]
    ensures OneArrivalEach(events, c.k) ==> o.natural[id] == CompletionTimes(events, c.k)[id]
    ensures Outcome(c, q, events).0.value[id] == MetricsOf(o, id, StartTimes(events)[id])
    ensures Rest(c, SortEvents(events), 0, Start(c.n, SortEvents(events), q)).Finished?
    ensures o == Rest(c, SortEvents(events), 0, Start(c.n, SortEvents(events), q)).sim.outcomes
  {
    var ordered := SortEvents(events);
    SortEventsSorts(events);
    StartsOfPermutation(ordered, events);
    NaturalIsFirstComplete(c, q, ordered);
    o := Rest(c, ordered, 0, Start(c.n, ordered, q)).sim.outcomes;
    FirstCompleteIsInTime(events, ordered, c.k, id, o.natural[id]);
    if OneArrivalEach(events, c.k) { FirstCompleteIsLast(events, ordered, c.k, id, o.natural[id]); }
    SameStart(events, ordered, id);
  }

  lemma FinishedKeys(c: Config, q: Queue, events: seq<Event>)
    requires ValidConfig(c) && QueueFits(q) && Outcome(c, q, events).0.Some?
    ensures Outcome(c, q, events).0.value.Keys == RequestsOf(events) && ConsistentStarts(events)
  {
    SortEventsSorts(events);
    StartsOfPermutation(SortEvents(events), events);
    SameRequests(events, SortEvents(events));
  }

  predicate NoWorse(metrics: Metrics, waited: Metrics) {
    metrics.Keys == waited.Keys && forall id | id in metrics :: metrics[id].latency <= waited[id].latency
  }

  lemma BoundedByBaseline(events: seq<Event>, k: nat, metrics: Metrics)
    requires metrics.Keys == RequestsOf(events) && ConsistentStarts(events)
    requires forall id | id in metrics ::
      id in CompletionTimes(events, k) && metrics[id].latency <= CompletionTimes(events, k)[id] - StartTimes(events)[id]
    ensures Baseline(events, k).Some? && NoWorse(metrics, Baseline(events, k).value)
  {}

  lemma RequestNeverLoses(c: Config, q: Queue, events: seq<Event>, id: RequestId)
    requires ValidConfig(c) && QueueFits(q) && Outcome(c, q, events).0.Some? && id in Outcome(c, q, events).0.value
    ensures id in CompletionTimes(events, c.k) && id in StartTimes(events)
    ensures Outcome(c, q, events).0.value[id].latency <= CompletionTimes(events, c.k)[id] - StartTimes(events)[id]
  {
    var o := FinishedRequest(c, q, events, id);
  }

  /**
   * Recovery never loses to waiting: whenever the simulation finishes, so does the baseline, on the same requests, and
   * no request's latency exceeds its baseline latency. This holds for every queue, policy, estimate and wait oracle.
   */
  lemma RecoveryNeverLoses(c: Config, q: Queue, events: seq<Event>)
    requires ValidConfig(c) && QueueFits(q) && Outcome(c, q, events).0.Some?
    ensures Baseline(events, c.k).Some? && NoWorse(Outcome(c, q, events).0.value, Baseline(events, c.k).value)
  {
    FinishedKeys(c, q, events);
    forall id | id in Outcome(c, q, events).0.value
      ensures id in CompletionTimes(events, c.k) && id in StartTimes(events)
      ensures Outcome(c, q, events).0.value[id].latency <= CompletionTimes(events, c.k)[id] - StartTimes(events)[id]
    {
      RequestNeverLoses(c, q, events, id);
    }
    BoundedByBaseline(events, c.k, Outcome(c, q, events).0.value);
  }

  // ---------- the exact wait oracle ----------

  /** The sweep's oracle: the time until the request's last systematic arrival, never negative. */
  function ExactWait(times: map<RequestId, int>): (RequestId, int) -> int {
    (id: RequestId, now: int) => if id in times then Max(times[id] - now, 0) else 0
  }

  predicate RecoversInTime(times: map<RequestId, int>, o: Outcomes) {
    forall id | id in o.recovery :: id in times && o.recovery[id] < times[id]
  }

  lemma DecisionIsInTime(c: Config, q: Queue, o: Outcomes, tracker: Arrivals, id: RequestId, now: int,
                         times: map<RequestId, int>)
    requires ValidConfig(c) && QueueFits(q) && |tracker| == c.n
    requires c.wait == ExactWait(times) && RecoversInTime(times, o)
    requires Decide(c, q, o, tracker, id, now).Some?
    ensures RecoversInTime(times, Decide(c, q, o, tracker, id, now).value.1)
  {
    assert c.wait(id, now) == if id in times then Max(times[id] - now, 0) else 0;
    var plan := c.policy(tracker);
    var quote := Quote(q, now, c.service(plan));
    assert quote.Cost? ==> quote.cost > 0;
  }

  lemma {:induction false} RestIsInTime(c: Config, events: seq<Event>, i: nat, s: Sim, times: map<RequestId, int>)
    requires ValidConfig(c) && Fits(c.n, s) && Tracked(events, s) && i <= |events|
    requires c.wait == ExactWait(times) && RecoversInTime(times, s.outcomes) && Rest(c, events, i, s).Finished?
    ensures RecoversInTime(times, Rest(c, events, i, s).sim.outcomes)
    decreases |events| - i
  {
    if i < |events| {
      var ready := if Opens(events, i) then OpenTime(s, events[i].arrival).value else s;
      var next := HandleGroup(c, events, i, ready).value;
      var e := events[i];
      DecisionIsInTime(c, ready.queue, ready.outcomes, next.trackers[e.request], e.request, e.arrival, times);
      RestIsInTime(c, events, GroupEnd(events, i), next, times);
    }
  }

  /**
   * With the exact wait oracle and one arrival per shard, admission is never in vain: a request's recovery is admitted
   * if and only if it wins.
   */
  lemma AdmittedIffWon(c: Config, q: Queue, events: seq<Event>, id: RequestId)
    requires ValidConfig(c) && QueueFits(q) && OneArrivalEach(events, c.k)
    requires c.wait == ExactWait(CompletionTimes(events, c.k))
    requires Outcome(c, q, events).0.Some? && id in Outcome(c, q, events).0.value
    ensures Outcome(c, q, events).0.value[id].admitted <==> Outcome(c, q, events).0.value[id].won
  {
    var o := FinishedRequest(c, q, events, id);
    var ordered := SortEvents(events);
    RestIsInTime(c, ordered, 0, Start(c.n, ordered, q), CompletionTimes(events, c.k));
  }

  // ---------- percentiles ----------

  function SortTimes(values: seq<int>): (r: seq<int>)
    ensures |r| == |values|
  {
    if values == [] then [] else Inserted(SortTimes(values[..|values| - 1]), values[|values| - 1])
  }

  function CountAtMost(values: seq<int>, v: int): nat {
    if values == [] then 0
    else CountAtMost(values[..|values| - 1], v) + if values[|values| - 1] <= v then 1 else 0
  }

  lemma {:induction false} CountConcat(a: seq<int>, b: seq<int>, v: int)
    ensures CountAtMost(a + b, v) == CountAtMost(a, v) + CountAtMost(b, v)
  {
    if b == [] {
      assert a + b == a;
    } else {
      assert (a + b)[..|a + b| - 1] == a + b[..|b| - 1];
      CountConcat(a, b[..|b| - 1], v);
    }
  }

  lemma InsertedCounts(s: seq<int>, x: int, v: int)
    ensures CountAtMost(Inserted(s, x), v) == CountAtMost(s, v) + if x <= v then 1 else 0
  {
    var i := UpperBound(s, x);
    assert s == s[..i] + s[i..];
    CountConcat(s[..i], s[i..], v);
    CountConcat(s[..i] + [x], s[i..], v);
    CountConcat(s[..i], [x], v);
    assert CountAtMost([x], v) == if x <= v then 1 else 0;
  }

  lemma {:induction false} SortTimesSorts(values: seq<int>)
    ensures Sorted(SortTimes(values)) && multiset(SortTimes(values)) == multiset(values)
  {
    if values != [] {
      var front, x := values[..|values| - 1], values[|values| - 1];
      SortTimesSorts(front);
      InsertedIsSorted(SortTimes(front), x);
      InsertedElements(SortTimes(front), x);
      assert values == front + [x];
    }
  }

  lemma {:induction false} SortTimesCounts(values: seq<int>, v: int)
    ensures CountAtMost(SortTimes(values), v) == CountAtMost(values, v)
  {
    if values != [] {
      SortTimesCounts(values[..|values| - 1], v);
      InsertedCounts(SortTimes(values[..|values| - 1]), values[|values| - 1], v);
    }
  }

  /** In a sorted sequence more than r values are at most v exactly when the r-th is. */
  lemma {:induction false} SortedCount(s: seq<int>, r: nat, v: int)
    requires Sorted(s) && r < |s|
    ensures s[r] <= v <==> CountAtMost(s, v) > r
  {
    var front := s[..|s| - 1];
    CountIsBounded(front, v);
    if r < |s| - 1 {
      SortedCount(front, r, v);
    } else if s[r] <= v {
      AllCount(front, v);
    }
  }

  lemma {:induction false} CountIsBounded(s: seq<int>, v: int)
    ensures CountAtMost(s, v) <= |s|
  {
    if s != [] { CountIsBounded(s[..|s| - 1], v); }
  }

  lemma {:induction false} AllCount(s: seq<int>, v: int)
    requires forall i | 0 <= i < |s| :: s[i] <= v
    ensures CountAtMost(s, v) == |s|
  {
    if s != [] { AllCount(s[..|s| - 1], v); }
  }

  lemma {:induction false} SmallerValuesCountMore(a: seq<int>, b: seq<int>, v: int)
    requires |a| == |b| && forall i | 0 <= i < |a| :: a[i] <= b[i]
    ensures CountAtMost(a, v) >= CountAtMost(b, v)
  {
    if a != [] { SmallerValuesCountMore(a[..|a| - 1], b[..|b| - 1], v); }
  }

  /** The least integer that is not below x. */
  function Ceil(x: real): (r: int)
    ensures x <= r as real < x + 1.0
  {
    -((-x).Floor)
  }

  /** The rank a percentage asks for; a rank below one counts as one. */
  function Rank(percentage: real, n: nat): (r: int)
    ensures r >= 1 && percentage * n as real <= r as real
    ensures r > 1 ==> r as real < percentage * n as real + 1.0
  {
    Max(1, Ceil(percentage * n as real))
  }

  /** Nearest-rank percentile. */
  function PercentileOf(values: seq<int>, percentage: real): Option<int> {
    var r := Rank(percentage, |values|);
    if values == [] || r > |values| then None else Some(SortTimes(values)[r - 1])
  }

  method SortedTimes(values: seq<int>) returns (ordered: seq<int>)
    ensures ordered == SortTimes(values)
  {
    ordered := [];
    for i := 0 to |values|
      invariant ordered == SortTimes(values[..i])
    {
      assert values[..i + 1][..i] == values[..i];
      ordered := Inserted(ordered, values[i]);
    }
    assert values[..|values|] == values;
  }

  /** Sorts a copy and picks the rank. Rounding the percentage up to a rank below zero would not be defined. */
  method Percentile(values: seq<int>, percentage: real) returns (v: Option<int>)
    requires Ceil(percentage * |values| as real) >= 0
    ensures v == PercentileOf(values, percentage)
  {
    if values == [] { return None; }
    var ordered := SortedTimes(values);
    var rank := Ceil(percentage * |values| as real);
    var at := Max(1, rank) - 1;
    return if at >= |values| then None else Some(ordered[at]);
  }

  lemma RankIsWithin(percentage: real, n: nat)
    requires n > 0
    ensures Rank(percentage, n) <= n <==> percentage <= 1.0
  {
    var x, y := percentage * n as real, n as real;
    if percentage <= 1.0 {
      assert x <= y;
      assert Rank(percentage, n) > n ==> Rank(percentage, n) as real >= y + 1.0;
    } else {
      assert (percentage - 1.0) * y > 0.0;
      assert x > y;
    }
  }

  /**
   * What the percentile is: the smallest of the values such that at least that share of all values do not exceed it.
   * There is one exactly when there are values and the percentage is at most 1.
   */
  lemma PercentileIsSmallest(values: seq<int>, percentage: real)
    ensures PercentileOf(values, percentage).Some? <==> values != [] && percentage <= 1.0
    ensures PercentileOf(values, percentage).Some? ==>
      var v := PercentileOf(values, percentage).value;
      && v in values && CountAtMost(values, v) as real >= percentage * |values| as real
      && forall w: int | w < v ::
           CountAtMost(values, w) == 0 || CountAtMost(values, w) as real < percentage * |values| as real
  {
    if values != [] {
      RankIsWithin(percentage, |values|);
      if percentage <= 1.0 {
        var ordered, r := SortTimes(values), Rank(percentage, |values|) - 1;
        var v := ordered[r];
        SortTimesSorts(values);
        assert v in multiset(ordered) && v in multiset(values);
        SortTimesCounts(values, v);
        SortedCount(ordered, r, v);
        forall w: int | w < v
          ensures CountAtMost(values, w) == 0 || CountAtMost(values, w) as real < percentage * |values| as real
        {
          SortTimesCounts(values, w);
          SortedCount(ordered, r, w);
        }
      }
    }
  }

  /** Pointwise smaller values have smaller percentiles. */
  lemma PercentileIsMonotone(a: seq<int>, b: seq<int>, percentage: real)
    requires |a| == |b| && forall i | 0 <= i < |a| :: a[i] <= b[i]
    ensures PercentileOf(a, percentage).Some? <==> PercentileOf(b, percentage).Some?
    ensures PercentileOf(a, percentage).Some? ==> PercentileOf(a, percentage).value <= PercentileOf(b, percentage).value
  {
    var r := Rank(percentage, |a|);
    if a != [] && r <= |a| {
      var v := SortTimes(b)[r - 1];
      SortTimesSorts(a);
      SortTimesSorts(b);
      SortTimesCounts(a, v);
      SortTimesCounts(b, v);
      SortedCount(SortTimes(b), r - 1, v);
      SmallerValuesCountMore(a, b, v);
      SortedCount(SortTimes(a), r - 1, v);
    }
  }

  function Latencies(metrics: Metrics, ids: seq<RequestId>): seq<int>
    requires forall i | 0 <= i < |ids| :: ids[i] in metrics
  {
    seq(|ids|, i requires 0 <= i < |ids| => metrics[ids[i]].latency)
  }

  predicate PercentileNoWorse(metrics: Metrics, waited: Metrics, ids: seq<RequestId>, percentage: real)
    requires forall i | 0 <= i < |ids| :: ids[i] in metrics && ids[i] in waited
  {
    var a, b := PercentileOf(Latencies(metrics, ids), percentage), PercentileOf(Latencies(waited, ids), percentage);
    if a.Some? then b.Some? && a.value <= b.value else b.None?
  }

  lemma NoWorsePercentile(metrics: Metrics, waited: Metrics, ids: seq<RequestId>, percentage: real)
    requires NoWorse(metrics, waited) && forall i | 0 <= i < |ids| :: ids[i] in metrics
    ensures forall i | 0 <= i < |ids| :: ids[i] in waited
    ensures PercentileNoWorse(metrics, waited, ids, percentage)
  {
    PercentileIsMonotone(Latencies(metrics, ids), Latencies(waited, ids), percentage);
  }

  /**
   * So every percentile of the coded latencies is at most the baseline's, whatever order the requests are listed in.
   */
  lemma PercentilesNeverLose(c: Config, q: Queue, events: seq<Event>, ids: seq<RequestId>, percentage: real)
    requires ValidConfig(c) && QueueFits(q) && Outcome(c, q, events).0.Some?
    requires forall i | 0 <= i < |ids| :: ids[i] in Outcome(c, q, events).0.value
    ensures Baseline(events, c.k).Some? && forall i | 0 <= i < |ids| :: ids[i] in Baseline(events, c.k).value
    ensures PercentileNoWorse(Outcome(c, q, events).0.value, Baseline(events, c.k).value, ids, percentage)
  {
    RecoveryNeverLoses(c, q, events);
    NoWorsePercentile(Outcome(c, q, events).0.value, Baseline(events, c.k).value, ids, percentage);
  }
}
