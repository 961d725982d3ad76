/** What the single-request simulator's result means, in terms of the arrivals alone. */
module RequestOutcome {
  import opened Shards
  import opened Policy
  import opened RequestSimulation

  predicate ArrivesAt(events: seq<ShardArrival>, shard: ShardId, t: int) {
    exists e | e in events :: e.shard == shard && e.arrival == t
  }

  /** The earliest arrivals of all shards by time t. */
  predicate HasArrived(events: seq<ShardArrival>, t: int, a: Arrivals) {
    && (forall shard | 0 <= shard < |a| && a[shard].Some? ::
          a[shard].value <= t && ArrivesAt(events, shard, a[shard].value))
    && forall e | e in events && e.shard < |a| ::
         if a[e.shard].Some? then a[e.shard].value <= e.arrival else t < e.arrival
  }

  /** Recovering at t is possible and strictly cheaper than waiting. */
  ghost predicate Worthwhile(c: Setup, events: seq<ShardArrival>, t: int) {
    exists a: Arrivals :: && |a| == c.n && HasArrived(events, t, a) && c.policy(a).isRecoverable
                          && c.costs(t).recovery < c.costs(t).wait
  }

  predicate ArrivesBy(events: seq<ShardArrival>, shard: ShardId, t: int) {
    exists e | e in events :: e.shard == shard && e.arrival <= t
  }

  predicate CompleteBy(events: seq<ShardArrival>, k: nat, t: int) {
    forall shard: ShardId | shard < k :: ArrivesBy(events, shard, t)
  }

  ghost predicate FirstComplete(events: seq<ShardArrival>, k: nat, t: int) {
    CompleteBy(events, k, t) && forall u: int | u < t :: !CompleteBy(events, k, u)
  }

  predicate SomethingArrives(events: seq<ShardArrival>, t: int) {
    exists e | e in events :: e.arrival == t
  }

  /** t is the first time with an arrival at which recovering is worthwhile. */
  ghost predicate FirstWorthwhile(c: Setup, events: seq<ShardArrival>, t: int) {
    && SomethingArrives(events, t) && Worthwhile(c, events, t)
    && forall u: int | u < t && SomethingArrives(events, u) :: !Worthwhile(c, events, u)
  }

  /**
   * The result: natural completion is the first time all systematic shards have arrived; recovery starts at the first
   * arrival time before that at which it is worthwhile, if there is one, and takes what it is expected to cost; it wins
   * when it completes strictly first, and the latency is the sooner of the two.
   */
  ghost predicate IsResult(c: Setup, events: seq<ShardArrival>, m: SimulationMetrics) {
    && FirstComplete(events, c.k, m.natural)
    && (match m.recovery
        case None => forall t: int | t < m.natural && SomethingArrives(events, t) :: !Worthwhile(c, events, t)
        case Some(r) => && FirstWorthwhile(c, events, r.started) && r.started < m.natural
                        && r.completed == r.started + c.costs(r.started).recovery)
    && (m.won <==> m.recovery.Some? && m.recovery.value.completed < m.natural)
    && m.latency == if m.won then m.recovery.value.completed else m.natural
  }

  // ---------- trackers hold the earliest arrivals ----------

  lemma ArrivedIsUnique(events: seq<ShardArrival>, t: int, a: Arrivals, b: Arrivals)
    requires |a| == |b| && HasArrived(events, t, a) && HasArrived(events, t, b)
    ensures a == b
  {
    forall shard | 0 <= shard < |a| ensures a[shard] == b[shard] {
      if a[shard].Some? {
        assert ArrivesAt(events, shard, a[shard].value);
        var e :| e in events && e.shard == shard && e.arrival == a[shard].value;
      }
      if b[shard].Some? {
        assert ArrivesAt(events, shard, b[shard].value);
        var e :| e in events && e.shard == shard && e.arrival == b[shard].value;
      }
    }
  }

  predicate SeenAt(events: seq<ShardArrival>, i: nat, shard: ShardId, t: int)
    requires i <= |events|
  {
    exists x | 0 <= x < i :: events[x].shard == shard && events[x].arrival == t
  }

  /** The earliest arrivals among the first i events. */
  predicate Exact(events: seq<ShardArrival>, i: nat, a: Arrivals)
    requires i <= |events|
  {
    && (forall shard | 0 <= shard < |a| && a[shard].Some? :: SeenAt(events, i, shard, a[shard].value))
    && forall x | 0 <= x < i && events[x].shard < |a| ::
         a[events[x].shard].Some? && a[events[x].shard].value <= events[x].arrival
  }

  lemma MarkKeepsExact(events: seq<ShardArrival>, i: nat, a: Arrivals)
    requires i < |events| && Exact(events, i, a) && events[i].shard < |a|
    ensures Exact(events, i + 1, Mark(a, events[i].shard, events[i].arrival))
  {
    var b := Mark(a, events[i].shard, events[i].arrival);
    forall shard | 0 <= shard < |b| && b[shard].Some? ensures SeenAt(events, i + 1, shard, b[shard].value) {
      assert a[shard].Some? && b[shard] == a[shard] ==> SeenAt(events, i, shard, a[shard].value);
    }
  }

  lemma {:induction false} MarkTimeExact(events: seq<ShardArrival>, i: nat, j: nat, a: Arrivals)
    requires i <= j <= |events| && Exact(events, i, a) && MarkTime(events, i, j, a).Some?
    ensures Exact(events, j, MarkTime(events, i, j, a).value)
  {
    if i < j {
      MarkTimeExact(events, i, j - 1, a);
      MarkKeepsExact(events, j - 1, MarkTime(events, i, j - 1, a).value);
    }
  }

  lemma TimeBounds(events: seq<ShardArrival>, i: nat, x: nat)
    requires OrderedByTime(events) && i < |events| && x < |events|
    ensures x < TimeEnd(events, i) <==> events[x].arrival <= events[i].arrival
  {
    var j := TimeEnd(events, i);
    if x >= j { assert x > j ==> events[j].arrival <= events[x].arrival; }
  }

  lemma ExactIsArrived(events: seq<ShardArrival>, i: nat, a: Arrivals)
    requires OrderedByTime(events) && i < |events| && Exact(events, TimeEnd(events, i), a)
    ensures HasArrived(events, events[i].arrival, a)
  {
    var now, j := events[i].arrival, TimeEnd(events, i);
    forall shard | 0 <= shard < |a| && a[shard].Some?
      ensures a[shard].value <= now && ArrivesAt(events, shard, a[shard].value)
    {
      assert SeenAt(events, j, shard, a[shard].value);
      var x :| 0 <= x < j && events[x].shard == shard && events[x].arrival == a[shard].value;
      TimeBounds(events, i, x);
      assert events[x] in events;
    }
    forall e | e in events && e.shard < |a|
      ensures if a[e.shard].Some? then a[e.shard].value <= e.arrival else now < e.arrival
    {
      var x :| 0 <= x < |events| && events[x] == e;
      TimeBounds(events, i, x);
    }
  }

  lemma CompleteIsArrived(events: seq<ShardArrival>, k: nat, t: int, a: Arrivals)
    requires k <= |a| && HasArrived(events, t, a)
    ensures SystematicComplete(k, a) <==> CompleteBy(events, k, t)
  {
    if SystematicComplete(k, a) {
      forall shard: ShardId | shard < k ensures ArrivesBy(events, shard, t) {
        assert ArrivesAt(events, shard, a[shard].value);
      }
    }
    if CompleteBy(events, k, t) {
      forall shard | 0 <= shard < k ensures a[shard].Some? {
        assert ArrivesBy(events, shard, t);
      }
    }
  }

  // ---------- the run ----------

  /** Nothing has been decided by the times before index i, or the first worthwhile one was taken. */
  ghost predicate Chosen(c: Setup, events: seq<ShardArrival>, i: nat, recovery: Option<Recovery>)
    requires i <= |events|
  {
    match recovery
    case None => forall x | 0 <= x < i :: !Worthwhile(c, events, events[x].arrival)
    case Some(r) =>
      && (exists x | 0 <= x < i :: events[x].arrival == r.started)
      && FirstWorthwhile(c, events, r.started) && r.completed == r.started + c.costs(r.started).recovery
  }

  /** The first i events are those before some time, and do not complete the request. */
  ghost predicate Underway(c: Setup, events: seq<ShardArrival>, i: nat, a: Arrivals, recovery: Option<Recovery>)
    requires i <= |events|
  {
    && c.k <= c.n == |a| && OrderedByTime(events) && Exact(events, i, a) && Chosen(c, events, i, recovery)
    && (0 < i < |events| ==> events[i - 1].arrival < events[i].arrival)
    && forall x | 0 <= x < i :: !CompleteBy(events, c.k, events[x].arrival)
  }

  /** Between two arrival times nothing new arrives. */
  lemma NothingBetween(events: seq<ShardArrival>, i: nat, shard: ShardId, u: int)
    requires OrderedByTime(events) && i < |events| && u < events[i].arrival && ArrivesBy(events, shard, u)
    ensures i > 0 && ArrivesBy(events, shard, events[i - 1].arrival)
  {
    var e :| e in events && e.shard == shard && e.arrival <= u;
    var x :| 0 <= x < |events| && events[x] == e;
    assert x < i;
    assert x < i - 1 ==> events[x].arrival <= events[i - 1].arrival;
  }

  lemma EarlierIsIncomplete(c: Setup, events: seq<ShardArrival>, i: nat, u: int)
    requires OrderedByTime(events) && i < |events| && u < events[i].arrival && c.k > 0
    requires forall x | 0 <= x < i :: !CompleteBy(events, c.k, events[x].arrival)
    ensures !CompleteBy(events, c.k, u)
  {
    if i > 0 {
      var missing: ShardId :| missing < c.k && !ArrivesBy(events, missing, events[i - 1].arrival);
      if ArrivesBy(events, missing, u) { NothingBetween(events, i, missing, u); }
    } else if ArrivesBy(events, 0, u) {
      NothingBetween(events, i, 0, u);
    }
  }

  /** Deciding at one time takes recovery up exactly when it is worthwhile. */
  lemma ConsiderIsWorthwhile(c: Setup, events: seq<ShardArrival>, t: int, a: Arrivals)
    requires |a| == c.n && HasArrived(events, t, a) && Consider(c, a, t).Some?
    ensures Consider(c, a, t).value
      == if Worthwhile(c, events, t) then Some(Recovery(t, t + c.costs(t).recovery)) else None
  {
    if b: Arrivals :| |b| == c.n && HasArrived(events, t, b) && c.policy(b).isRecoverable
                      && c.costs(t).recovery < c.costs(t).wait {
      ArrivedIsUnique(events, t, a, b);
    }
  }

  lemma EarlierTimes(events: seq<ShardArrival>, i: nat, u: int)
    requires OrderedByTime(events) && i < |events| && u < events[i].arrival && SomethingArrives(events, u)
    ensures exists x | 0 <= x < i :: events[x].arrival == u
  {
    var e :| e in events && e.arrival == u;
    var x :| 0 <= x < |events| && events[x] == e;
    assert x < i;
  }

  lemma ChosenNext(c: Setup, events: seq<ShardArrival>, i: nat, a: Arrivals, recovery: Option<Recovery>)
    requires OrderedByTime(events) && i < |events| && |a| == c.n && Chosen(c, events, i, recovery)
    requires 0 < i ==> events[i - 1].arrival < events[i].arrival
    requires HasArrived(events, events[i].arrival, a)
    requires recovery.None? ==> Consider(c, a, events[i].arrival).Some?
    ensures Chosen(c, events, TimeEnd(events, i),
                   if recovery.Some? then recovery else Consider(c, a, events[i].arrival).value)
  {
    var now := events[i].arrival;
    if recovery.None? {
      ConsiderIsWorthwhile(c, events, now, a);
      assert events[i] in events;
      forall u: int | u < now && SomethingArrives(events, u) ensures !Worthwhile(c, events, u) {
        EarlierTimes(events, i, u);
      }
    }
  }

  lemma FinishedIsResult(c: Setup, events: seq<ShardArrival>, i: nat, recovery: Option<Recovery>)
    requires OrderedByTime(events) && i < |events| && c.k > 0 && Chosen(c, events, i, recovery)
    requires 0 < i ==> events[i - 1].arrival < events[i].arrival
    requires forall x | 0 <= x < i :: !CompleteBy(events, c.k, events[x].arrival)
    requires CompleteBy(events, c.k, events[i].arrival)
    ensures IsResult(c, events, Finished(events[i].arrival, recovery))
  {
    var now := events[i].arrival;
    forall u: int | u < now ensures !CompleteBy(events, c.k, u) { EarlierIsIncomplete(c, events, i, u); }
    if recovery.None? {
      forall u: int | u < now && SomethingArrives(events, u) ensures !Worthwhile(c, events, u) {
        EarlierTimes(events, i, u);
      }
    }
  }

  lemma {:induction false} ContinueIsResult(c: Setup, events: seq<ShardArrival>, i: nat, a: Arrivals,
                                            recovery: Option<Recovery>)
    requires i <= |events| && c.k > 0 && Underway(c, events, i, a, recovery)
    requires Continue(c, events, i, a, recovery).Some?
    ensures IsResult(c, events, Continue(c, events, i, a, recovery).value)
    decreases |events| - i
  {
    var now, j := events[i].arrival, TimeEnd(events, i);
    var marked := MarkTime(events, i, j, a).value;
    MarkTimeExact(events, i, j, a);
    ExactIsArrived(events, i, marked);
    CompleteIsArrived(events, c.k, now, marked);
    if SystematicComplete(c.k, marked) {
      FinishedIsResult(c, events, i, recovery);
    } else {
      ChosenNext(c, events, i, marked, recovery);
      ContinueIsResult(c, events, j, marked, if recovery.Some? then recovery else Consider(c, marked, now).value);
    }
  }

  lemma ResultPermutes(c: Setup, xs: seq<ShardArrival>, events: seq<ShardArrival>, m: SimulationMetrics)
    requires (forall e :: e in xs <==> e in events) && IsResult(c, xs, m)
    ensures IsResult(c, events, m)
  {
    forall t: int, shard: ShardId ensures ArrivesBy(xs, shard, t) <==> ArrivesBy(events, shard, t) {}
    forall t: int ensures CompleteBy(xs, c.k, t) <==> CompleteBy(events, c.k, t) {}
    forall t: int ensures SomethingArrives(xs, t) <==> SomethingArrives(events, t) {}
    forall t: int ensures Worthwhile(c, xs, t) <==> Worthwhile(c, events, t) { WorthwhilePermutes(c, xs, events, t); }
  }

  lemma ArrivedPermutes(xs: seq<ShardArrival>, events: seq<ShardArrival>, t: int, a: Arrivals)
    requires (forall e :: e in xs <==> e in events) && HasArrived(xs, t, a)
    ensures HasArrived(events, t, a)
  {
    forall shard | 0 <= shard < |a| && a[shard].Some? ensures ArrivesAt(events, shard, a[shard].value) {
      assert ArrivesAt(xs, shard, a[shard].value);
    }
  }

  lemma WorthwhilePermutes(c: Setup, xs: seq<ShardArrival>, events: seq<ShardArrival>, t: int)
    requires forall e :: e in xs <==> e in events
    ensures Worthwhile(c, xs, t) <==> Worthwhile(c, events, t)
  {
    if a: Arrivals :| |a| == c.n && HasArrived(xs, t, a) && c.policy(a).isRecoverable
                      && c.costs(t).recovery < c.costs(t).wait {
      ArrivedPermutes(xs, events, t, a);
    }
    if a: Arrivals :| |a| == c.n && HasArrived(events, t, a) && c.policy(a).isRecoverable
                      && c.costs(t).recovery < c.costs(t).wait {
      ArrivedPermutes(events, xs, t, a);
    }
  }

  /** Whatever the policy, the costs and the arrivals: what a finished simulation returns is the result. */
  lemma SimulationIsExact(c: Setup, events: seq<ShardArrival>)
    requires 0 < c.k <= c.n && Simulate(c, events).Some?
    ensures IsResult(c, events, Simulate(c, events).value)
  {
    var xs := StableSort(events);
    StableSortSorts(events);
    assert forall e :: e in xs <==> e in multiset(xs);
    assert forall e :: e in events <==> e in multiset(events);
    ContinueIsResult(c, xs, 0, NoArrivals(c.n), None);
    ResultPermutes(c, xs, events, Simulate(c, events).value);
  }
}
