/**
 * A cluster simulation as a list of decisions, one for every request and time with arrivals, each justified by what has
 * arrived by then and by the queue as the earlier decisions left it.
 */
module DecisionTrace {
  import opened Shards
  import opened Policy
  import opened Queueing
  import opened Events
  import opened ClusterSimulator
  import opened NaturalCompletion
  import RecoverySchedule
  import Sweep

  datatype Verdict = Completes | UnderWay | Unrecoverable | NoRoom | Admits(cost: int) | Waits

  /** `calls` are the calls the queue has seen when the decision is taken. */
  datatype Entry = Entry(id: RequestId, time: int, arrived: Arrivals, calls: seq<Call>, verdict: Verdict)

  // ---------- what an entry says ----------

  predicate ArrivesAt(events: seq<Event>, id: RequestId, shard: ShardId, t: int) {
    exists e | e in events :: e.request == id && e.shard == shard && e.arrival == t
  }

  /** The earliest arrivals of a request's shards among the events by time t. */
  predicate HasArrived(events: seq<Event>, id: RequestId, t: int, a: Arrivals) {
    && (forall shard | 0 <= shard < |a| && a[shard].Some? ::
          a[shard].value <= t && ArrivesAt(events, id, shard, a[shard].value))
    && forall e | e in events && e.request == id && e.shard < |a| ::
         if a[e.shard].Some? then a[e.shard].value <= e.arrival else t < e.arrival
  }

  predicate Admitted(trace: seq<Entry>, id: RequestId) {
    exists p | 0 <= p < |trace| :: trace[p].id == id && trace[p].verdict.Admits?
  }

  /** The verdict on a request that is incomplete and not being recovered yet. */
  predicate FairVerdict(c: Config, q: Queue, e: Entry)
    requires q.slots != []
  {
    var plan := c.policy(e.arrived);
    var quote := Quote(q, e.time, c.service(plan));
    if !plan.isRecoverable then e.verdict.Unrecoverable?
    else if q.depth >= q.maxDepth then e.verdict.NoRoom? && c.service(plan) > 0
    else && quote.Cost? && c.wait(e.id, e.time) >= 0
         && if quote.cost < c.wait(e.id, e.time) then e.verdict == Admits(quote.cost) else e.verdict.Waits?
  }

  predicate Fair(c: Config, q: Queue, e: Entry, underWay: bool)
    requires q.slots != [] && c.k <= |e.arrived|
  {
    if forall shard | 0 <= shard < c.k :: e.arrived[shard].Some? then e.verdict.Completes?
    else if underWay then e.verdict.UnderWay?
    else FairVerdict(c, q, e)
  }

  /** The calls an entry leaves behind: an admission submits its job. */
  function CallsAfter(c: Config, e: Entry): seq<Call> {
    if e.verdict.Admits? then e.calls + [SubmitAt(e.time, c.service(c.policy(e.arrived)))] else e.calls
  }

  function CallsSoFar(c: Config, first: seq<Call>, trace: seq<Entry>): seq<Call> {
    if trace == [] then first else CallsAfter(c, trace[|trace| - 1])
  }

  /** Before an entry at a new time the clock is moved; within one time it is not. */
  predicate Follows(c: Config, first: seq<Call>, trace: seq<Entry>, p: nat)
    requires p < |trace|
  {
    var before := CallsSoFar(c, first, trace[..p]);
    trace[p].calls ==
      if p > 0 && trace[p - 1].time == trace[p].time then before else before + [AdvanceTo(trace[p].time)]
  }

  predicate Justified(c: Config, concurrency: nat, maxDepth: nat, first: seq<Call>, trace: seq<Entry>, p: nat)
    requires p < |trace| && concurrency > 0
  {
    && |trace[p].arrived| == c.n >= c.k
    && Follows(c, first, trace, p)
    && Fair(c, Reach(concurrency, maxDepth, trace[p].calls).queue, trace[p], Admitted(trace[..p], trace[p].id))
  }

  predicate Before(a: Entry, b: Entry) {
    a.time < b.time || (a.time == b.time && a.id < b.id)
  }

  predicate At(e: Entry, event: Event) {
    e.id == event.request && e.time == event.arrival
  }

  predicate HasEntry(trace: seq<Entry>, event: Event) {
    exists p | 0 <= p < |trace| :: At(trace[p], event)
  }

  predicate HasEvent(events: seq<Event>, entry: Entry) {
    exists event | event in events :: At(entry, event)
  }

  /** One entry for every request and time with arrivals, in order of time and then of request. */
  predicate Covers(events: seq<Event>, trace: seq<Entry>) {
    && (forall e {:trigger HasEntry(trace, e)} | e in events :: HasEntry(trace, e))
    && (forall p {:trigger HasEvent(events, trace[p])} | 0 <= p < |trace| :: HasEvent(events, trace[p]))
    && forall p, r | 0 <= p < r < |trace| :: Before(trace[p], trace[r])
  }

  ghost predicate IsTrace(c: Config, concurrency: nat, maxDepth: nat, first: seq<Call>, events: seq<Event>,
                          trace: seq<Entry>)
    requires concurrency > 0
  {
    && Covers(events, trace)
    && forall p | 0 <= p < |trace| ::
         && HasArrived(events, trace[p].id, trace[p].time, trace[p].arrived)
         && Justified(c, concurrency, maxDepth, first, trace, p)
  }

  // ---------- outcomes in terms of a trace ----------

  predicate Ever(trace: seq<Entry>, id: RequestId, kind: Verdict -> bool) {
    exists p | 0 <= p < |trace| :: trace[p].id == id && kind(trace[p].verdict)
  }

  const Completing := (v: Verdict) => v.Completes?
  const Refusing := (v: Verdict) => v.NoRoom?
  const Waiting := (v: Verdict) => v.Waits?
  const Hopeless := (v: Verdict) => v.Unrecoverable?

  /** Recoveries complete when their admission promised. */
  predicate Promised(trace: seq<Entry>, recovery: map<RequestId, int>) {
    && (forall id | id in recovery :: Admitted(trace, id))
    && forall p | 0 <= p < |trace| && trace[p].verdict.Admits? ::
         trace[p].id in recovery && recovery[trace[p].id] == trace[p].time + trace[p].verdict.cost
  }

  ghost predicate Records(trace: seq<Entry>, o: Outcomes) {
    && (forall id :: id in o.natural <==> Ever(trace, id, Completing))
    && (forall id :: id in o.rejected <==> Ever(trace, id, Refusing))
    && (forall id :: id in o.waited <==> Ever(trace, id, Waiting))
    && (forall id :: id in o.unrecoverable <==> Ever(trace, id, Hopeless))
    && Promised(trace, o.recovery)
  }

  // ---------- trackers hold the earliest arrivals ----------

  predicate SeenAt(events: seq<Event>, i: nat, id: RequestId, shard: ShardId, t: int)
    requires i <= |events|
  {
    exists x | 0 <= x < i :: events[x].request == id && events[x].shard == shard && events[x].arrival == t
  }

  /** The earliest arrivals of a request's shards among the first i events. */
  predicate Exact(events: seq<Event>, i: nat, id: RequestId, a: Arrivals)
    requires i <= |events|
  {
    && (forall shard | 0 <= shard < |a| && a[shard].Some? :: SeenAt(events, i, id, shard, a[shard].value))
    && forall x | 0 <= x < i && events[x].request == id && events[x].shard < |a| ::
         a[events[x].shard].Some? && a[events[x].shard].value <= events[x].arrival
  }

  lemma MarkKeepsExact(events: seq<Event>, i: nat, a: Arrivals)
    requires i < |events| && Exact(events, i, events[i].request, a) && events[i].shard < |a|
    ensures Exact(events, i + 1, events[i].request, Mark(a, events[i].shard, events[i].arrival))
  {
    var e, id := events[i], events[i].request;
    var b := Mark(a, e.shard, e.arrival);
    forall shard | 0 <= shard < |b| && b[shard].Some? ensures SeenAt(events, i + 1, id, shard, b[shard].value) {
      assert a[shard].Some? && b[shard] == a[shard] ==> SeenAt(events, i, id, shard, a[shard].value);
    }
  }

  /** What holds before marking and survives each mark holds after all of them. */
  lemma {:induction false} MarkAllInduction(events: seq<Event>, i: nat, j: nat, a: Arrivals, p: (nat, Arrivals) -> bool)
    requires i <= j <= |events| && MarkAll(events, i, j, a).Some? && p(i, a)
    requires forall x: nat, b: Arrivals | i <= x < j && p(x, b) && events[x].shard < |b| ::
      p(x + 1, Mark(b, events[x].shard, events[x].arrival))
    ensures p(j, MarkAll(events, i, j, a).value)
  {
    if i < j { MarkAllInduction(events, i, j - 1, a, p); }
  }

  lemma MarkAllExact(events: seq<Event>, i: nat, j: nat, id: RequestId, a: Arrivals)
    requires i <= j <= |events| && Exact(events, i, id, a) && MarkAll(events, i, j, a).Some?
    requires forall x | i <= x < j :: events[x].request == id
    ensures Exact(events, j, id, MarkAll(events, i, j, a).value)
  {
    var p := (x: nat, b: Arrivals) => x <= |events| && Exact(events, x, id, b);
    forall x: nat, b: Arrivals | i <= x < j && p(x, b) && events[x].shard < |b|
      ensures p(x + 1, Mark(b, events[x].shard, events[x].arrival))
    {
      MarkKeepsExact(events, x, b);
    }
    MarkAllInduction(events, i, j, a, p);
  }

  lemma OthersStayExact(events: seq<Event>, i: nat, j: nat, id: RequestId, a: Arrivals)
    requires i <= j <= |events| && Exact(events, i, id, a)
    requires forall x | i <= x < j :: events[x].request != id
    ensures Exact(events, j, id, a)
  {
    forall shard | 0 <= shard < |a| && a[shard].Some? ensures SeenAt(events, j, id, shard, a[shard].value) {
      assert SeenAt(events, i, id, shard, a[shard].value);
    }
  }

  /** At the end of a group, the events seen of its request are those by its time. */
  lemma ExactIsArrived(events: seq<Event>, i: nat, a: Arrivals)
    requires Ordered(events) && i < |events| && Exact(events, GroupEnd(events, i), events[i].request, a)
    ensures HasArrived(events, events[i].request, events[i].arrival, a)
  {
    var id, now, j := events[i].request, events[i].arrival, GroupEnd(events, i);
    forall shard | 0 <= shard < |a| && a[shard].Some?
      ensures a[shard].value <= now && ArrivesAt(events, id, shard, a[shard].value)
    {
      assert SeenAt(events, j, id, shard, a[shard].value);
      var x :| 0 <= x < j && events[x].request == id && events[x].shard == shard && events[x].arrival == a[shard].value;
      GroupBounds(events, i, x);
      assert events[x] in events;
    }
    forall e | e in events && e.request == id && e.shard < |a|
      ensures if a[e.shard].Some? then a[e.shard].value <= e.arrival else now < e.arrival
    {
      var x :| 0 <= x < |events| && events[x] == e;
      GroupBounds(events, i, x);
      assert a[e.shard].Some? ==> a[e.shard].value <= now by {
        assert a[e.shard].Some? ==> SeenAt(events, j, id, e.shard, a[e.shard].value);
      }
    }
  }

  lemma GroupBounds(events: seq<Event>, i: nat, x: nat)
    requires Ordered(events) && i < |events| && x < |events| && events[x].request == events[i].request
    ensures x < GroupEnd(events, i) <==> events[x].arrival <= events[i].arrival
  {
    var j := GroupEnd(events, i);
    if x < i {
      assert AtMost(events[x], events[i]);
    } else if x < j {
      assert SameGroup(events[x], events[i]);
    } else {
      assert AtMost(events[i], events[j]) && !SameGroup(events[j], events[i]);
      assert x > j ==> AtMost(events[j], events[x]);
    }
  }

  // ---------- one decision ----------

  lemma VerdictOf(c: Config, q: Queue, o: Outcomes, a: Arrivals, id: RequestId, now: int, calls: seq<Call>)
    returns (entry: Entry)
    requires ValidConfig(c) && QueueFits(q) && |a| == c.n && Decide(c, q, o, a, id, now).Some?
    ensures entry == Entry(id, now, a, calls, entry.verdict) && Fair(c, q, entry, id in o.recovery)
    ensures var (q', o'), verdict := Decide(c, q, o, a, id, now).value, entry.verdict;
      && q' == (if verdict.Admits? then Submit(q, now, c.service(c.policy(a))).0 else q)
      && o'.natural.Keys == o.natural.Keys + (if verdict.Completes? then {id} else {})
      && o'.recovery == (if verdict.Admits? then o.recovery[id := now + verdict.cost] else o.recovery)
      && o'.rejected == o.rejected + (if verdict.NoRoom? then {id} else {})
      && o'.waited == o.waited + (if verdict.Waits? then {id} else {})
      && o'.unrecoverable == o.unrecoverable + (if verdict.Unrecoverable? then {id} else {})
  {
    var plan := c.policy(a);
    var verdict := Completes;
    if !SystematicComplete(c.k, a) {
      if id in o.recovery {
        verdict := UnderWay;
      } else if !plan.isRecoverable {
        verdict := Unrecoverable;
      } else {
        verdict := match Quote(q, now, c.service(plan))
          case Cost(cost) => if cost < c.wait(id, now) then Admits(cost) else Waits
          case _ => NoRoom;
      }
    }
    entry := Entry(id, now, a, calls, verdict);
  }

  // ---------- one more entry ----------

  lemma EverOneMore(trace: seq<Entry>, entry: Entry, id: RequestId, kind: Verdict -> bool)
    ensures Ever(trace + [entry], id, kind) <==> Ever(trace, id, kind) || (entry.id == id && kind(entry.verdict))
  {
    var all := trace + [entry];
    if Ever(trace, id, kind) {
      var p :| 0 <= p < |trace| && trace[p].id == id && kind(trace[p].verdict);
      assert all[p] == trace[p];
    }
    assert all[|trace|] == entry;
  }

  lemma AdmittedOneMore(trace: seq<Entry>, entry: Entry, id: RequestId)
    ensures Admitted(trace + [entry], id) <==> Admitted(trace, id) || (entry.id == id && entry.verdict.Admits?)
  {
    EverOneMore(trace, entry, id, (v: Verdict) => v.Admits?);
    assert forall t :: Admitted(t, id) <==> Ever(t, id, (v: Verdict) => v.Admits?);
  }

  lemma PromisedOneMore(trace: seq<Entry>, entry: Entry, recovery: map<RequestId, int>)
    requires Promised(trace, recovery) && (entry.verdict.Admits? ==> entry.id !in recovery)
    ensures Promised(trace + [entry],
      if entry.verdict.Admits? then recovery[entry.id := entry.time + entry.verdict.cost] else recovery)
  {
    var all := trace + [entry];
    var recovery' := if entry.verdict.Admits? then recovery[entry.id := entry.time + entry.verdict.cost] else recovery;
    forall id | id in recovery' ensures Admitted(all, id) {
      AdmittedOneMore(trace, entry, id);
    }
    forall p | 0 <= p < |all| && all[p].verdict.Admits?
      ensures all[p].id in recovery' && recovery'[all[p].id] == all[p].time + all[p].verdict.cost
    {
      assert p < |trace| ==> all[p] == trace[p];
    }
  }

  lemma CoversOneMore(seen: seq<Event>, group: seq<Event>, trace: seq<Entry>, entry: Entry)
    requires Covers(seen, trace) && group != [] && forall e | e in group :: At(entry, e)
    requires forall p | 0 <= p < |trace| :: Before(trace[p], entry)
    ensures Covers(seen + group, trace + [entry])
  {
    var all := trace + [entry];
    forall e | e in seen + group ensures HasEntry(all, e) {
      if e in seen {
        assert HasEntry(trace, e);
        var p :| 0 <= p < |trace| && At(trace[p], e);
        assert At(all[p], e);
      } else {
        assert At(all[|trace|], e);
      }
    }
    forall p | 0 <= p < |all| ensures HasEvent(seen + group, all[p]) {
      if p < |trace| {
        assert HasEvent(seen, trace[p]);
        var e :| e in seen && At(trace[p], e);
        assert e in seen + group;
      } else {
        assert group[0] in seen + group && At(entry, group[0]);
      }
    }
  }

  lemma JustifiedOneMore(c: Config, concurrency: nat, maxDepth: nat, first: seq<Call>, trace: seq<Entry>, entry: Entry)
    requires concurrency > 0 && forall p | 0 <= p < |trace| :: Justified(c, concurrency, maxDepth, first, trace, p)
    requires |entry.arrived| == c.n >= c.k
    requires entry.calls == if trace != [] && trace[|trace| - 1].time == entry.time then CallsSoFar(c, first, trace)
                            else CallsSoFar(c, first, trace) + [AdvanceTo(entry.time)]
    requires Fair(c, Reach(concurrency, maxDepth, entry.calls).queue, entry, Admitted(trace, entry.id))
    ensures forall p | 0 <= p < |trace| + 1 :: Justified(c, concurrency, maxDepth, first, trace + [entry], p)
  {
    var all := trace + [entry];
    forall p | 0 <= p < |all| ensures Justified(c, concurrency, maxDepth, first, all, p) {
      if p < |trace| {
        assert Justified(c, concurrency, maxDepth, first, trace, p);
        assert all[..p] == trace[..p] && all[p] == trace[p] && (p > 0 ==> all[p - 1] == trace[p - 1]);
      } else {
        assert all[..p] == trace && all[p] == entry;
      }
    }
  }

  // ---------- the run ----------

  /** The trace of the groups before index i. */
  ghost predicate Listed(c: Config, concurrency: nat, maxDepth: nat, first: seq<Call>, events: seq<Event>, i: nat,
                         trace: seq<Entry>)
    requires concurrency > 0 && i <= |events|
  {
    && Covers(events[..i], trace)
    && (if i == 0 then trace == [] else trace != [] && At(trace[|trace| - 1], events[i - 1]))
    && (forall p | 0 <= p < |trace| :: Justified(c, concurrency, maxDepth, first, trace, p))
    && forall p | 0 <= p < |trace| :: HasArrived(events, trace[p].id, trace[p].time, trace[p].arrived)
  }

  /** The state holds what the trace leads to. */
  ghost predicate Mirrors(c: Config, concurrency: nat, maxDepth: nat, first: seq<Call>, events: seq<Event>, i: nat,
                          s: Sim, trace: seq<Entry>)
    requires concurrency > 0 && i <= |events|
  {
    && s.queue == Reach(concurrency, maxDepth, CallsSoFar(c, first, trace)).queue
    && (forall id | id in s.trackers :: Exact(events, i, id, s.trackers[id]))
    && Records(trace, s.outcomes)
  }

  ghost predicate TraceSoFar(c: Config, concurrency: nat, maxDepth: nat, first: seq<Call>, events: seq<Event>, i: nat,
                             s: Sim, trace: seq<Entry>)
    requires concurrency > 0 && i <= |events|
  {
    && Fits(c.n, s) && Tracked(events, s)
    && (0 < i < |events| ==> !SameGroup(events[i - 1], events[i]))
    && Listed(c, concurrency, maxDepth, first, events, i, trace)
    && Mirrors(c, concurrency, maxDepth, first, events, i, s, trace)
  }

  /** An admission adds its recovery; every other verdict adds the request to its own set, or nothing. */
  predicate Notes(o: Outcomes, entry: Entry, o': Outcomes) {
    && o'.natural.Keys == o.natural.Keys + (if entry.verdict.Completes? then {entry.id} else {})
    && o'.recovery == (if entry.verdict.Admits? then o.recovery[entry.id := entry.time + entry.verdict.cost]
                       else o.recovery)
    && o'.rejected == o.rejected + (if entry.verdict.NoRoom? then {entry.id} else {})
    && o'.waited == o.waited + (if entry.verdict.Waits? then {entry.id} else {})
    && o'.unrecoverable == o.unrecoverable + (if entry.verdict.Unrecoverable? then {entry.id} else {})
  }

  lemma RecordsOneMore(trace: seq<Entry>, entry: Entry, o: Outcomes, o': Outcomes)
    requires Records(trace, o) && Notes(o, entry, o') && (entry.verdict.Admits? ==> entry.id !in o.recovery)
    ensures Records(trace + [entry], o')
  {
    PromisedOneMore(trace, entry, o.recovery);
    forall id
      ensures id in o'.natural <==> Ever(trace + [entry], id, Completing)
      ensures id in o'.rejected <==> Ever(trace + [entry], id, Refusing)
      ensures id in o'.waited <==> Ever(trace + [entry], id, Waiting)
      ensures id in o'.unrecoverable <==> Ever(trace + [entry], id, Hopeless)
    {
      EverOneMore(trace, entry, id, Completing);
      EverOneMore(trace, entry, id, Refusing);
      EverOneMore(trace, entry, id, Waiting);
      EverOneMore(trace, entry, id, Hopeless);
    }
  }

  /** In sorted events the next group comes after every entry so far. */
  lemma ComesAfter(events: seq<Event>, i: nat, trace: seq<Entry>, entry: Entry)
    requires Ordered(events) && 0 < i < |events| && !SameGroup(events[i - 1], events[i])
    requires trace != [] && At(trace[|trace| - 1], events[i - 1]) && At(entry, events[i])
    requires forall p, r | 0 <= p < r < |trace| :: Before(trace[p], trace[r])
    ensures forall p | 0 <= p < |trace| :: Before(trace[p], entry)
  {
    assert AtMost(events[i - 1], events[i]);
    var last := trace[|trace| - 1];
    assert Before(last, entry);
    forall p | 0 <= p < |trace| ensures Before(trace[p], entry) {
      assert p < |trace| - 1 ==> Before(trace[p], last);
    }
  }

  lemma GroupCovers(events: seq<Event>, i: nat, trace: seq<Entry>, entry: Entry)
    requires Ordered(events) && i < |events| && (i > 0 ==> !SameGroup(events[i - 1], events[i]))
    requires Covers(events[..i], trace) && At(entry, events[i])
    requires if i == 0 then trace == [] else trace != [] && At(trace[|trace| - 1], events[i - 1])
    ensures Covers(events[..GroupEnd(events, i)], trace + [entry])
    ensures At((trace + [entry])[|trace|], events[GroupEnd(events, i) - 1])
  {
    var j := GroupEnd(events, i);
    assert SameGroup(events[j - 1], events[i]);
    if i > 0 { ComesAfter(events, i, trace, entry); }
    var group := events[i..j];
    forall e | e in group ensures At(entry, e) {
      var x :| 0 <= x < |group| && group[x] == e;
      assert SameGroup(events[i + x], events[i]);
    }
    CoversOneMore(events[..i], group, trace, entry);
    assert events[..j] == events[..i] + group;
  }

  lemma GroupTrackers(c: Config, events: seq<Event>, i: nat, s: Sim, id: RequestId)
    requires ValidConfig(c) && Fits(c.n, s) && Tracked(events, s) && i < |events| && HandleGroup(c, events, i, s).Some?
    requires id in s.trackers && Exact(events, i, id, s.trackers[id])
    ensures Exact(events, GroupEnd(events, i), id, HandleGroup(c, events, i, s).value.trackers[id])
  {
    var j := GroupEnd(events, i);
    forall x | i <= x < j ensures events[x].request == events[i].request { assert SameGroup(events[x], events[i]); }
    if id == events[i].request {
      MarkAllExact(events, i, j, id, s.trackers[id]);
    } else {
      OthersStayExact(events, i, j, id, s.trackers[id]);
    }
  }

  /** The queue an entry decides on: the clock is moved when its time is new. */
  lemma ClockFollows(c: Config, concurrency: nat, maxDepth: nat, first: seq<Call>, events: seq<Event>, i: nat, s: Sim,
                     trace: seq<Entry>) returns (calls: seq<Call>, ready: Sim)
    requires concurrency > 0 && i < |events| && TraceSoFar(c, concurrency, maxDepth, first, events, i, s, trace)
    requires Opens(events, i) ==> OpenTime(s, events[i].arrival).Some?
    ensures ready == if Opens(events, i) then OpenTime(s, events[i].arrival).value else s
    ensures Fits(c.n, ready) && ready == s.(queue := ready.queue)
    ensures ready.queue == Reach(concurrency, maxDepth, calls).queue
    ensures calls == if trace != [] && trace[|trace| - 1].time == events[i].arrival then CallsSoFar(c, first, trace)
                     else CallsSoFar(c, first, trace) + [AdvanceTo(events[i].arrival)]
  {
    calls, ready := CallsSoFar(c, first, trace), s;
    if Opens(events, i) {
      RecoverySchedule.ReachSnoc(concurrency, maxDepth, calls, AdvanceTo(events[i].arrival));
      calls, ready := calls + [AdvanceTo(events[i].arrival)], OpenTime(s, events[i].arrival).value;
    }
  }

  lemma SubmitQueue(concurrency: nat, maxDepth: nat, calls: seq<Call>, now: int, service: int)
    requires concurrency > 0
    ensures Reach(concurrency, maxDepth, calls + [SubmitAt(now, service)]).queue
      == Submit(Reach(concurrency, maxDepth, calls).queue, now, service).0
  {
    RecoverySchedule.ReachSnoc(concurrency, maxDepth, calls, SubmitAt(now, service));
  }

  lemma UnderWayIsAdmitted(trace: seq<Entry>, recovery: map<RequestId, int>, id: RequestId)
    requires Promised(trace, recovery)
    ensures id in recovery <==> Admitted(trace, id)
  {}

  lemma GroupListed(c: Config, concurrency: nat, maxDepth: nat, first: seq<Call>, events: seq<Event>, i: nat,
                    trace: seq<Entry>, entry: Entry)
    requires Ordered(events) && concurrency > 0 && i < |events| && (i > 0 ==> !SameGroup(events[i - 1], events[i]))
    requires Listed(c, concurrency, maxDepth, first, events, i, trace)
    requires At(entry, events[i]) && |entry.arrived| == c.n >= c.k
    requires Exact(events, GroupEnd(events, i), entry.id, entry.arrived)
    requires entry.calls == if trace != [] && trace[|trace| - 1].time == entry.time then CallsSoFar(c, first, trace)
                            else CallsSoFar(c, first, trace) + [AdvanceTo(entry.time)]
    requires Fair(c, Reach(concurrency, maxDepth, entry.calls).queue, entry, Admitted(trace, entry.id))
    ensures Listed(c, concurrency, maxDepth, first, events, GroupEnd(events, i), trace + [entry])
  {
    JustifiedOneMore(c, concurrency, maxDepth, first, trace, entry);
    GroupCovers(events, i, trace, entry);
    ExactIsArrived(events, i, entry.arrived);
  }

  lemma GroupMirrors(c: Config, concurrency: nat, maxDepth: nat, first: seq<Call>, events: seq<Event>, i: nat, s: Sim,
                     trace: seq<Entry>, entry: Entry, j: nat, next: Sim)
    requires concurrency > 0 && i <= |events| && j <= |events|
    requires Mirrors(c, concurrency, maxDepth, first, events, i, s, trace)
    requires forall id | id in next.trackers :: Exact(events, j, id, next.trackers[id])
    requires Notes(s.outcomes, entry, next.outcomes) && (entry.verdict.Admits? ==> entry.id !in s.outcomes.recovery)
    requires var q := Reach(concurrency, maxDepth, entry.calls).queue;
      next.queue == if entry.verdict.Admits? then Submit(q, entry.time, c.service(c.policy(entry.arrived))).0 else q
    ensures Mirrors(c, concurrency, maxDepth, first, events, j, next, trace + [entry])
  {
    RecordsOneMore(trace, entry, s.outcomes, next.outcomes);
    SubmitQueue(concurrency, maxDepth, entry.calls, entry.time, c.service(c.policy(entry.arrived)));
    assert CallsSoFar(c, first, trace + [entry]) == CallsAfter(c, entry);
  }

  lemma GroupEntry(c: Config, events: seq<Event>, i: nat, s: Sim, calls: seq<Call>) returns (entry: Entry)
    requires ValidConfig(c) && Fits(c.n, s) && Tracked(events, s) && i < |events| && HandleGroup(c, events, i, s).Some?
    ensures var next := HandleGroup(c, events, i, s).value;
      && At(entry, events[i]) && entry.calls == calls && entry.id in next.trackers
      && entry.arrived == next.trackers[entry.id] && |entry.arrived| == c.n
      && Fair(c, s.queue, entry, entry.id in s.outcomes.recovery)
      && (entry.verdict.Admits? ==> entry.id !in s.outcomes.recovery)
      && Notes(s.outcomes, entry, next.outcomes)
      && next.queue == (if entry.verdict.Admits?
                        then Submit(s.queue, entry.time, c.service(c.policy(entry.arrived))).0 else s.queue)
  {
    var e := events[i];
    var a := MarkAll(events, i, GroupEnd(events, i), s.trackers[e.request]).value;
    entry := VerdictOf(c, s.queue, s.outcomes, a, e.request, e.arrival, calls);
  }

  /** One group: a justified entry, recorded in the next state. */
  lemma GroupTrace(c: Config, concurrency: nat, maxDepth: nat, first: seq<Call>, events: seq<Event>, i: nat, s: Sim,
                   trace: seq<Entry>, calls: seq<Call>, ready: Sim) returns (entry: Entry)
    requires ValidConfig(c) && Ordered(events) && concurrency > 0 && i < |events|
    requires TraceSoFar(c, concurrency, maxDepth, first, events, i, s, trace)
    requires Fits(c.n, ready) && ready == s.(queue := ready.queue) && HandleGroup(c, events, i, ready).Some?
    requires ready.queue == Reach(concurrency, maxDepth, calls).queue
    requires calls == if trace != [] && trace[|trace| - 1].time == events[i].arrival then CallsSoFar(c, first, trace)
                      else CallsSoFar(c, first, trace) + [AdvanceTo(events[i].arrival)]
    ensures Listed(c, concurrency, maxDepth, first, events, GroupEnd(events, i), trace + [entry])
    ensures Mirrors(c, concurrency, maxDepth, first, events, GroupEnd(events, i),
                    HandleGroup(c, events, i, ready).value, trace + [entry])
  {
    var e, j, next := events[i], GroupEnd(events, i), HandleGroup(c, events, i, ready).value;
    forall id | id in next.trackers ensures Exact(events, j, id, next.trackers[id]) {
      GroupTrackers(c, events, i, ready, id);
    }
    entry := GroupEntry(c, events, i, ready, calls);
    UnderWayIsAdmitted(trace, s.outcomes.recovery, entry.id);
    GroupListed(c, concurrency, maxDepth, first, events, i, trace, entry);
    GroupMirrors(c, concurrency, maxDepth, first, events, i, s, trace, entry, j, next);
  }

  lemma {:induction false} RestTrace(c: Config, concurrency: nat, maxDepth: nat, first: seq<Call>, events: seq<Event>,
                                     i: nat, s: Sim, trace: seq<Entry>) returns (trace': seq<Entry>)
    requires ValidConfig(c) && Ordered(events) && concurrency > 0 && i <= |events|
    requires TraceSoFar(c, concurrency, maxDepth, first, events, i, s, trace) && Rest(c, events, i, s).Finished?
    ensures TraceSoFar(c, concurrency, maxDepth, first, events, |events|, Rest(c, events, i, s).sim, trace')
    decreases |events| - i
  {
    trace' := trace;
    if i < |events| {
      var calls, ready := ClockFollows(c, concurrency, maxDepth, first, events, i, s, trace);
      var entry := GroupTrace(c, concurrency, maxDepth, first, events, i, s, trace, calls, ready);
      trace' := RestTrace(c, concurrency, maxDepth, first, events, GroupEnd(events, i),
                          HandleGroup(c, events, i, ready).value, trace + [entry]);
    }
  }

  // ---------- the metrics of a finished run ----------

  /** A recovery of the request was admitted and ends at t. */
  predicate RecoversAt(trace: seq<Entry>, id: RequestId, t: int) {
    exists p | 0 <= p < |trace| ::
      trace[p].id == id && trace[p].verdict.Admits? && trace[p].time + trace[p].verdict.cost == t
  }

  /**
   * Natural completion at t: the request wins exactly when an admitted recovery ends before that, and its latency runs
   * from its start to the sooner of the two.
   */
  ghost predicate EndsAt(events: seq<Event>, k: nat, trace: seq<Entry>, id: RequestId, m: RequestMetrics, t: int) {
    && FirstComplete(events, k, id, t)
    && forall e | e in events && e.request == id ::
         if m.won then m.latency + e.start < t && RecoversAt(trace, id, m.latency + e.start)
         else m.latency + e.start == t && forall u | RecoversAt(trace, id, u) :: u >= t
  }

  /** A request's flags are the verdicts it ever had. */
  ghost predicate Reports(events: seq<Event>, k: nat, trace: seq<Entry>, id: RequestId, m: RequestMetrics) {
    && (m.admitted <==> Admitted(trace, id))
    && (m.rejected <==> Ever(trace, id, Refusing))
    && (m.waited <==> Ever(trace, id, Waiting))
    && (m.unrecoverable <==> Ever(trace, id, Hopeless))
    && exists t: int :: EndsAt(events, k, trace, id, m, t)
  }

  lemma PromiseKept(trace: seq<Entry>, recovery: map<RequestId, int>, id: RequestId, t: int)
    requires Promised(trace, recovery)
    ensures RecoversAt(trace, id, t) <==> id in recovery && recovery[id] == t
  {
    if id in recovery && recovery[id] == t {
      assert Admitted(trace, id);
      var p :| 0 <= p < |trace| && trace[p].id == id && trace[p].verdict.Admits?;
      assert trace[p].time + trace[p].verdict.cost == t;
    }
  }

  lemma MetricsReport(ordered: seq<Event>, k: nat, trace: seq<Entry>, o: Outcomes, id: RequestId, start: int)
    requires Records(trace, o) && id in o.natural && FirstComplete(ordered, k, id, o.natural[id])
    requires forall e | e in ordered && e.request == id :: e.start == start
    ensures Reports(ordered, k, trace, id, MetricsOf(o, id, start))
  {
    var m := MetricsOf(o, id, start);
    UnderWayIsAdmitted(trace, o.recovery, id);
    forall t: int ensures RecoversAt(trace, id, t) <==> id in o.recovery && o.recovery[id] == t {
      PromiseKept(trace, o.recovery, id, t);
    }
    assert EndsAt(ordered, k, trace, id, m, o.natural[id]);
  }

  lemma ReportPermutes(a: seq<Event>, b: seq<Event>, k: nat, trace: seq<Entry>, id: RequestId, m: RequestMetrics)
    requires multiset(a) == multiset(b) && Reports(a, k, trace, id, m)
    ensures Reports(b, k, trace, id, m)
  {
    var t: int :| EndsAt(a, k, trace, id, m, t);
    RecoverySchedule.FirstCompletePermutes(a, b, k, id, t);
    RecoverySchedule.SameEvents(a, b);
    assert EndsAt(b, k, trace, id, m, t);
  }

  lemma ArrivedPermutes(a: seq<Event>, b: seq<Event>, id: RequestId, t: int, arrived: Arrivals)
    requires (forall e :: e in a <==> e in b) && HasArrived(a, id, t, arrived)
    ensures HasArrived(b, id, t, arrived)
  {
    forall shard | 0 <= shard < |arrived| && arrived[shard].Some?
      ensures ArrivesAt(b, id, shard, arrived[shard].value)
    {
      assert ArrivesAt(a, id, shard, arrived[shard].value);
    }
  }

  lemma CoversPermutes(a: seq<Event>, b: seq<Event>, trace: seq<Entry>)
    requires (forall e :: e in a <==> e in b) && Covers(a, trace)
    ensures Covers(b, trace)
  {
    forall e | e in b ensures HasEntry(trace, e) { assert e in a; }
    forall p | 0 <= p < |trace| ensures HasEvent(b, trace[p]) { assert HasEvent(a, trace[p]); }
  }

  lemma TracePermutes(c: Config, concurrency: nat, maxDepth: nat, first: seq<Call>, a: seq<Event>, b: seq<Event>,
                      trace: seq<Entry>)
    requires concurrency > 0 && (forall e :: e in a <==> e in b) && IsTrace(c, concurrency, maxDepth, first, a, trace)
    ensures IsTrace(c, concurrency, maxDepth, first, b, trace)
  {
    CoversPermutes(a, b, trace);
    forall p | 0 <= p < |trace| ensures HasArrived(b, trace[p].id, trace[p].time, trace[p].arrived) {
      ArrivedPermutes(a, b, trace[p].id, trace[p].time, trace[p].arrived);
    }
  }

  lemma StartTrace(c: Config, concurrency: nat, maxDepth: nat, calls: seq<Call>, ordered: seq<Event>)
    requires ValidConfig(c) && concurrency > 0
    ensures TraceSoFar(c, concurrency, maxDepth, calls, ordered, 0,
                       Start(c.n, ordered, Reach(concurrency, maxDepth, calls).queue), [])
  {}

  lemma RunFinished(c: Config, q: Queue, ordered: seq<Event>)
    requires ValidConfig(c) && QueueFits(q) && RunInOrder(c, q, ordered).0.Some?
    ensures ConsistentStarts(ordered) && Rest(c, ordered, 0, Start(c.n, ordered, q)).Finished?
    ensures RunInOrder(c, q, ordered).1 == Rest(c, ordered, 0, Start(c.n, ordered, q)).sim.queue
  {}

  lemma WholeTrace(c: Config, concurrency: nat, maxDepth: nat, first: seq<Call>, events: seq<Event>, s: Sim,
                   trace: seq<Entry>)
    requires concurrency > 0 && TraceSoFar(c, concurrency, maxDepth, first, events, |events|, s, trace)
    ensures IsTrace(c, concurrency, maxDepth, first, events, trace) && Records(trace, s.outcomes)
    ensures s.queue == Reach(concurrency, maxDepth, CallsSoFar(c, first, trace)).queue
  {
    assert events[..|events|] == events;
  }

  lemma OrderedTrace(c: Config, concurrency: nat, maxDepth: nat, calls: seq<Call>, ordered: seq<Event>)
    returns (trace: seq<Entry>)
    requires ValidConfig(c) && concurrency > 0 && Ordered(ordered)
    requires var q := Reach(concurrency, maxDepth, calls).queue; Rest(c, ordered, 0, Start(c.n, ordered, q)).Finished?
    ensures IsTrace(c, concurrency, maxDepth, calls, ordered, trace)
    ensures var end := Rest(c, ordered, 0, Start(c.n, ordered, Reach(concurrency, maxDepth, calls).queue));
      && Records(trace, end.sim.outcomes)
      && end.sim.queue == Reach(concurrency, maxDepth, CallsSoFar(c, calls, trace)).queue
  {
    var start := Start(c.n, ordered, Reach(concurrency, maxDepth, calls).queue);
    StartTrace(c, concurrency, maxDepth, calls, ordered);
    trace := RestTrace(c, concurrency, maxDepth, calls, ordered, 0, start, []);
    WholeTrace(c, concurrency, maxDepth, calls, ordered, Rest(c, ordered, 0, start).sim, trace);
  }

  lemma OrderedReport(c: Config, q: Queue, ordered: seq<Event>, trace: seq<Entry>, id: RequestId)
    requires ValidConfig(c) && QueueFits(q) && Ordered(ordered) && RunInOrder(c, q, ordered).0.Some?
    requires Rest(c, ordered, 0, Start(c.n, ordered, q)).Finished?
    requires Records(trace, Rest(c, ordered, 0, Start(c.n, ordered, q)).sim.outcomes)
    requires id in RunInOrder(c, q, ordered).0.value
    ensures Reports(ordered, c.k, trace, id, RunInOrder(c, q, ordered).0.value[id])
  {
    NaturalIsFirstComplete(c, q, ordered);
    forall e | e in ordered && e.request == id ensures e.start == StartTimes(ordered)[id] {
      RecoverySchedule.StartOf(ordered, e);
    }
    MetricsReport(ordered, c.k, trace, Rest(c, ordered, 0, Start(c.n, ordered, q)).sim.outcomes, id,
                  StartTimes(ordered)[id]);
  }

  /**
   * Every finished run has such a list of decisions: one for each request and time with arrivals, in order, each on the
   * earliest arrivals by then and on the queue as the calls before leave it. The list ends with the queue left behind,
   * and every request's metrics report its verdicts, its natural completion and the end of its recovery.
   */
  lemma RunHasTrace(c: Config, concurrency: nat, maxDepth: nat, calls: seq<Call>, events: seq<Event>)
    returns (trace: seq<Entry>)
    requires ValidConfig(c) && concurrency > 0
    requires Outcome(c, Reach(concurrency, maxDepth, calls).queue, events).0.Some?
    ensures IsTrace(c, concurrency, maxDepth, calls, events, trace)
    ensures var (metrics, left) := Outcome(c, Reach(concurrency, maxDepth, calls).queue, events);
      && left == Reach(concurrency, maxDepth, CallsSoFar(c, calls, trace)).queue
      && metrics.value.Keys == RequestsOf(events)
      && forall id | id in metrics.value :: Reports(events, c.k, trace, id, metrics.value[id])
  {
    var q, ordered := Reach(concurrency, maxDepth, calls).queue, SortEvents(events);
    SortEventsSorts(events);
    RunFinished(c, q, ordered);
    trace := OrderedTrace(c, concurrency, maxDepth, calls, ordered);
    RecoverySchedule.SameEvents(ordered, events);
    TracePermutes(c, concurrency, maxDepth, calls, ordered, events, trace);
    Sweep.SameRequests(events, ordered);
    forall id | id in RequestsOf(events) ensures Reports(events, c.k, trace, id, Outcome(c, q, events).0.value[id]) {
      OrderedReport(c, q, ordered, trace, id);
      ReportPermutes(ordered, events, c.k, trace, id, Outcome(c, q, events).0.value[id]);
    }
  }

  // ---------- the exact wait oracle ----------

  /** At this decision the request is incomplete, not being recovered, recoverable and quoted to end before t. */
  predicate InTime(c: Config, concurrency: nat, maxDepth: nat, trace: seq<Entry>, p: nat, t: int)
    requires p < |trace| && concurrency > 0 && c.k <= |trace[p].arrived|
  {
    var e, q := trace[p], Reach(concurrency, maxDepth, trace[p].calls).queue;
    var plan := c.policy(e.arrived);
    && (exists shard | 0 <= shard < c.k :: e.arrived[shard].None?) && !Admitted(trace[..p], e.id)
    && plan.isRecoverable && q.depth < q.maxDepth
    && var quote := Quote(q, e.time, c.service(plan)); quote.Cost? && e.time + quote.cost < t
  }

  lemma QuotesArePositive(q: Queue, now: int, service: int)
    requires q.slots != [] && Quote(q, now, service).Cost?
    ensures Quote(q, now, service).cost > 0
  {}

  lemma AdmitsInTime(c: Config, concurrency: nat, maxDepth: nat, first: seq<Call>, trace: seq<Entry>, p: nat,
                     times: map<RequestId, int>)
    requires p < |trace| && concurrency > 0 && Justified(c, concurrency, maxDepth, first, trace, p)
    requires c.wait == Sweep.ExactWait(times) && trace[p].id in times
    ensures trace[p].verdict.Admits? <==> InTime(c, concurrency, maxDepth, trace, p, times[trace[p].id])
  {
    var e, q := trace[p], Reach(concurrency, maxDepth, trace[p].calls).queue;
    assert c.wait(e.id, e.time) == Max(times[e.id] - e.time, 0);
    var quote := Quote(q, e.time, c.service(c.policy(e.arrived)));
    if quote.Cost? { QuotesArePositive(q, e.time, c.service(c.policy(e.arrived))); }
  }

  /**
   * With the exact wait oracle a request is admitted if and only if at some decision, before any admission, it is
   * incomplete and recoverable and quoted to end before its last systematic arrival.
   */
  lemma AdmittedIffInTime(c: Config, concurrency: nat, maxDepth: nat, calls: seq<Call>, events: seq<Event>,
                          id: RequestId)
    returns (trace: seq<Entry>)
    requires ValidConfig(c) && concurrency > 0 && c.wait == Sweep.ExactWait(Sweep.CompletionTimes(events, c.k))
    requires var metrics := Outcome(c, Reach(concurrency, maxDepth, calls).queue, events).0;
      metrics.Some? && id in metrics.value
    ensures IsTrace(c, concurrency, maxDepth, calls, events, trace) && id in Sweep.CompletionTimes(events, c.k)
    ensures Outcome(c, Reach(concurrency, maxDepth, calls).queue, events).0.value[id].admitted
      <==> exists p :: && 0 <= p < |trace| && trace[p].id == id
                       && InTime(c, concurrency, maxDepth, trace, p, Sweep.CompletionTimes(events, c.k)[id])
  {
    var q, times := Reach(concurrency, maxDepth, calls).queue, Sweep.CompletionTimes(events, c.k);
    trace := RunHasTrace(c, concurrency, maxDepth, calls, events);
    Sweep.RequestNeverLoses(c, q, events, id);
    assert Reports(events, c.k, trace, id, Outcome(c, q, events).0.value[id]);
    forall p | 0 <= p < |trace| && trace[p].id == id
      ensures |trace[p].arrived| >= c.k
      ensures trace[p].verdict.Admits? <==> InTime(c, concurrency, maxDepth, trace, p, times[id])
    {
      assert Justified(c, concurrency, maxDepth, calls, trace, p);
      AdmitsInTime(c, concurrency, maxDepth, calls, trace, p, times);
    }
  }
}
