/** The simulated recovery queue: a bounded multi-server queue with a cost quote. Times are microseconds. */
module Queueing {
  import opened Shards
  import opened Graphs
  import Executor

  predicate Sorted(s: seq<int>) {
    forall i, j | 0 <= i < j < |s| :: s[i] <= s[j]
  }

  /** `completions` is the ordered multiset of completion times still ahead. */
  datatype Queue = Queue(slots: seq<int>, maxDepth: nat, depth: nat, completions: seq<int>, now: int)

  function Init(concurrency: nat, maxDepth: nat): Queue {
    Queue(seq(concurrency, _ => 0), maxDepth, 0, [], 0)
  }

  function Max(a: int, b: int): int { if a < b then b else a }

  /** The first slot that becomes free earliest. */
  function FirstMin(slots: seq<int>): (m: nat)
    requires slots != []
    ensures m < |slots|
    ensures forall i | 0 <= i < |slots| :: slots[m] <= slots[i]
    ensures forall i | 0 <= i < m :: slots[m] < slots[i]
  {
    var last := |slots| - 1;
    if last == 0 then 0
    else var m := FirstMin(slots[..last]); if slots[last] < slots[m] then last else m
  }

  /** Position of the first element beyond x. */
  function UpperBound(s: seq<int>, x: int): (i: nat)
    ensures i <= |s|
    ensures forall j | 0 <= j < i :: s[j] <= x
    ensures i < |s| ==> s[i] > x
  {
    if s == [] || s[0] > x then 0 else 1 + UpperBound(s[1..], x)
  }

  function Inserted(s: seq<int>, x: int): (r: seq<int>)
    ensures |r| == |s| + 1
  {
    var i := UpperBound(s, x);
    s[..i] + [x] + s[i..]
  }

  lemma InsertedElements(s: seq<int>, x: int)
    ensures multiset(Inserted(s, x)) == multiset(s) + multiset{x}
  {
    var i := UpperBound(s, x);
    assert s == s[..i] + s[i..];
  }

  lemma InsertedIsSorted(s: seq<int>, x: int)
    requires Sorted(s)
    ensures Sorted(Inserted(s, x))
  {
    var i, r := UpperBound(s, x), Inserted(s, x);
    forall j | 0 <= j < |r| ensures r[j] == if j < i then s[j] else if j == i then x else s[j - 1] {}
    forall j | i <= j < |s| ensures s[i] <= s[j] {}
  }

  /** None when time would run backwards. */
  function Advance(q: Queue, now: int): Option<Queue>
    requires q.depth == |q.completions|
  {
    if now < q.now then None
    else
      var done := UpperBound(q.completions, now);
      Some(q.(completions := q.completions[done..], depth := q.depth - done, now := now))
  }

  datatype Quoted = Invalid | Full | Cost(cost: int)

  function Quote(q: Queue, now: int, service: int): Quoted
    requires q.slots != []
  {
    if now < q.now || service <= 0 then Invalid
    else if q.depth >= q.maxDepth then Full
    else Cost(Max(now, q.slots[FirstMin(q.slots)]) - now + service)
  }

  datatype Submission = Threw | Refused | Accepted

  /** Submitting compares `now` with the queue's time but does not advance it. */
  function Submit(q: Queue, now: int, service: int): (Queue, Submission)
    requires q.slots != []
  {
    if now < q.now || service <= 0 then (q, Threw)
    else if q.depth >= q.maxDepth then (q, Refused)
    else
      var m := FirstMin(q.slots);
      var completion := Max(now, q.slots[m]) + service;
      (q.(slots := q.slots[m := completion], completions := Inserted(q.completions, completion), depth := q.depth + 1),
       Accepted)
  }

  // ---------- call sequences and the schedule they produce ----------

  datatype Job = Job(slot: nat, submitted: int, start: int, end: int)

  datatype Call = AdvanceTo(now: int) | SubmitAt(now: int, service: int)

  datatype History = History(queue: Queue, jobs: seq<Job>)

  function NewJob(q: Queue, now: int, service: int): Job
    requires q.slots != []
  {
    var m := FirstMin(q.slots);
    Job(m, now, Max(now, q.slots[m]), Max(now, q.slots[m]) + service)
  }

  /** A call that throws or is refused changes nothing. */
  function Step(h: History, call: Call): History
    requires h.queue.slots != [] && h.queue.depth == |h.queue.completions|
  {
    match call
    case AdvanceTo(now) =>
      var q := Advance(h.queue, now);
      if q.Some? then h.(queue := q.value) else h
    case SubmitAt(now, service) =>
      var (q, outcome) := Submit(h.queue, now, service);
      if outcome.Accepted? then History(q, h.jobs + [NewJob(h.queue, now, service)]) else h
  }

  function Reach(concurrency: nat, maxDepth: nat, calls: seq<Call>): (h: History)
    requires concurrency > 0
    ensures |h.queue.slots| == concurrency && h.queue.depth == |h.queue.completions|
  {
    if calls == [] then History(Init(concurrency, maxDepth), [])
    else Step(Reach(concurrency, maxDepth, calls[..|calls| - 1]), calls[|calls| - 1])
  }

  // ---------- counting jobs ----------

  /** n services of the same length, added up. */
  function Work(n: nat, service: int): (r: int)
    ensures service >= 0 ==> r >= 0
  {
    if n == 0 then 0 else Work(n - 1, service) + service
  }

  lemma {:induction false} WorkIsProduct(n: nat, service: int)
    ensures Work(n, service) == n * service
  {
    if n > 0 { WorkIsProduct(n - 1, service); }
  }

  lemma {:induction false} WorkGrows(a: nat, b: nat, bound: nat)
    requires a <= b
    ensures Work(a, bound) <= Work(b, bound)
  {
    if a < b { WorkGrows(a, b - 1, bound); }
  }

  function Count(jobs: seq<Job>, p: Job -> bool): nat {
    if jobs == [] then 0
    else Count(jobs[..|jobs| - 1], p) + if p(jobs[|jobs| - 1]) then 1 else 0
  }

  lemma CountSnoc(jobs: seq<Job>, job: Job, p: Job -> bool)
    ensures Count(jobs + [job], p) == Count(jobs, p) + if p(job) then 1 else 0
  {
    assert (jobs + [job])[..|jobs|] == jobs;
  }

  function OnSlot(x: nat, p: Job -> bool): Job -> bool {
    (job: Job) => job.slot == x && p(job)
  }

  function EndsAfter(t: int): Job -> bool {
    (job: Job) => job.end > t
  }

  function RunsAt(t: int): Job -> bool {
    (job: Job) => job.start <= t < job.end
  }

  function SumOverSlots(jobs: seq<Job>, p: Job -> bool, n: nat): nat {
    if n == 0 then 0 else SumOverSlots(jobs, p, n - 1) + Count(jobs, OnSlot(n - 1, p))
  }

  lemma {:induction false} SumSnoc(jobs: seq<Job>, job: Job, p: Job -> bool, n: nat)
    ensures SumOverSlots(jobs + [job], p, n) == SumOverSlots(jobs, p, n) + if p(job) && job.slot < n then 1 else 0
  {
    if n > 0 {
      SumSnoc(jobs, job, p, n - 1);
      CountSnoc(jobs, job, OnSlot(n - 1, p));
    }
  }

  lemma {:induction false} NoJobsNoSum(p: Job -> bool, n: nat)
    ensures SumOverSlots([], p, n) == 0
  {
    if n > 0 { NoJobsNoSum(p, n - 1); }
  }

  /** Jobs counted slot by slot are all jobs. */
  lemma {:induction false} CountBySlots(jobs: seq<Job>, p: Job -> bool, n: nat)
    requires forall i | 0 <= i < |jobs| :: jobs[i].slot < n
    ensures SumOverSlots(jobs, p, n) == Count(jobs, p)
  {
    if jobs == [] {
      NoJobsNoSum(p, n);
    } else {
      var front, last := jobs[..|jobs| - 1], jobs[|jobs| - 1];
      CountBySlots(front, p, n);
      assert jobs == front + [last];
      SumSnoc(front, last, p, n);
    }
  }

  /** Some slot holds at most its share. */
  lemma {:induction false} SomeSlotHoldsAtMost(jobs: seq<Job>, p: Job -> bool, n: nat, bound: nat) returns (x: nat)
    requires SumOverSlots(jobs, p, n) < Work(n, bound + 1)
    ensures x < n && Count(jobs, OnSlot(x, p)) <= bound
  {
    if Count(jobs, OnSlot(n - 1, p)) <= bound {
      x := n - 1;
    } else {
      x := SomeSlotHoldsAtMost(jobs, p, n - 1, bound);
    }
  }

  lemma {:induction false} SumAtMost(jobs: seq<Job>, p: Job -> bool, n: nat)
    requires forall x: nat | x < n :: Count(jobs, OnSlot(x, p)) <= 1
    ensures SumOverSlots(jobs, p, n) <= n
  {
    if n > 0 { SumAtMost(jobs, p, n - 1); }
  }

  // ---------- the schedule is valid ----------

  /** One slot runs one job at a time, in submission order. */
  predicate SlotsDoNotOverlap(jobs: seq<Job>) {
    forall i, j | 0 <= i < j < |jobs| && jobs[i].slot == jobs[j].slot :: jobs[i].end <= jobs[j].start
  }

  /** Jobs start no earlier than submitted, run in their slot, and leave it free when it says. */
  predicate JobsFit(slots: seq<int>, jobs: seq<Job>) {
    && (forall i | 0 <= i < |jobs| :: jobs[i].slot < |slots| && jobs[i].end <= slots[jobs[i].slot])
    && (forall i | 0 <= i < |jobs| :: jobs[i].submitted <= jobs[i].start < jobs[i].end)
    && SlotsDoNotOverlap(jobs)
  }

  /** Completion times of the jobs that are not done at `now`. */
  function PendingEnds(jobs: seq<Job>, now: int): (r: multiset<int>)
    ensures |r| == Count(jobs, EndsAfter(now))
  {
    if jobs == [] then multiset{}
    else
      var last := jobs[|jobs| - 1];
      PendingEnds(jobs[..|jobs| - 1], now) + if last.end > now then multiset{last.end} else multiset{}
  }

  lemma PendingEndsSnoc(jobs: seq<Job>, job: Job, now: int)
    ensures PendingEnds(jobs + [job], now)
      == PendingEnds(jobs, now) + if job.end > now then multiset{job.end} else multiset{}
  {
    assert (jobs + [job])[..|jobs|] == jobs;
  }

  lemma {:induction false} PendingEndsLater(jobs: seq<Job>, now: int, later: int, v: int)
    requires now <= later
    ensures PendingEnds(jobs, later)[v] == if v > later then PendingEnds(jobs, now)[v] else 0
  {
    if jobs != [] { PendingEndsLater(jobs[..|jobs| - 1], now, later, v); }
  }

  lemma CountsFrom(s: seq<int>, i: nat, x: int, v: int)
    requires i <= |s|
    requires (forall j | 0 <= j < i :: s[j] <= x) && (forall j | i <= j < |s| :: s[j] > x)
    ensures multiset(s[i..])[v] == if v > x then multiset(s)[v] else 0
  {
    assert s == s[..i] + s[i..];
    if v > x { assert v !in s[..i]; } else { assert v !in s[i..]; }
  }

  lemma DroppedBelow(s: seq<int>, x: int, v: int)
    requires Sorted(s)
    ensures multiset(s[UpperBound(s, x)..])[v] == if v > x then multiset(s)[v] else 0
  {
    var i := UpperBound(s, x);
    assert forall j | i <= j < |s| :: s[i] <= s[j];
    CountsFrom(s, i, x, v);
  }

  /** The queue's depth and completion times are those of the unfinished jobs. */
  predicate Inv(h: History) {
    var q := h.queue;
    && q.slots != [] && Sorted(q.completions)
    && q.depth == |q.completions| <= q.maxDepth
    && JobsFit(q.slots, h.jobs)
    && multiset(q.completions) == PendingEnds(h.jobs, q.now)
  }

  lemma AdvanceKeepsInv(h: History, now: int)
    requires Inv(h)
    ensures Inv(Step(h, AdvanceTo(now)))
  {
    if now >= h.queue.now {
      var q' := Advance(h.queue, now).value;
      forall v: int ensures multiset(q'.completions)[v] == PendingEnds(h.jobs, now)[v] {
        DroppedBelow(h.queue.completions, now, v);
        PendingEndsLater(h.jobs, h.queue.now, now, v);
      }
      assert multiset(q'.completions) == PendingEnds(h.jobs, now);
    }
  }

  lemma NewJobFits(slots: seq<int>, jobs: seq<Job>, job: Job)
    requires JobsFit(slots, jobs) && job.slot < |slots| && slots[job.slot] <= job.start
    requires job.submitted <= job.start < job.end
    ensures JobsFit(slots[job.slot := job.end], jobs + [job])
  {}

  lemma NewCompletion(q: Queue, jobs: seq<Job>, job: Job)
    requires Sorted(q.completions) && multiset(q.completions) == PendingEnds(jobs, q.now) && job.end > q.now
    ensures Sorted(Inserted(q.completions, job.end))
    ensures multiset(Inserted(q.completions, job.end)) == PendingEnds(jobs + [job], q.now)
  {
    PendingEndsSnoc(jobs, job, q.now);
    InsertedElements(q.completions, job.end);
    InsertedIsSorted(q.completions, job.end);
  }

  /** The queue with one more job booked. */
  function Booked(q: Queue, job: Job): Queue
    requires job.slot < |q.slots|
  {
    q.(slots := q.slots[job.slot := job.end], completions := Inserted(q.completions, job.end), depth := q.depth + 1)
  }

  lemma BookingKeepsInv(h: History, job: Job)
    requires Inv(h) && job.slot < |h.queue.slots| && h.queue.depth < h.queue.maxDepth
    requires h.queue.slots[job.slot] <= job.start && job.submitted <= job.start < job.end && h.queue.now < job.end
    ensures Inv(History(Booked(h.queue, job), h.jobs + [job]))
  {
    NewCompletion(h.queue, h.jobs, job);
    NewJobFits(h.queue.slots, h.jobs, job);
  }

  lemma SubmitBooks(h: History, now: int, service: int)
    requires h.queue.slots != [] && h.queue.depth == |h.queue.completions|
    ensures var job := NewJob(h.queue, now, service);
      Step(h, SubmitAt(now, service)) ==
        if now < h.queue.now || service <= 0 || h.queue.depth >= h.queue.maxDepth then h
        else History(Booked(h.queue, job), h.jobs + [job])
  {}

  lemma SubmitKeepsInv(h: History, now: int, service: int)
    requires Inv(h)
    ensures Inv(Step(h, SubmitAt(now, service)))
  {
    SubmitBooks(h, now, service);
    if now >= h.queue.now && service > 0 && h.queue.depth < h.queue.maxDepth {
      BookingKeepsInv(h, NewJob(h.queue, now, service));
    }
  }

  lemma {:induction false} ReachKeepsInv(concurrency: nat, maxDepth: nat, calls: seq<Call>)
    requires concurrency > 0
    ensures Inv(Reach(concurrency, maxDepth, calls))
    ensures Reach(concurrency, maxDepth, calls).queue.maxDepth == maxDepth
  {
    if calls != [] {
      ReachKeepsInv(concurrency, maxDepth, calls[..|calls| - 1]);
      var h := Reach(concurrency, maxDepth, calls[..|calls| - 1]);
      match calls[|calls| - 1]
      case AdvanceTo(now) => AdvanceKeepsInv(h, now);
      case SubmitAt(now, service) => SubmitKeepsInv(h, now, service);
    }
  }

  lemma DepthIsPending(h: History)
    requires Inv(h)
    ensures h.queue.depth == Count(h.jobs, EndsAfter(h.queue.now))
  {
    assert |multiset(h.queue.completions)| == |h.queue.completions|;
  }

  lemma ReachDepth(concurrency: nat, maxDepth: nat, calls: seq<Call>)
    requires concurrency > 0
    ensures var h := Reach(concurrency, maxDepth, calls);
      h.queue.depth == Count(h.jobs, EndsAfter(h.queue.now)) && h.queue.maxDepth == maxDepth
  {
    ReachKeepsInv(concurrency, maxDepth, calls);
    DepthIsPending(Reach(concurrency, maxDepth, calls));
  }

  lemma {:induction false} OneAtATime(jobs: seq<Job>, x: nat, t: int)
    requires SlotsDoNotOverlap(jobs)
    ensures Count(jobs, OnSlot(x, RunsAt(t))) <= 1
    ensures Count(jobs, OnSlot(x, RunsAt(t))) == 1 ==>
      exists i | 0 <= i < |jobs| :: jobs[i].slot == x && jobs[i].start <= t < jobs[i].end
  {
    if jobs != [] {
      var front, last := jobs[..|jobs| - 1], jobs[|jobs| - 1];
      OneAtATime(front, x, t);
      if Count(front, OnSlot(x, RunsAt(t))) == 1 {
        var i :| 0 <= i < |front| && front[i].slot == x && front[i].start <= t < front[i].end;
        assert jobs[i] == front[i];
      }
    }
  }

  /**
   * Over all call sequences: a slot runs one job at a time, at most `concurrency` jobs run at any instant, and the
   * depth is the number of submitted jobs that complete after the current time, never more than the maximum.
   */
  lemma ScheduleIsValid(concurrency: nat, maxDepth: nat, calls: seq<Call>)
    requires concurrency > 0
    ensures var h := Reach(concurrency, maxDepth, calls);
      && SlotsDoNotOverlap(h.jobs)
      && (forall t: int :: Count(h.jobs, RunsAt(t)) <= concurrency)
      && h.queue.depth == Count(h.jobs, EndsAfter(h.queue.now)) <= maxDepth
  {
    var h := Reach(concurrency, maxDepth, calls);
    ReachKeepsInv(concurrency, maxDepth, calls);
    DepthIsPending(h);
    forall t: int ensures Count(h.jobs, RunsAt(t)) <= concurrency {
      CountBySlots(h.jobs, RunsAt(t), concurrency);
      forall x: nat | x < concurrency ensures Count(h.jobs, OnSlot(x, RunsAt(t))) <= 1 { OneAtATime(h.jobs, x, t); }
      SumAtMost(h.jobs, RunsAt(t), concurrency);
    }
  }

  /** A quote is a promise: submitting right away is accepted exactly when there is a quote, and completes after it. */
  lemma QuoteIsHonest(h: History, now: int, service: int)
    requires h.queue.slots != [] && h.queue.depth == |h.queue.completions|
    ensures var h', quote := Step(h, SubmitAt(now, service)), Quote(h.queue, now, service);
      if quote.Cost? then |h'.jobs| == |h.jobs| + 1 && h'.jobs[|h.jobs|].end - now == quote.cost else h' == h
  {}

  // ---------- work conservation ----------

  /** Submissions came in order of time. */
  predicate Monotone(jobs: seq<Job>) {
    forall i, j | 0 <= i < j < |jobs| :: jobs[i].submitted <= jobs[j].submitted
  }

  /** In order of time, none after t. */
  predicate InOrder(jobs: seq<Job>, t: int) {
    Monotone(jobs) && forall i | 0 <= i < |jobs| :: jobs[i].submitted <= t
  }

  predicate Busy(jobs: seq<Job>, x: nat, t: int) {
    exists i | 0 <= i < |jobs| :: jobs[i].slot == x && jobs[i].start <= t < jobs[i].end
  }

  lemma BusyStays(jobs: seq<Job>, job: Job, x: nat, t: int)
    requires Busy(jobs, x, t)
    ensures Busy(jobs + [job], x, t)
  {
    var i :| 0 <= i < |jobs| && jobs[i].slot == x && jobs[i].start <= t < jobs[i].end;
    assert (jobs + [job])[i] == jobs[i];
  }

  lemma FrontInOrder(jobs: seq<Job>, job: Job)
    requires Monotone(jobs + [job])
    ensures InOrder(jobs, job.submitted)
  {
    var all := jobs + [job];
    assert all[|jobs|] == job;
    assert forall i | 0 <= i < |jobs| :: all[i] == jobs[i];
  }

  /** From the last submission on, a slot works without a gap until it becomes free. */
  lemma {:induction false} SlotsWorkThrough(concurrency: nat, maxDepth: nat, calls: seq<Call>, x: nat, t: int)
    requires 0 < concurrency && x < concurrency
    requires InOrder(Reach(concurrency, maxDepth, calls).jobs, t)
    requires 0 <= t < Reach(concurrency, maxDepth, calls).queue.slots[x]
    ensures Busy(Reach(concurrency, maxDepth, calls).jobs, x, t)
  {
    if calls != [] {
      var front, call := calls[..|calls| - 1], calls[|calls| - 1];
      var h, h' := Reach(concurrency, maxDepth, front), Reach(concurrency, maxDepth, calls);
      if h'.jobs == h.jobs {
        SlotsWorkThrough(concurrency, maxDepth, front, x, t);
      } else {
        var job := NewJob(h.queue, call.now, call.service);
        FrontInOrder(h.jobs, job);
        assert h'.jobs[|h.jobs|] == job;
        if job.slot != x || t < job.start {
          SlotsWorkThrough(concurrency, maxDepth, front, x, t);
          BusyStays(h.jobs, job, x, t);
        }
      }
    }
  }

  /** With submissions in order of time, a job is delayed only while every slot is busy. */
  lemma {:induction false} DelayedOnlyWhileBusy(concurrency: nat, maxDepth: nat, calls: seq<Call>, i: nat, x: nat,
                                                t: int)
    requires 0 < concurrency && x < concurrency
    requires var jobs := Reach(concurrency, maxDepth, calls).jobs;
      i < |jobs| && jobs[i].submitted <= t < jobs[i].start && Monotone(jobs)
    ensures Busy(Reach(concurrency, maxDepth, calls).jobs, x, t)
  {
    if calls != [] {
      var front, call := calls[..|calls| - 1], calls[|calls| - 1];
      var h, h' := Reach(concurrency, maxDepth, front), Reach(concurrency, maxDepth, calls);
      if h'.jobs == h.jobs {
        DelayedOnlyWhileBusy(concurrency, maxDepth, front, i, x, t);
      } else {
        var job := NewJob(h.queue, call.now, call.service);
        FrontInOrder(h.jobs, job);
        if i < |h.jobs| {
          DelayedOnlyWhileBusy(concurrency, maxDepth, front, i, x, t);
        } else {
          assert InOrder(h.jobs, t);
          NowIsNotNegative(concurrency, maxDepth, front);
          SlotsWorkThrough(concurrency, maxDepth, front, x, t);
        }
        BusyStays(h.jobs, job, x, t);
      }
    }
  }

  lemma {:induction false} NowIsNotNegative(concurrency: nat, maxDepth: nat, calls: seq<Call>)
    requires concurrency > 0
    ensures Reach(concurrency, maxDepth, calls).queue.now >= 0
  {
    if calls != [] { NowIsNotNegative(concurrency, maxDepth, calls[..|calls| - 1]); }
  }

  // ---------- how good the estimate is ----------

  predicate ServedWithin(jobs: seq<Job>, t: int, bound: int) {
    forall i | 0 <= i < |jobs| && jobs[i].end > t :: jobs[i].end - jobs[i].start <= bound
  }

  /** Submissions up to now came in order of time, and every unfinished job takes at most `bound`. */
  predicate Steady(h: History, now: int, bound: int) {
    h.queue.now <= now && InOrder(h.jobs, now) && ServedWithin(h.jobs, now, bound)
  }

  lemma BacklogStep(slots: seq<int>, jobs: seq<Job>, job: Job, x: nat, t: int, bound: nat)
    requires x < |slots| && job.slot < |slots|
    requires slots[x] - t <= Work(Count(jobs, OnSlot(x, EndsAfter(t))), bound)
    requires job.start == Max(job.submitted, slots[job.slot]) && job.submitted <= t
    requires job.end > t ==> job.end - job.start <= bound
    ensures slots[job.slot := job.end][x] - t <= Work(Count(jobs + [job], OnSlot(x, EndsAfter(t))), bound)
  {
    CountSnoc(jobs, job, OnSlot(x, EndsAfter(t)));
  }

  predicate AddsJob(h: History, h': History, job: Job) {
    && h.queue.slots != [] && h'.jobs == h.jobs + [job] && job.submitted >= h.queue.now
    && job.slot == FirstMin(h.queue.slots) && job.start == Max(job.submitted, h.queue.slots[job.slot])
    && h'.queue.slots == h.queue.slots[job.slot := job.end]
  }

  /** A call adds one job at the end of its slot, or leaves jobs and slots alone. */
  lemma StepAddsJob(h: History, call: Call)
    requires h.queue.slots != [] && h.queue.depth == |h.queue.completions|
    ensures var h' := Step(h, call);
      || (h'.jobs == h.jobs && h'.queue.slots == h.queue.slots)
      || (call.SubmitAt? && AddsJob(h, h', NewJob(h.queue, call.now, call.service)))
  {}

  /** A slot's backlog at t is at most one service time per unfinished job on it. */
  lemma {:induction false} SlotBacklog(concurrency: nat, maxDepth: nat, calls: seq<Call>, x: nat, t: int, bound: nat)
    requires 0 < concurrency && x < concurrency && t >= 0
    requires var jobs := Reach(concurrency, maxDepth, calls).jobs; InOrder(jobs, t) && ServedWithin(jobs, t, bound)
    ensures var h := Reach(concurrency, maxDepth, calls);
      h.queue.slots[x] - t <= Work(Count(h.jobs, OnSlot(x, EndsAfter(t))), bound)
  {
    if calls != [] {
      var front := calls[..|calls| - 1];
      var h, h' := Reach(concurrency, maxDepth, front), Reach(concurrency, maxDepth, calls);
      StepAddsJob(h, calls[|front|]);
      assert h'.jobs != h.jobs ==> h'.jobs[|h.jobs|] == NewJob(h.queue, calls[|front|].now, calls[|front|].service);
      assert forall i | 0 <= i < |h.jobs| :: h'.jobs[i] == h.jobs[i];
      SlotBacklog(concurrency, maxDepth, front, x, t, bound);
      if h'.jobs != h.jobs {
        BacklogStep(h.queue.slots, h.jobs, h'.jobs[|h.jobs|], x, t, bound);
      }
    }
  }

  /** Full waves of c jobs among n. */
  function Waves(n: nat, c: nat): nat
    requires c > 0
  {
    if n < c then 0 else 1 + Waves(n - c, c)
  }

  lemma {:induction false} WavesIsQuotient(n: nat, c: nat)
    requires c > 0
    ensures Waves(n, c) == n / c
  {
    if n >= c {
      WavesIsQuotient(n - c, c);
      QuotientStep(n, c);
    } else {
      QuotientBelow(n, c);
    }
  }

  lemma AtLeastOnce(c: int, d: int)
    requires c >= 0 && d >= 1
    ensures c * d >= c
  {}

  lemma OnlyZero(c: int, d: int)
    requires c > 0 && -c < c * d < c
    ensures d == 0
  {
    if d >= 1 { AtLeastOnce(c, d); }
    if d <= -1 { AtLeastOnce(c, -d); }
  }

  lemma QuotientStep(n: nat, c: nat)
    requires n >= c > 0
    ensures n / c == (n - c) / c + 1
  {
    var a, b := n / c, (n - c) / c;
    assert c * (a - b - 1) == c * a - c * b - c;
    OnlyZero(c, a - b - 1);
  }

  lemma QuotientBelow(n: nat, c: nat)
    requires n < c
    ensures n / c == 0
  {
    OnlyZero(c, n / c);
  }

  lemma {:induction false} WavesBound(n: nat, c: nat)
    requires c > 0
    ensures n < Work(c, Waves(n, c) + 1)
  {
    if n >= c {
      WavesBound(n - c, c);
      WorkOfOneMore(c, Waves(n - c, c) + 1);
    } else {
      WorkOfOneMore(c, 0);
    }
  }

  lemma {:induction false} WorkOfOneMore(n: nat, service: nat)
    ensures Work(n, service + 1) == Work(n, service) + n
  {
    if n > 0 { WorkOfOneMore(n - 1, service); }
  }

  lemma {:induction false} WavesOf(w: nat, c: nat, r: nat)
    requires r < c
    ensures Waves(Work(w, c) + r, c) == w
  {
    if w > 0 { WavesOf(w - 1, c, r); }
  }

  /** Slots are those of the jobs, and no slot's backlog exceeds one `bound` per unfinished job on it. */
  ghost predicate BacklogFits(h: History, concurrency: nat, now: int, bound: nat) {
    && concurrency > 0 && |h.queue.slots| == concurrency
    && (forall i | 0 <= i < |h.jobs| :: h.jobs[i].slot < concurrency)
    && forall x: nat | x < concurrency ::
         h.queue.slots[x] - now <= Work(Count(h.jobs, OnSlot(x, EndsAfter(now))), bound)
  }

  lemma ReachBacklog(concurrency: nat, maxDepth: nat, calls: seq<Call>, now: int, bound: nat)
    requires concurrency > 0 && Steady(Reach(concurrency, maxDepth, calls), now, bound)
    ensures BacklogFits(Reach(concurrency, maxDepth, calls), concurrency, now, bound)
  {
    ReachKeepsInv(concurrency, maxDepth, calls);
    NowIsNotNegative(concurrency, maxDepth, calls);
    forall x: nat | x < concurrency
      ensures Reach(concurrency, maxDepth, calls).queue.slots[x] - now
        <= Work(Count(Reach(concurrency, maxDepth, calls).jobs, OnSlot(x, EndsAfter(now))), bound)
    {
      SlotBacklog(concurrency, maxDepth, calls, x, now, bound);
    }
  }

  /** When the unfinished jobs are fewer than share + 1 per slot, a quote is at most share + 1 services. */
  lemma QuoteIsShare(h: History, concurrency: nat, now: int, service: int, bound: nat, share: nat)
    requires BacklogFits(h, concurrency, now, bound)
    requires Count(h.jobs, EndsAfter(now)) < Work(concurrency, share + 1)
    requires Quote(h.queue, now, service).Cost? && service <= bound
    ensures Quote(h.queue, now, service).cost <= Work(share + 1, bound)
  {
    CountBySlots(h.jobs, EndsAfter(now), concurrency);
    var x := SomeSlotHoldsAtMost(h.jobs, EndsAfter(now), concurrency, share);
    WorkGrows(Count(h.jobs, OnSlot(x, EndsAfter(now))), share, bound);
  }

  /** The completion wave of a job behind n others on c servers, times the service time. */
  function WaveTime(n: nat, c: nat, service: int): int
    requires c > 0
  {
    (n / c + 1) * service
  }

  lemma WaveCost(n: nat, c: nat, service: int)
    requires c > 0
    ensures Work(Waves(n, c) + 1, service) == WaveTime(n, c, service)
  {
    WavesIsQuotient(n, c);
    WorkIsProduct(Waves(n, c) + 1, service);
  }

  lemma CostAsWaveTime(quote: Quoted, n: nat, c: nat, service: int)
    requires c > 0 && quote.Cost?
    ensures quote.cost == Work(Waves(n, c) + 1, service) ==> quote == Cost(WaveTime(n, c, service))
    ensures quote.cost <= Work(Waves(n, c) + 1, service) ==> quote.cost <= WaveTime(n, c, service)
  {
    WaveCost(n, c, service);
  }

  /** A quote is at most one more service than there are full waves among the unfinished jobs. */
  lemma QuoteInWaves(h: History, concurrency: nat, now: int, service: int, bound: nat, n: nat)
    requires BacklogFits(h, concurrency, now, bound) && n == Count(h.jobs, EndsAfter(now))
    requires Quote(h.queue, now, service).Cost? && service <= bound
    ensures Quote(h.queue, now, service).cost <= WaveTime(n, concurrency, bound)
  {
    WavesBound(n, concurrency);
    QuoteIsShare(h, concurrency, now, service, bound, Waves(n, concurrency));
    CostAsWaveTime(Quote(h.queue, now, service), n, concurrency, bound);
  }

  /**
   * With submissions in order of time and n unfinished jobs of at most `bound` each, a quote for a job of at most
   * `bound` is at most (n / concurrency + 1) times `bound`.
   */
  lemma QuoteIsBounded(concurrency: nat, maxDepth: nat, calls: seq<Call>, now: int, service: int, bound: nat, n: nat)
    requires concurrency > 0 && Steady(Reach(concurrency, maxDepth, calls), now, bound)
    requires n == Count(Reach(concurrency, maxDepth, calls).jobs, EndsAfter(now))
    requires Quote(Reach(concurrency, maxDepth, calls).queue, now, service).Cost? && service <= bound
    ensures Quote(Reach(concurrency, maxDepth, calls).queue, now, service).cost <= WaveTime(n, concurrency, bound)
  {
    ReachBacklog(concurrency, maxDepth, calls, now, bound);
    QuoteInWaves(Reach(concurrency, maxDepth, calls), concurrency, now, service, bound, n);
  }

  /** An executor's estimate, when there is room, is the completion wave behind everything outstanding. */
  lemma EstimateIsWaveTime(e: Executor.State)
    requires e.concurrency > 0
    ensures Executor.EstimateRecoveryCost(e) ==
      if Executor.Outstanding(e) >= e.capacity then None
      else Some(WaveTime(Executor.Outstanding(e), e.concurrency, e.serviceCost))
  {}

  /** The same for a quote at the queue's own time, where the unfinished jobs are the depth. */
  lemma QuoteNow(concurrency: nat, maxDepth: nat, calls: seq<Call>, service: int, bound: nat)
    requires concurrency > 0 && 0 < service <= bound
    requires var h := Reach(concurrency, maxDepth, calls); Steady(h, h.queue.now, bound)
    ensures var q := Reach(concurrency, maxDepth, calls).queue;
      if q.depth >= maxDepth then Quote(q, q.now, service).Full?
      else Quote(q, q.now, service).Cost? && Quote(q, q.now, service).cost <= WaveTime(q.depth, concurrency, bound)
  {
    var h := Reach(concurrency, maxDepth, calls);
    ReachDepth(concurrency, maxDepth, calls);
    if h.queue.depth < maxDepth {
      QuoteIsBounded(concurrency, maxDepth, calls, h.queue.now, service, bound, h.queue.depth);
    }
  }

  /** Quotes covered by an estimate: both are missing, or the quote is at most the estimate. */
  predicate Covers(estimate: Option<nat>, quote: Quoted) {
    if estimate.None? then quote.Full? else quote.Cost? && quote.cost <= estimate.value
  }

  /**
   * The executor's estimate covers the queue it stands for: an executor with c workers and d waiting places is a queue
   * with c slots and depth c + d. Both are full at the same time; otherwise the quote is at most the estimate.
   */
  lemma EstimateCoversQuote(e: Executor.State, calls: seq<Call>, service: int)
    requires e.concurrency > 0 && 0 < service <= e.serviceCost
    requires var h := Reach(e.concurrency, e.capacity, calls);
      Executor.Outstanding(e) == h.queue.depth && Steady(h, h.queue.now, e.serviceCost)
    ensures var q := Reach(e.concurrency, e.capacity, calls).queue;
      Covers(Executor.EstimateRecoveryCost(e), Quote(q, q.now, service))
  {
    EstimateIsWaveTime(e);
    QuoteNow(e.concurrency, e.capacity, calls, service, e.serviceCost);
  }

  // ---------- equal jobs on an idle queue ----------

  function SubmitMany(q: Queue, now: int, service: int, n: nat): (r: Queue)
    requires q.slots != []
    ensures |r.slots| == |q.slots| && r.now == q.now && r.maxDepth == q.maxDepth
  {
    if n == 0 then q else Submit(SubmitMany(q, now, service, n - 1), now, service).0
  }

  /** The slots are level at `base`, except that those `ahead` are one service time further. */
  predicate Levels(slots: seq<int>, now: int, base: int, service: int, ahead: set<nat>) {
    && |ahead| < |slots| && (forall x | x in ahead :: x < |slots|)
    && forall x: nat | x < |slots| :: Max(now, slots[x]) == base + if x in ahead then service else 0
  }

  lemma FirstMinIsLevel(slots: seq<int>, now: int, base: int, service: int, ahead: set<nat>)
    requires Levels(slots, now, base, service, ahead) && service > 0
    ensures FirstMin(slots) !in ahead && Max(now, slots[FirstMin(slots)]) == base
  {
    var all := Range(0, |slots|);
    if all <= ahead { SubsetSize(all, ahead); }
    var y :| y in all && y !in ahead;
    assert Max(now, slots[y]) == base;
    assert slots[FirstMin(slots)] <= slots[y];
  }

  /** One more job on slot m: it moves ahead, or completes a wave. */
  lemma LevelStep(slots: seq<int>, m: nat, now: int, base: int, service: int, ahead: set<nat>)
    requires Levels(slots, now, base, service, ahead) && service > 0
    requires m < |slots| && m !in ahead && Max(now, slots[m]) == base
    ensures var slots' := slots[m := base + service];
      if |ahead| + 1 < |slots| then Levels(slots', now, base, service, ahead + {m}) && |ahead + {m}| == |ahead| + 1
      else Levels(slots', now, base + service, service, {})
  {
    if |ahead| + 1 >= |slots| {
      SubsetSize(ahead + {m}, Range(0, |slots|));
      assert forall x: nat | x < |slots| && x != m :: x in ahead;
    }
  }

  lemma SubmitOne(q: Queue, now: int, service: int)
    requires q.slots != [] && q.now <= now && service > 0 && q.depth < q.maxDepth
    ensures var q', m := Submit(q, now, service).0, FirstMin(q.slots);
      q'.slots == q.slots[m := Max(now, q.slots[m]) + service] && q'.depth == q.depth + 1
  {}

  /** The slots after n equal jobs: w whole waves and one job on each slot ahead. */
  predicate Wave(slots: seq<int>, now: int, service: int, n: nat, w: nat, ahead: set<nat>) {
    Levels(slots, now, now + Work(w, service), service, ahead) && n == Work(w, |slots|) + |ahead|
  }

  lemma WaveStep(slots: seq<int>, m: nat, now: int, service: int, n: nat, w: nat, ahead: set<nat>)
    returns (w': nat, ahead': set<nat>)
    requires Wave(slots, now, service, n, w, ahead) && service > 0
    requires m < |slots| && m !in ahead && Max(now, slots[m]) == now + Work(w, service)
    ensures Wave(slots[m := now + Work(w, service) + service], now, service, n + 1, w', ahead')
  {
    LevelStep(slots, m, now, now + Work(w, service), service, ahead);
    if |ahead| + 1 < |slots| { w', ahead' := w, ahead + {m}; } else { w', ahead' := w + 1, {}; }
  }

  lemma SubmitInWave(q: Queue, now: int, service: int, n: nat, w: nat, ahead: set<nat>)
    returns (w': nat, ahead': set<nat>)
    requires q.slots != [] && q.now <= now && service > 0 && q.depth < q.maxDepth
    requires Wave(q.slots, now, service, n, w, ahead)
    ensures Submit(q, now, service).0.depth == q.depth + 1
    ensures Wave(Submit(q, now, service).0.slots, now, service, n + 1, w', ahead')
  {
    SubmitOne(q, now, service);
    FirstMinIsLevel(q.slots, now, now + Work(w, service), service, ahead);
    w', ahead' := WaveStep(q.slots, FirstMin(q.slots), now, service, n, w, ahead);
  }

  /** A queue after n equal jobs. */
  ghost predicate InWave(q: Queue, now: int, service: int, n: nat) {
    && q.slots != [] && q.now <= now && service > 0 && q.depth == n
    && exists w, ahead :: Wave(q.slots, now, service, n, w, ahead)
  }

  lemma SubmitKeepsWave(q: Queue, now: int, service: int, n: nat)
    requires InWave(q, now, service, n) && n < q.maxDepth
    ensures InWave(Submit(q, now, service).0, now, service, n + 1)
  {
    var w, ahead :| Wave(q.slots, now, service, n, w, ahead);
    var w', ahead' := SubmitInWave(q, now, service, n, w, ahead);
  }

  /** What holds at first and survives each submission holds after all of them. */
  lemma {:induction false} SubmitManyKeeps(q: Queue, now: int, service: int, n: nat, p: (nat, Queue) -> bool)
    requires q.slots != [] && p(0, q)
    requires forall i: nat, r: Queue | i < n && p(i, r) && r.slots != [] && r.maxDepth == q.maxDepth ::
      p(i + 1, Submit(r, now, service).0)
    ensures p(n, SubmitMany(q, now, service, n))
  {
    if n > 0 { SubmitManyKeeps(q, now, service, n - 1, p); }
  }

  lemma SubmitManyInWave(q: Queue, now: int, service: int, n: nat)
    requires q.slots != [] && q.depth == 0 && q.now <= now && service > 0 && n <= q.maxDepth
    requires forall x | 0 <= x < |q.slots| :: q.slots[x] <= now
    ensures InWave(SubmitMany(q, now, service, n), now, service, n)
  {
    assert Wave(q.slots, now, service, 0, 0, {});
    forall i: nat, r: Queue | i < n && InWave(r, now, service, i) && r.maxDepth == q.maxDepth
      ensures InWave(Submit(r, now, service).0, now, service, i + 1)
    {
      SubmitKeepsWave(r, now, service, i);
    }
    SubmitManyKeeps(q, now, service, n, (i: nat, r: Queue) => InWave(r, now, service, i));
  }

  lemma QuoteAtLevel(q: Queue, now: int, service: int, w: nat, ahead: set<nat>)
    requires Levels(q.slots, now, now + Work(w, service), service, ahead)
    requires q.now <= now && service > 0 && q.depth < q.maxDepth
    ensures Quote(q, now, service) == Cost(Work(w + 1, service))
  {
    FirstMinIsLevel(q.slots, now, now + Work(w, service), service, ahead);
  }

  lemma QuoteOfWave(q: Queue, now: int, service: int, n: nat)
    requires InWave(q, now, service, n) && n < q.maxDepth
    ensures Quote(q, now, service) == Cost(WaveTime(n, |q.slots|, service))
  {
    var w, ahead :| Wave(q.slots, now, service, n, w, ahead);
    QuoteAtLevel(q, now, service, w, ahead);
    WavesOf(w, |q.slots|, |ahead|);
    CostAsWaveTime(Quote(q, now, service), n, |q.slots|, service);
  }

  /**
   * Equal jobs submitted together to an idle queue are served in waves: the i-th is quoted i / concurrency + 1
   * services.
   */
  lemma EqualJobsQuote(q: Queue, now: int, service: int, i: nat)
    requires q.slots != [] && q.depth == 0 && q.now <= now && service > 0 && i < q.maxDepth
    requires forall x | 0 <= x < |q.slots| :: q.slots[x] <= now
    ensures Quote(SubmitMany(q, now, service, i), now, service) == Cost(WaveTime(i, |q.slots|, service))
  {
    SubmitManyInWave(q, now, service, i);
    QuoteOfWave(SubmitMany(q, now, service, i), now, service, i);
  }

  /**
   * And that bound is attained: when everything outstanding are equal jobs of the estimated length, handed together to
   * an idle queue of the executor's dimensions, the estimate is the queue's quote.
   */
  lemma EstimateIsAttained(e: Executor.State, q: Queue, now: int)
    requires e.concurrency > 0 && e.serviceCost > 0 && |q.slots| == e.concurrency && q.maxDepth == e.capacity
    requires q.depth == 0 && q.now <= now && forall x | 0 <= x < |q.slots| :: q.slots[x] <= now
    ensures var estimate, n := Executor.EstimateRecoveryCost(e), Executor.Outstanding(e);
      if n >= e.capacity then estimate.None?
      else estimate.Some? && Quote(SubmitMany(q, now, e.serviceCost, n), now, e.serviceCost) == Cost(estimate.value)
  {
    EstimateIsWaveTime(e);
    if Executor.Outstanding(e) < e.capacity {
      EqualJobsQuote(q, now, e.serviceCost, Executor.Outstanding(e));
    }
  }

  // ---------- the object ----------

  method FindFirstMin(slots: array<int>) returns (m: nat)
    requires slots.Length > 0
    ensures m == FirstMin(slots[..])
  {
    m := 0;
    for i := 1 to slots.Length
      invariant m < i
      invariant forall j | 0 <= j < i :: slots[m] <= slots[j]
      invariant forall j | 0 <= j < m :: slots[m] < slots[j]
    {
      if slots[i] < slots[m] { m := i; }
    }
  }

  method FindUpperBound(s: seq<int>, x: int) returns (i: nat)
    ensures i == UpperBound(s, x)
  {
    i := 0;
    while i < |s| && s[i] <= x
      invariant i <= |s| && forall j | 0 <= j < i :: s[j] <= x
    {
      i := i + 1;
    }
  }

  /** The first of the slots that become free earliest works on the job from then, or from now, for its service time. */
  predicate Books(slots: seq<int>, slots': seq<int>, now: int, service: int, x: nat) {
    && x < |slots| == |slots'|
    && (forall y | 0 <= y < |slots| :: slots[x] <= slots[y]) && (forall y | 0 <= y < x :: slots[x] < slots[y])
    && slots'[x] == service + (if slots[x] > now then slots[x] else now)
    && forall y | 0 <= y < |slots| && y != x :: slots'[y] == slots[y]
  }

  lemma FirstMinBooks(slots: seq<int>, now: int, service: int)
    requires slots != []
    ensures var x := FirstMin(slots); Books(slots, slots[x := Max(now, slots[x]) + service], now, service, x)
  {}

  /** What an accepted submission does: the first earliest slot is booked. */
  lemma SubmitBooksSlot(q: Queue, now: int, service: int)
    requires q.slots != [] && Submit(q, now, service).1.Accepted?
    ensures var q' := Submit(q, now, service).0;
      Books(q.slots, q'.slots, now, service, FirstMin(q.slots)) && q'.depth == q.depth + 1 && q'.now == q.now
  {
    FirstMinBooks(q.slots, now, service);
  }

  /** The time it becomes free is one more completion ahead. */
  lemma SubmitAddsCompletion(q: Queue, now: int, service: int, end: int)
    requires q.slots != [] && Submit(q, now, service).1.Accepted?
    requires end == Submit(q, now, service).0.slots[FirstMin(q.slots)]
    ensures multiset(Submit(q, now, service).0.completions) == multiset(q.completions) + multiset{end}
  {
    InsertedElements(q.completions, end);
  }

  class RecoveryQueue {
    const slotAvailableTimes: array<int>
    const maxQueueDepth: nat
    var currentQueueDepth: nat
    var jobCompletionTimes: seq<int>
    var currentTime: int

    function View(): Queue
      reads this, slotAvailableTimes
    {
      Queue(slotAvailableTimes[..], maxQueueDepth, currentQueueDepth, jobCompletionTimes, currentTime)
    }

    predicate Valid()
      reads this
    {
      slotAvailableTimes.Length > 0 && currentQueueDepth == |jobCompletionTimes|
    }

    constructor (concurrencyLimit: nat, maxQueueDepth: nat)
      requires concurrencyLimit > 0
      ensures Valid() && View() == Init(concurrencyLimit, maxQueueDepth) && fresh(slotAvailableTimes)
      ensures slotAvailableTimes.Length == concurrencyLimit && this.maxQueueDepth == maxQueueDepth
      ensures currentQueueDepth == 0 && currentTime == 0
      ensures forall x | 0 <= x < concurrencyLimit :: slotAvailableTimes[x] == 0
    {
      slotAvailableTimes := new int[concurrencyLimit](_ => 0);
      this.maxQueueDepth, currentQueueDepth := maxQueueDepth, 0;
      jobCompletionTimes, currentTime := [], 0;
    }

    /** Refuses to go back in time. */
    method AdvanceTime(now: int) returns (ok: bool)
      requires Valid()
      modifies this
      ensures Valid()
      ensures ok <==> Advance(old(View()), now).Some?
      ensures View() == if ok then Advance(old(View()), now).value else old(View())
      ensures (ok <==> now >= old(currentTime)) && currentTime == if ok then now else old(currentTime)
      ensures ok ==>
        exists done | 0 <= done <= |old(jobCompletionTimes)| ::
          && jobCompletionTimes == old(jobCompletionTimes)[done..] && currentQueueDepth == old(currentQueueDepth) - done
          && (forall i | 0 <= i < done :: old(jobCompletionTimes)[i] <= now)
          && (jobCompletionTimes != [] ==> jobCompletionTimes[0] > now)
    {
      if now < currentTime { return false; }
      var completed := FindUpperBound(jobCompletionTimes, now);
      jobCompletionTimes := jobCompletionTimes[completed..];
      currentQueueDepth := currentQueueDepth - completed;
      currentTime := now;
      return true;
    }

    method GetExpectedRecoveryCost(now: int, serviceTime: int) returns (quote: Quoted)
      requires Valid()
      ensures quote == Quote(View(), now, serviceTime)
      ensures quote.Invalid? <==> now < currentTime || serviceTime <= 0
      ensures quote.Full? <==> !quote.Invalid? && currentQueueDepth >= maxQueueDepth
      ensures quote.Cost? ==>
        exists x | 0 <= x < slotAvailableTimes.Length ::
          && (forall y | 0 <= y < slotAvailableTimes.Length :: slotAvailableTimes[x] <= slotAvailableTimes[y])
          && quote.cost == serviceTime + if slotAvailableTimes[x] > now then slotAvailableTimes[x] - now else 0
    {
      if now < currentTime || serviceTime <= 0 { return Invalid; }
      if currentQueueDepth >= maxQueueDepth { return Full; }
      var earliest := FindFirstMin(slotAvailableTimes);
      var startTime := Max(now, slotAvailableTimes[earliest]);
      return Cost(startTime - now + serviceTime);
    }

    method SubmitJob(now: int, serviceTime: int) returns (outcome: Submission)
      requires Valid()
      modifies this, slotAvailableTimes
      ensures Valid()
      ensures (View(), outcome) == Submit(old(View()), now, serviceTime)
      ensures outcome.Threw? <==> now < currentTime || serviceTime <= 0
      ensures outcome.Refused? <==> !outcome.Threw? && old(currentQueueDepth) >= maxQueueDepth
      ensures !outcome.Accepted? ==> unchanged(this) && unchanged(slotAvailableTimes)
    {
      if now < currentTime || serviceTime <= 0 { return Threw; }
      if currentQueueDepth >= maxQueueDepth { return Refused; }
      var earliest := FindFirstMin(slotAvailableTimes);
      var completionTime := Max(now, slotAvailableTimes[earliest]) + serviceTime;
      slotAvailableTimes[earliest] := completionTime;
      var at := FindUpperBound(jobCompletionTimes, completionTime);
      jobCompletionTimes := jobCompletionTimes[..at] + [completionTime] + jobCompletionTimes[at..];
      currentQueueDepth := currentQueueDepth + 1;
      return Accepted;
    }
  }
}
