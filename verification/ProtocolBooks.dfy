/** Every step keeps the coordinator's requests, the handlers in flight and the submission log in order. */
module ProtocolBooks {
  import opened Shards
  import opened Graphs
  import opened Policy
  import opened Coordinator
  import opened Admission
  import opened Protocol
  import E = Executor
  import opened ProtocolProfiles

  lemma StartKeepsBooks(s: System, id: RequestId)
    requires Books(s) && id !in s.requests && ValidGraph(s.g)
    ensures Books(s.(requests := s.requests[id := NewRequest(N(s))]))
  {
    var s' := s.(requests := s.requests[id := NewRequest(N(s))]);
    forall t | t in s'.handlers ensures HandlerFits(s', t) { assert HandlerFits(s, t); }
    assert NoArrivals(N(s))[0].None?;
  }

  lemma ReceiveFits(g: BipartiteGraph, r: Request, shard: ShardId, payload: Shard)
    requires RequestFits(g, r) && !Receive(r, shard, payload).Threw?
    ensures var r' := Receive(r, shard, payload).request;
      && RequestFits(g, r') && r'.status == r.status && r'.shards == r.shards
      && r'.submitted == r.submitted && r'.closed == r.closed
      && (Receive(r, shard, payload).Stored? ==>
            && r.status.Pending? && shard < |r.shards| && r.shards[shard].None?
            && payload != [] && |payload| == r'.wordCount)
  {}

  /** While the lock is free, replacing a request by one with the same status and flags disturbs no handler. */
  lemma SameStandingKeepsBooks(s: System, id: RequestId, r: Request)
    requires Books(s) && s.lock.None? && id in s.requests && RequestFits(s.g, r)
    requires var old_r := s.requests[id];
      r.status == old_r.status && r.submitted == old_r.submitted && r.closed == old_r.closed
    ensures Books(s.(requests := s.requests[id := r]))
  {
    var s' := s.(requests := s.requests[id := r]);
    forall t | t in s'.handlers ensures HandlerFits(s', t) { assert HandlerFits(s, t); }
  }

  lemma LockKeepsBooks(s: System, tid: nat, exec: E.State, h: Handler)
    requires Books(s) && s.lock.None? && tid !in s.handlers && exec.accepted == s.exec.accepted
    requires h.Storing? && HandlerFits(s.(lock := Some(tid), handlers := s.handlers[tid := h]), tid)
    ensures Books(s.(exec := exec, lock := Some(tid), handlers := s.handlers[tid := h]))
  {
    var s' := s.(exec := exec, lock := Some(tid), handlers := s.handlers[tid := h]);
    forall t | t in s'.handlers ensures HandlerFits(s', t) {
      if t != tid { assert HandlerFits(s, t); }
    }
  }

  lemma ArriveKeepsBooks(s: System, tid: nat, id: RequestId, shard: ShardId, payload: Shard, now: int)
    requires Books(s) && s.lock.None? && tid !in s.handlers && N(s) > 0
    requires ProfileFits(N(s), ProfileOf(s, id))
    ensures Books(ArriveStep(s, tid, id, shard, payload, now))
  {
    if id in s.requests && !Receive(s.requests[id], shard, payload).Threw? {
      ReceiveFits(s.g, s.requests[id], shard, payload);
      var r := Receive(s.requests[id], shard, payload).request;
      SameStandingKeepsBooks(s, id, r);
      if Receive(s.requests[id], shard, payload).Stored? {
        StoredShardStages(s, id, shard, payload);
        var exec := E.StageShard(s.exec, id, N(s), shard, payload).0;
        LockKeepsBooks(s.(requests := s.requests[id := r]), tid, exec, Storing(id, shard, payload, now));
      }
    }
  }

  lemma StoreFits(g: BipartiteGraph, r: Request, shard: ShardId, payload: Shard, now: int)
    requires RequestFits(g, r) && r.status.Pending? && shard < |r.shards|
    requires payload != [] && |payload| == r.wordCount
    ensures var stored := Store(r, shard, payload, now);
      && |stored.arrivals| == |stored.shards| == g.k + g.m && NoEmptyShard(stored.shards)
      && (forall i | 0 <= i < |stored.shards| :: stored.arrivals[i].Some? <==> stored.shards[i].Some?)
      && (forall i | 0 <= i < |stored.shards| && stored.shards[i].Some? :: |stored.shards[i].value| == r.wordCount)
  {}

  lemma RecordedFits(g: BipartiteGraph, r: Request, shard: ShardId, payload: Shard, now: int, estimate: Option<nat>,
                     waitCost: int)
    requires ValidGraph(g) && RequestFits(g, r) && r.status.Pending? && shard < |r.shards| == |r.arrivals| == g.k + g.m
    requires payload != [] && |payload| == r.wordCount
    ensures RequestFits(g, Record(g, r, shard, payload, now, estimate, waitCost).0)
  {
    StoreFits(g, r, shard, payload, now);
  }

  lemma RecordKeepsRequests(s: System, tid: nat, waitCost: int)
    requires Requests(s) && CanRecord(s, tid) && HandlerFits(s, tid)
    ensures Requests(RecordStep(s, tid, waitCost))
  {
    var h := s.handlers[tid];
    RecordedFits(s.g, s.requests[h.id], h.shard, h.payload, h.now, E.EstimateRecoveryCost(s.exec), waitCost);
  }

  lemma RecordKeepsSubmits(s: System, tid: nat, waitCost: int)
    requires SubmitsFit(s) && CanRecord(s, tid)
    ensures SubmitsFit(RecordStep(s, tid, waitCost))
  {}

  lemma RecordKeepsHandler(s: System, tid: nat, waitCost: int, t: nat)
    requires SubmitsFit(s) && CanRecord(s, tid) && HandlerFits(s, tid)
    requires RequestFits(s.g, s.requests[s.handlers[tid].id])
    requires t in s.handlers && HandlerFits(s, t)
    ensures t in RecordStep(s, tid, waitCost).handlers ==> HandlerFits(RecordStep(s, tid, waitCost), t)
    ensures var s' := RecordStep(s, tid, waitCost);
      tid in s'.handlers && Owns(s'.handlers[tid]) && Owns(s.handlers[t]) ==> s.handlers[t].id != s.handlers[tid].id
  {
    var h := s.handlers[tid];
    StoreFits(s.g, s.requests[h.id], h.shard, h.payload, h.now);
  }

  lemma RecordKeepsHandlers(s: System, tid: nat, waitCost: int)
    requires HandlersFit(s) && SubmitsFit(s) && CanRecord(s, tid)
    requires RequestFits(s.g, s.requests[s.handlers[tid].id])
    ensures HandlersFit(RecordStep(s, tid, waitCost))
  {
    var s' := RecordStep(s, tid, waitCost);
    assert HandlerFits(s, tid);
    forall t | t in s.handlers
      ensures t in s'.handlers ==> HandlerFits(s', t)
      ensures tid in s'.handlers && Owns(s'.handlers[tid]) && Owns(s.handlers[t])
        ==> s.handlers[t].id != s.handlers[tid].id
    {
      RecordKeepsHandler(s, tid, waitCost, t);
    }
  }

  lemma RecordKeepsBooks(s: System, tid: nat, waitCost: int)
    requires Books(s) && CanRecord(s, tid)
    ensures Books(RecordStep(s, tid, waitCost))
  {
    assert HandlerFits(s, tid);
    RecordKeepsRequests(s, tid, waitCost);
    RecordKeepsHandlers(s, tid, waitCost);
    RecordKeepsSubmits(s, tid, waitCost);
  }

  lemma SubmitKeepsSubmits(s: System, tid: nat)
    requires SubmitsFit(s) && tid in s.handlers && s.handlers[tid].Submitting? && HandlerFits(s, tid)
    ensures SubmitsFit(SubmitStep(s, tid))
  {
    var h, s' := s.handlers[tid], SubmitStep(s, tid);
    assert forall i | 0 <= i < |s.submits| :: s.submits[i] in s.submits;
    assert forall id | id in s'.submits :: id in s.submits || id == h.id;
  }

  lemma SubmitKeepsHandler(s: System, tid: nat, t: nat)
    requires tid in s.handlers && s.handlers[tid].Submitting? && HandlerFits(s, tid)
    requires t in s.handlers && HandlerFits(s, t) && (s.lock.Some? ==> s.lock.value != tid)
    requires t != tid && Owns(s.handlers[t]) ==> s.handlers[t].id != s.handlers[tid].id
    requires s.handlers[tid].id !in s.exec.accepted
    ensures t in SubmitStep(s, tid).handlers ==> HandlerFits(SubmitStep(s, tid), t)
  {}

  lemma SubmitKeepsHandlers(s: System, tid: nat)
    requires HandlersFit(s) && tid in s.handlers && s.handlers[tid].Submitting?
    requires s.handlers[tid].id !in s.exec.accepted
    ensures HandlersFit(SubmitStep(s, tid))
  {
    var s' := SubmitStep(s, tid);
    assert HandlerFits(s, tid);
    forall t | t in s'.handlers ensures HandlerFits(s', t) {
      SubmitKeepsHandler(s, tid, t);
    }
  }

  lemma SubmitKeepsBooks(s: System, tid: nat)
    requires Books(s) && tid in s.handlers && s.handlers[tid].Submitting? && HandlerFits(s, tid)
    requires s.handlers[tid].id !in s.exec.accepted
    ensures Books(SubmitStep(s, tid))
  {
    SubmitKeepsSubmits(s, tid);
    SubmitKeepsHandlers(s, tid);
  }

  lemma RecheckKeepsBooks(s: System, tid: nat)
    requires Books(s) && s.lock.None?
    requires tid in s.handlers && s.handlers[tid].Rechecking? && s.handlers[tid].id in s.requests
    ensures Books(RecheckStep(s, tid))
  {
    var s' := RecheckStep(s, tid);
    forall t | t in s'.handlers && t != tid ensures HandlerFits(s', t) { assert HandlerFits(s, t); }
  }

  lemma RefusedKeepsBooks(s: System, tid: nat)
    requires Books(s) && tid in s.handlers && s.handlers[tid].NotingRefusal? && s.handlers[tid].id in s.requests
    requires s.lock.None?
    ensures Books(RefusedStep(s, tid))
  {
    var s' := RefusedStep(s, tid);
    forall t | t in s'.handlers ensures HandlerFits(s', t) { assert HandlerFits(s, t); }
  }

  /** Steps of the executor alone, possibly ending a cancelling handler. */
  lemma ExecutorKeepsBooks(s: System, exec: E.State, gone: set<nat>)
    requires Books(s) && exec.accepted == s.exec.accepted
    requires forall t | t in gone && t in s.handlers :: s.handlers[t].Cancelling?
    ensures Books(s.(exec := exec, handlers := s.handlers - gone))
  {
    var s' := s.(exec := exec, handlers := s.handlers - gone);
    forall t | t in s'.handlers ensures HandlerFits(s', t) { assert HandlerFits(s, t); }
  }

  lemma CompleteKeepsBooks(s: System, w: nat)
    requires Books(s) && s.lock.None? && w < |s.exec.workers| && s.exec.workers[w].Completing?
    requires |s.exec.workers[w].task.shards| == N(s)
    ensures Books(CompleteStep(s, w))
  {
    var s' := CompleteStep(s, w);
    forall t | t in s'.handlers ensures HandlerFits(s', t) { assert HandlerFits(s, t); }
  }
}
