/** Every step keeps what the protocol invariant says about one request. */
module ProtocolProfiles {
  import opened Shards
  import opened Coordinator
  import opened ExecutorEffects
  import opened Protocol
  import E = Executor
  import ES = ExecutorSafety
  import Staging

  // ---------- frames ----------

  /** Changing one handler leaves what other handlers stand for as it was. */
  lemma HasElsewhere(hs: map<nat, Handler>, hs': map<nat, Handler>, tid: nat, h: Handler)
    requires forall t | t != tid :: (t in hs <==> t in hs') && (t in hs ==> hs[t] == hs'[t])
    requires tid in hs ==> hs[tid] != h
    requires tid in hs' ==> hs'[tid] != h
    ensures Has(hs, h) <==> Has(hs', h)
  {
    if Has(hs, h) {
      var t :| t in hs && hs[t] == h;
      assert t in hs' && hs'[t] == h;
    }
    if Has(hs', h) {
      var t :| t in hs' && hs'[t] == h;
      assert t in hs && hs[t] == h;
    }
  }

  /** Handlers of other requests are untouched by a change of one handler. */
  lemma OthersKeepHandlers(hs: map<nat, Handler>, hs': map<nat, Handler>, tid: nat, id: RequestId, j: RequestId)
    requires forall t | t != tid :: (t in hs <==> t in hs') && (t in hs ==> hs[t] == hs'[t])
    requires tid in hs ==> hs[tid].id == id
    requires tid in hs' ==> hs'[tid].id == id
    requires j != id
    ensures Has(hs, Cancelling(j)) <==> Has(hs', Cancelling(j))
    ensures Has(hs, Rechecking(j)) <==> Has(hs', Rechecking(j))
  {
    HasElsewhere(hs, hs', tid, Cancelling(j));
    HasElsewhere(hs, hs', tid, Rechecking(j));
  }

  // ---------- steps keep each request's profile ----------

  lemma StartKeepsProfile(s: System, id: RequestId, j: RequestId)
    requires HandlersFit(s) && SubmitsFit(s) && id !in s.requests && ProfileFits(N(s), ProfileOf(s, j))
    ensures ProfileFits(N(s), ProfileOf(s.(requests := s.requests[id := NewRequest(N(s))]), j))
  {
    var s' := s.(requests := s.requests[id := NewRequest(N(s))]);
    assert StoringOf(s', j) == StoringOf(s, j);
    if s.lock.Some? {
      assert HandlerFits(s, s.lock.value);
    }
  }

  /** Staging succeeds for every shard the coordinator lets through, and reaches the context of a fresh request. */
  lemma StoredShardStages(s: System, id: RequestId, shard: ShardId, payload: Shard)
    requires s.lock.None? && N(s) > 0 && ProfileFits(N(s), ProfileOf(s, id))
    requires id in s.requests && Receive(s.requests[id], shard, payload).Stored?
    ensures E.StageShard(s.exec, id, N(s), shard, payload).1
    ensures var o, o' := OutlookOf(s.exec, id), OutlookOf(E.StageShard(s.exec, id, N(s), shard, payload).0, id);
      if o.queued || o.running then o' == o
      else
        && !o.accepted
        && var context := if o.context.Some? then o.context.value else Staging.EmptySlots(N(s));
           |context| == N(s) && o' == o.(context := Some(context[shard := Some(payload)]))
  {
    StageOutlook(s.exec, id, N(s), shard, payload, id);
  }

  lemma ArriveKeepsOthers(s: System, tid: nat, id: RequestId, shard: ShardId, payload: Shard, now: int, j: RequestId)
    requires s.lock.None? && tid !in s.handlers && N(s) > 0 && j != id
    requires ProfileFits(N(s), ProfileOf(s, id))
    ensures ProfileOf(ArriveStep(s, tid, id, shard, payload, now), j) == ProfileOf(s, j)
  {
    var s' := ArriveStep(s, tid, id, shard, payload, now);
    if id in s.requests && Receive(s.requests[id], shard, payload).Stored? {
      StoredShardStages(s, id, shard, payload);
      StageOutlook(s.exec, id, N(s), shard, payload, j);
      OthersKeepHandlers(s.handlers, s'.handlers, tid, id, j);
    }
  }

  lemma ArriveKeepsOwn(s: System, tid: nat, id: RequestId, shard: ShardId, payload: Shard, now: int)
    requires s.lock.None? && tid !in s.handlers && N(s) > 0
    requires ProfileFits(N(s), ProfileOf(s, id))
    ensures ProfileFits(N(s), ProfileOf(ArriveStep(s, tid, id, shard, payload, now), id))
  {
    var s' := ArriveStep(s, tid, id, shard, payload, now);
    if id in s.requests && Receive(s.requests[id], shard, payload).Stored? {
      StoredShardStages(s, id, shard, payload);
      var p, p' := ProfileOf(s, id), ProfileOf(s', id);
      assert p'.outlook == OutlookOf(E.StageShard(s.exec, id, N(s), shard, payload).0, id);
      assert p'.storing == Some((shard, payload)) && p.storing == None && p'.called == p.called;
      assert p'.request.value.shards == p.request.value.shards && p'.request.value.status == Pending;
    }
  }

  lemma RecordKeepsOthers(s: System, tid: nat, waitCost: int, j: RequestId)
    requires HandlersFit(s) && CanRecord(s, tid) && j != s.handlers[tid].id
    ensures ProfileOf(RecordStep(s, tid, waitCost), j) == ProfileOf(s, j)
  {
    var h, s' := s.handlers[tid], RecordStep(s, tid, waitCost);
    assert HandlerFits(s, tid);
    OthersKeepHandlers(s.handlers, s'.handlers, tid, h.id, j);
  }

  lemma RecordKeepsOwn(s: System, tid: nat, waitCost: int)
    requires HandlersFit(s) && CanRecord(s, tid)
    requires ProfileFits(N(s), ProfileOf(s, s.handlers[tid].id))
    ensures ProfileFits(N(s), ProfileOf(RecordStep(s, tid, waitCost), s.handlers[tid].id))
  {
    var h, s' := s.handlers[tid], RecordStep(s, tid, waitCost);
    assert HandlerFits(s, tid);
    var p, p' := ProfileOf(s, h.id), ProfileOf(s', h.id);
    assert p'.outlook == p.outlook && p'.called == p.called && p'.storing == None;
    assert p'.request.value.shards == Effective(p.request.value, p.storing);
    if s'.requests[h.id].status.NaturalComplete? {
      assert s'.handlers[tid] == Cancelling(h.id);
    }
  }

  lemma SubmitKeepsProfile(s: System, tid: nat, j: RequestId)
    requires tid in s.handlers && s.handlers[tid].Submitting? && HandlerFits(s, tid)
    requires ProfileFits(N(s), ProfileOf(s, j))
    ensures ProfileFits(N(s), ProfileOf(SubmitStep(s, tid), j))
  {
    var h, s' := s.handlers[tid], SubmitStep(s, tid);
    SubmitOutlook(s.exec, h.id, h.plan, h.shards, j);
    assert StoringOf(s', j) == StoringOf(s, j);
    if j != h.id {
      OthersKeepHandlers(s.handlers, s'.handlers, tid, h.id, j);
    } else {
      HasElsewhere(s.handlers, s'.handlers, tid, Cancelling(j));
    }
  }

  lemma RecheckKeepsProfile(s: System, tid: nat, j: RequestId)
    requires s.lock.None? && tid in s.handlers && s.handlers[tid].Rechecking? && s.handlers[tid].id in s.requests
    requires ProfileFits(N(s), ProfileOf(s, j))
    ensures ProfileFits(N(s), ProfileOf(RecheckStep(s, tid), j))
  {
    var h, s' := s.handlers[tid], RecheckStep(s, tid);
    if j != h.id {
      OthersKeepHandlers(s.handlers, s'.handlers, tid, h.id, j);
    } else if s.requests[j].status.NaturalComplete? {
      assert s'.handlers[tid] == Cancelling(j);
    }
  }

  lemma RefusedKeepsProfile(s: System, tid: nat, j: RequestId)
    requires s.lock.None? && tid in s.handlers && s.handlers[tid].NotingRefusal? && s.handlers[tid].id in s.requests
    requires ProfileFits(N(s), ProfileOf(s, j))
    ensures ProfileFits(N(s), ProfileOf(RefusedStep(s, tid), j))
  {
    var s' := RefusedStep(s, tid);
    HasElsewhere(s.handlers, s'.handlers, tid, Cancelling(j));
    HasElsewhere(s.handlers, s'.handlers, tid, Rechecking(j));
  }

  lemma CancelKeepsProfile(s: System, tid: nat, j: RequestId)
    requires ES.IdsApart(s.exec) && tid in s.handlers && s.handlers[tid].Cancelling? && HandlerFits(s, tid)
    requires ProfileFits(N(s), ProfileOf(s, j))
    ensures ProfileFits(N(s), ProfileOf(CancelStep(s, tid), j))
  {
    var h, s' := s.handlers[tid], CancelStep(s, tid);
    CancelOutlook(s.exec, h.id, j);
    assert StoringOf(s', j) == StoringOf(s, j);
    if j != h.id {
      OthersKeepHandlers(s.handlers, s'.handlers, tid, h.id, j);
    }
  }

  lemma PopKeepsProfile(s: System, w: nat, j: RequestId)
    requires ES.IdsApart(s.exec) && w < |s.exec.workers| && s.exec.workers[w].Idle? && s.exec.queue != []
    requires ProfileFits(N(s), ProfileOf(s, j))
    ensures ProfileFits(N(s), ProfileOf(s.(exec := E.Pop(s.exec, w)), j))
  {
    PopOutlook(s.exec, w, j);
  }

  lemma CheckKeepsProfile(s: System, w: nat, j: RequestId)
    requires ES.IdsApart(s.exec) && w < |s.exec.workers| && s.exec.workers[w].Working?
    requires ProfileFits(N(s), ProfileOf(s, j))
    ensures ProfileFits(N(s), ProfileOf(s.(exec := E.CheckCancelled(s.exec, w)), j))
  {
    CheckOutlook(s.exec, w, j);
  }

  lemma CompleteKeepsProfile(s: System, w: nat, j: RequestId)
    requires ES.IdsApart(s.exec) && s.lock.None? && w < |s.exec.workers| && s.exec.workers[w].Completing?
    requires |s.exec.workers[w].task.shards| == N(s) && LastTrace(s.exec, s.exec.workers[w].task.id)
    requires ProfileFits(N(s), ProfileOf(s, j))
    ensures ProfileFits(N(s), ProfileOf(CompleteStep(s, w), j))
  {
    CompleteOutlook(s.exec, w, j);
  }

  lemma FinishKeepsProfile(s: System, w: nat, j: RequestId)
    requires ES.IdsApart(s.exec) && w < |s.exec.workers| && s.exec.workers[w].Cleaning?
    requires ProfileFits(N(s), ProfileOf(s, j))
    ensures ProfileFits(N(s), ProfileOf(s.(exec := E.Finish(s.exec, w)), j))
  {
    FinishOutlook(s.exec, w, j);
  }
}
