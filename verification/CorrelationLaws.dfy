/** What every interleaving of the correlation engine keeps: exactly-once completion,
    window conservation, no leaked timer, and reservations that only their own
    request settles. */
module CorrelationLaws {
  import opened Lifecycle
  import opened Correlation

  // ----- One request -----

  predicate Sent(g: Stage) { g.Settled? || (g.Half? && !g.who.ByResponse?) }

  predicate NotInserted(g: Stage) { g.Acquired? || g.Drawing? || g.Abandoned? }

  predicate BeforeSchedule(t: Tx)
  {
    t.NotQueued? || t.Queued? || t.Dropped? || t.Batched? || t.Failed? || t.Written? || t.Marked?
  }

  predicate ChannelOk(q: Request)
  {
    && q.values == (if Sent(q.stage) then 1 else 0)
    && q.buffered <= q.values
  }

  predicate TimerOk(q: Request)
  {
    && (BeforeSchedule(q.tx) ==> q.timer.Off? && !q.attached)
    && (q.attached ==> !q.finished && q.tx.Dispatched?)
    && (q.tx.Undoing? ==> q.finished)
    && (q.finished <==> Won(q.stage) && !q.stage.Removed?)
    && (q.timer.InHeap? && q.tx.Dispatched? ==> q.attached || (q.stage.Finishing? && q.stage.item))
  }

  predicate CallerOk(q: Request)
  {
    && (q.caller.Entering? <==> NotInserted(q.stage))
    && (q.stage.Gone? ==> q.caller.Returned?)
    && (q.caller.Entering? || q.stage.Gone? || q.caller.Encoding? || q.caller.Owing? ==> q.tx.NotQueued?)
    && (q.stage.Listed? || Won(q.stage) ==> q.seqno > 0)
    && (q.caller.Leaving? <==> Won(q.stage) && q.stage.who.ByCaller?)
    && (q.caller.Owing? ==> Won(q.stage)) && (q.caller.Returned? ==> Won(q.stage) || q.stage.Gone?)
    && (q.caller.Draining? && q.stage.Listed? ==> q.tx.NotQueued?)
  }

  predicate ReqOk(q: Request, failed: bool)
  {
    && ChannelOk(q) && TimerOk(q) && CallerOk(q)
    && (q.late ==> failed) && (q.stage.Listed? && failed ==> q.late)
  }

  /** What a step on one request alone may change without the others noticing. */
  predicate SameForOthers(q: Request, p: Request)
  {
    && p.seqno == q.seqno && p.command == q.command
    && p.stage.Listed? == q.stage.Listed?
    && (Carries(p) ==> Carries(q))
  }

  lemma AdvanceKeeps(q: Request, failed: bool)
    requires ReqOk(q, failed) && CanAdvance(q)
    ensures ReqOk(Advanced(q), failed) && SameForOthers(q, Advanced(q))
    ensures Holds(Advanced(q).stage) == (Holds(q.stage) && !ReleasesToken(q.stage))
    ensures ReleasesToken(q.stage) ==> Holds(q.stage)
  {
  }

  lemma TxKeeps(q: Request, failed: bool, well: bool)
    requires ReqOk(q, failed) && TxCanStep(q)
    ensures var p := TxMoved(q, q.stage.Listed?, well);
            ReqOk(p, failed) && SameForOthers(q, p) && p.stage == q.stage
  {
  }

  lemma CallerKeeps(q: Request, failed: bool)
    requires ReqOk(q, failed)
    ensures q.caller.Encoding? ==> ReqOk(q.(caller := Waiting, tx := Queued), failed)
    ensures q.caller.Encoding? ==> ReqOk(q.(caller := Draining), failed)
    ensures q.caller.Encoding? && Won(q.stage) && !q.stage.who.ByCaller? ==> ReqOk(q.(caller := Owing), failed)
    ensures q.caller.Waiting? && !q.stage.Listed? ==> ReqOk(q.(caller := Draining), failed)
    ensures (q.caller.Waiting? || q.caller.Draining?) && q.buffered > 0 ==>
              ReqOk(q.(caller := Returned, buffered := q.buffered - 1), failed)
    ensures q.caller.Owing? ==> ReqOk(q.(caller := Returned), failed)
  {
  }

  lemma TimerKeeps(q: Request, failed: bool)
    requires ReqOk(q, failed)
    ensures q.timer.InHeap? ==> ReqOk(q.(timer := Expired), failed)
    ensures q.timer.Expired? ==> ReqOk(q.(timer := Off), failed)
  {
  }

  lemma TakenKeeps(q: Request, failed: bool, who: Winner)
    requires ReqOk(q, failed) && q.stage.Listed?
    ensures !who.ByCaller? ==> ReqOk(q.(stage := Removed(who)), failed)
    ensures who.ByCaller? ==> ReqOk(q.(stage := Removed(who), caller := Leaving), failed)
    ensures !who.ByCaller? ==> ReqOk(q.(stage := Removed(who)), true)
  {
  }

  lemma InsertedKeeps(q: Request, failed: bool, s: nat)
    requires ReqOk(q, failed) && q.stage.Drawing? && s > 0
    ensures ReqOk(q.(stage := Listed, caller := Encoding, seqno := s, late := failed), failed)
  {
  }

  // ----- The whole session -----

  function Holders(reqs: map<Id, Request>): (hs: set<Id>)
  {
    set r | r in reqs && Holds(reqs[r].stage)
  }

  predicate RequestsOk(y: Sys) { forall r | r in y.reqs :: ReqOk(y.reqs[r], y.failed) }

  predicate TableOk(y: Sys)
  {
    && (forall s | s in y.table ::
        y.table[s] in y.reqs && y.reqs[y.table[s]].stage.Listed? && y.reqs[y.table[s]].seqno == s)
    && (forall r | r in y.reqs && y.reqs[r].stage.Listed? ::
        y.reqs[r].seqno in y.table && y.table[y.reqs[r].seqno] == r)
  }

  predicate SeqOk(y: Sys)
  {
    forall r, t | r in y.reqs && t in y.reqs && r != t && Carries(y.reqs[r]) && Carries(y.reqs[t]) ::
      y.reqs[r].seqno != y.reqs[t].seqno
  }

  predicate WindowOk(y: Sys)
  {
    y.tokens == |Holders(y.reqs)| && y.tokens <= y.cfg.window && y.underflows == 0
  }

  predicate CoreInv(y: Sys)
  {
    && Normal(y.cfg) && Inv(y.m) && RequestsOk(y) && TableOk(y) && SeqOk(y) && WindowOk(y)
    && (y.failed ==> y.done) && (y.done ==> y.m.state.Closed?)
  }

  lemma InitCore(cfg: Config, role: Role)
    requires Normal(cfg)
    ensures CoreInv(Init(cfg, role))
  {
  }

  lemma HoldersSame(reqs: map<Id, Request>, r: Id, q: Request)
    requires r in reqs && Holds(q.stage) == Holds(reqs[r].stage)
    ensures Holders(reqs[r := q]) == Holders(reqs)
  {
  }

  lemma HoldersAdd(reqs: map<Id, Request>, r: Id, q: Request)
    requires r !in Holders(reqs) && Holds(q.stage)
    ensures |Holders(reqs[r := q])| == |Holders(reqs)| + 1
  {
    assert Holders(reqs[r := q]) == Holders(reqs) + {r};
  }

  lemma HoldersDrop(reqs: map<Id, Request>, r: Id, q: Request)
    requires r in Holders(reqs) && !Holds(q.stage)
    ensures |Holders(reqs)| > 0 && |Holders(reqs[r := q])| == |Holders(reqs)| - 1
  {
    assert Holders(reqs[r := q]) == Holders(reqs) - {r};
  }

  /** A party that carries a sequence number finds its own request under it. */
  lemma FindsOwn(y: Sys, r: Id)
    requires TableOk(y) && SeqOk(y) && r in y.reqs && Carries(y.reqs[r])
    ensures y.reqs[r].seqno in y.table <==> y.reqs[r].stage.Listed?
    ensures y.reqs[r].seqno in y.table ==> y.table[y.reqs[r].seqno] == r
  {
  }

  /** A step on one request that the table, the numbers and the others do not notice. */
  lemma PutTable(y: Sys, r: Id, q: Request)
    requires CoreInv(y) && r in y.reqs && ReqOk(q, y.failed) && SameForOthers(y.reqs[r], q)
    ensures RequestsOk(Put(y, r, q)) && TableOk(Put(y, r, q)) && SeqOk(Put(y, r, q))
  {
  }

  lemma PutCore(y: Sys, r: Id, q: Request)
    requires CoreInv(y) && r in y.reqs && ReqOk(q, y.failed) && SameForOthers(y.reqs[r], q)
    requires Holds(q.stage) == Holds(y.reqs[r].stage)
    ensures CoreInv(Put(y, r, q))
  {
    PutTable(y, r, q);
    HoldersSame(y.reqs, r, q);
  }

  /** Only the machine moved. */
  lemma MachineCore(y: Sys, op: Op)
    requires CoreInv(y)
    ensures CoreInv(y.(m := Apply(y.m, op)))
  {
    InvStep(y.m, op);
    PhaseStep(y.m, op);
  }

  lemma TakeTable(y: Sys, r: Id, q: Request)
    requires CoreInv(y) && r in y.reqs && y.reqs[r].stage.Listed? && ReqOk(q, y.failed)
    requires q.seqno == y.reqs[r].seqno && !q.stage.Listed?
    ensures var z := Put(y, r, q).(table := y.table - {q.seqno});
            RequestsOk(z) && TableOk(z) && SeqOk(z)
  {
  }

  lemma TakeCore(y: Sys, r: Id, q: Request)
    requires CoreInv(y) && r in y.reqs && y.reqs[r].stage.Listed? && ReqOk(q, y.failed)
    requires q.seqno == y.reqs[r].seqno && !q.stage.Listed? && Holds(q.stage)
    ensures CoreInv(Put(y, r, q).(table := y.table - {q.seqno}))
  {
    TakeTable(y, r, q);
    HoldersSame(y.reqs, r, q);
  }

  /** What completeError by the request's own caller does. */
  lemma CallerTakesIs(y: Sys, r: Id, lost: Caller)
    requires TableOk(y) && SeqOk(y) && r in y.reqs && Carries(y.reqs[r])
    ensures var q := y.reqs[r];
            CallerTakes(y, r, lost) ==
              if q.stage.Listed? then
                Put(y, r, q.(stage := Removed(ByCaller), caller := Leaving)).(table := y.table - {q.seqno})
              else Put(y, r, q.(caller := lost))
  {
    FindsOwn(y, r);
    var q := y.reqs[r];
    if q.stage.Listed? {
      assert y.reqs[r := q.(stage := Removed(ByCaller))][r := q.(stage := Removed(ByCaller), caller := Leaving)]
          == y.reqs[r := q.(stage := Removed(ByCaller), caller := Leaving)];
    }
  }

  /** What a caller that takes its request makes of it; `lost` is where it goes when another
      party has taken it. */
  function CallerTook(q: Request, lost: Caller): (p: Request)
  {
    if q.stage.Listed? then q.(stage := Removed(ByCaller), caller := Leaving) else q.(caller := lost)
  }

  lemma CallerStepIs(y: Sys, a: Act)
    requires TableOk(y) && SeqOk(y) && Enabled(y, a) && (a.EncodeFails? || a.CancelUnsent? || a.CancelWaiting?)
    ensures var lost := if a.EncodeFails? then Owing else Draining;
            Next(y, a).reqs == y.reqs[a.r := CallerTook(y.reqs[a.r], lost)] && Next(y, a).m == y.m
  {
    CallerTakesIs(y, a.r, if a.EncodeFails? then Owing else Draining);
  }

  lemma CallerWinsCore(y: Sys, r: Id)
    requires CoreInv(y) && r in y.reqs && y.reqs[r].stage.Listed?
    ensures var q := y.reqs[r];
            CoreInv(Put(y, r, q.(stage := Removed(ByCaller), caller := Leaving)).(table := y.table - {q.seqno}))
  {
    var q := y.reqs[r];
    TakenKeeps(q, y.failed, ByCaller);
    TakeCore(y, r, q.(stage := Removed(ByCaller), caller := Leaving));
  }

  lemma CallerLosesCore(y: Sys, r: Id, lost: Caller)
    requires CoreInv(y) && (At(y, r, Encoding) || (At(y, r, Waiting) && lost.Draining?)) &&
             (lost.Owing? || lost.Draining?)
    requires !y.reqs[r].stage.Listed?
    ensures CoreInv(Put(y, r, y.reqs[r].(caller := lost)))
  {
    CallerKeeps(y.reqs[r], y.failed);
    PutCore(y, r, y.reqs[r].(caller := lost));
  }

  lemma CallerTakesCore(y: Sys, r: Id, lost: Caller)
    requires CoreInv(y) && (At(y, r, Encoding) || (At(y, r, Waiting) && lost.Draining?)) &&
             (lost.Owing? || lost.Draining?)
    ensures CoreInv(CallerTakes(y, r, lost))
  {
    CallerTakesIs(y, r, lost);
    if y.reqs[r].stage.Listed? {
      CallerWinsCore(y, r);
    } else {
      CallerLosesCore(y, r, lost);
    }
  }

  /** Removal by anyone else. */
  lemma TakeByOther(y: Sys, s: nat, who: Winner)
    requires CoreInv(y) && !who.ByCaller?
    ensures CoreInv(Take(y, s, who))
  {
    if s in y.table {
      var r := y.table[s];
      TakenKeeps(y.reqs[r], y.failed, who);
      TakeCore(y, r, y.reqs[r].(stage := Removed(who)));
    }
  }

  lemma FreshTable(y: Sys, r: Id, q: Request)
    requires CoreInv(y) && r !in y.reqs && ReqOk(q, y.failed) && !q.stage.Listed? && !Carries(q)
    ensures RequestsOk(Put(y, r, q)) && TableOk(Put(y, r, q)) && SeqOk(Put(y, r, q))
  {
  }

  lemma AcquireCore(y: Sys, a: Act)
    requires CoreInv(y) && Enabled(y, a) && a.Acquire?
    ensures CoreInv(Next(y, a))
  {
    var r, c := a.r, a.c;
    var q := Request(c, Acquired, Entering, NotQueued, Off, 0, false, false, 0, 0, false);
    FreshTable(y, r, q);
    HoldersAdd(y.reqs, r, q);
  }

  lemma InsertTable(y: Sys, r: Id, q: Request)
    requires CoreInv(y) && r in y.reqs && !y.reqs[r].stage.Listed? && ReqOk(q, y.failed) && q.stage.Listed?
    requires q.seqno !in y.table && Unused(y, q.seqno)
    ensures var z := Put(y, r, q).(table := y.table[q.seqno := r]);
            RequestsOk(z) && TableOk(z) && SeqOk(z)
  {
  }

  lemma InsertCore(y: Sys, a: Act)
    requires CoreInv(y) && Enabled(y, a) && a.Insert?
    ensures CoreInv(Next(y, a))
  {
    var r, s := a.r, a.s;
    var q := y.reqs[r].(stage := Listed, caller := Encoding, seqno := s, late := y.failed);
    InsertedKeeps(y.reqs[r], y.failed, s);
    InsertTable(y, r, q);
    HoldersSame(y.reqs, r, q);
  }

  lemma AbandonCore(y: Sys, r: Id, owes: bool)
    requires CoreInv(y) && r in y.reqs && y.reqs[r].stage == (if owes then Drawing else Acquired)
    ensures CoreInv(Put(y, r, y.reqs[r].(stage := Abandoned(owes))))
  {
    PutCore(y, r, y.reqs[r].(stage := Abandoned(owes)));
  }

  lemma EnqueueCore(y: Sys, r: Id)
    requires CoreInv(y) && At(y, r, Encoding)
    ensures CoreInv(Put(y, r, y.reqs[r].(caller := Waiting, tx := Queued)))
    ensures CoreInv(Put(y, r, y.reqs[r].(caller := Draining)))
  {
    CallerKeeps(y.reqs[r], y.failed);
    PutCore(y, r, y.reqs[r].(caller := Waiting, tx := Queued));
    PutCore(y, r, y.reqs[r].(caller := Draining));
  }

  lemma ReceiveCore(y: Sys, a: Act)
    requires CoreInv(y) && Enabled(y, a) && a.Receive?
    ensures CoreInv(Next(y, a))
  {
    CallerKeeps(y.reqs[a.r], y.failed);
    PutCore(y, a.r, y.reqs[a.r].(caller := Returned, buffered := y.reqs[a.r].buffered - 1));
  }

  lemma BeginCore(y: Sys, a: Act)
    requires CoreInv(y) && Enabled(y, a) && a.Begin?
    ensures CoreInv(Next(y, a))
  {
    var r := a.r;
    var z := Put(y, r, y.reqs[r].(stage := Drawing));
    PutCore(y, r, y.reqs[r].(stage := Drawing));
    MachineCore(z, DoBeginOutbound(y.reqs[r].command));
  }

  lemma OweCancelCore(y: Sys, a: Act)
    requires CoreInv(y) && Enabled(y, a) && a.OweCancel?
    ensures CoreInv(Next(y, a))
  {
    var r := a.r;
    CallerKeeps(y.reqs[r], y.failed);
    PutCore(y, r, y.reqs[r].(caller := Returned));
    MachineCore(Put(y, r, y.reqs[r].(caller := Returned)), DoCancelOutbound(y.reqs[r].command));
  }

  lemma ReleaseCore(y: Sys, r: Id)
    requires CoreInv(y) && r in y.reqs && CanAdvance(y.reqs[r]) && ReleasesToken(y.reqs[r].stage)
    ensures y.tokens > 0 && CoreInv(Put(y, r, Advanced(y.reqs[r])).(tokens := y.tokens - 1))
  {
    var q := y.reqs[r];
    AdvanceKeeps(q, y.failed);
    PutTable(y, r, Advanced(q));
    HoldersDrop(y.reqs, r, Advanced(q));
  }

  lemma AdvanceWithoutRelease(y: Sys, r: Id)
    requires Enabled(y, Advance(r)) && !ReleasesToken(y.reqs[r].stage)
    ensures var q := y.reqs[r]; var z := Put(y, r, Advanced(q));
            Next(y, Advance(r)) == if CallsMachine(q.stage) then z.(m := Apply(y.m, CallOf(q))) else z
  {
  }

  lemma AdvanceWithRelease(y: Sys, r: Id)
    requires Enabled(y, Advance(r)) && ReleasesToken(y.reqs[r].stage) && y.tokens > 0
    ensures Next(y, Advance(r)) == Put(y, r, Advanced(y.reqs[r])).(tokens := y.tokens - 1)
  {
  }

  lemma AdvanceUnderflows(y: Sys, r: Id)
    requires Enabled(y, Advance(r)) && ReleasesToken(y.reqs[r].stage) && y.tokens == 0
    ensures Next(y, Advance(r)) == Put(y, r, Advanced(y.reqs[r])).(underflows := y.underflows + 1)
  {
  }

  lemma ReleaseCallsNothing(g: Stage)
    requires ReleasesToken(g)
    ensures !CallsMachine(g)
  {
  }

  lemma AdvanceIs(y: Sys, r: Id)
    requires Enabled(y, Advance(r))
    ensures var q := y.reqs[r];
            && Next(y, Advance(r)).reqs == y.reqs[r := Advanced(q)] && Next(y, Advance(r)).failed == y.failed
            && Next(y, Advance(r)).m == (if CallsMachine(q.stage) then Apply(y.m, CallOf(q)) else y.m)
  {
    if !ReleasesToken(y.reqs[r].stage) {
      AdvanceWithoutRelease(y, r);
    } else {
      ReleaseCallsNothing(y.reqs[r].stage);
      if y.tokens > 0 {
        AdvanceWithRelease(y, r);
      } else {
        AdvanceUnderflows(y, r);
      }
    }
  }

  lemma AdvanceCore(y: Sys, r: Id)
    requires CoreInv(y) && Enabled(y, Advance(r))
    ensures CoreInv(Next(y, Advance(r)))
  {
    var q := y.reqs[r];
    if ReleasesToken(q.stage) {
      ReleaseCore(y, r);
      AdvanceWithRelease(y, r);
    } else {
      AdvanceWithoutRelease(y, r);
      AdvanceKeeps(q, y.failed);
      PutCore(y, r, Advanced(q));
      if CallsMachine(q.stage) { MachineCore(Put(y, r, Advanced(q)), CallOf(q)); }
    }
  }

  lemma TxCore(y: Sys, a: Act)
    requires CoreInv(y) && a.TxStep? && Enabled(y, a)
    ensures CoreInv(Next(y, a))
  {
    var q := y.reqs[a.r];
    TxKeeps(q, y.failed, a.well);
    if Carries(q) { FindsOwn(y, a.r); }
    assert TxMoved(q, q.seqno in y.table, a.well) == TxMoved(q, q.stage.Listed?, a.well);
    PutCore(y, a.r, TxMoved(q, q.stage.Listed?, a.well));
  }

  lemma TimeOutIs(y: Sys, r: Id)
    requires TableOk(y) && SeqOk(y) && Enabled(y, TimeOut(r))
    ensures var q := y.reqs[r];
            Next(y, TimeOut(r)) ==
              if q.stage.Listed? then
                Put(y, r, q.(timer := Off, stage := Removed(ByTimeout))).(table := y.table - {q.seqno})
              else Put(y, r, q.(timer := Off))
  {
    var q := y.reqs[r];
    FindsOwn(y, r);
    if q.stage.Listed? {
      assert y.reqs[r := q.(timer := Off)][r := q.(timer := Off, stage := Removed(ByTimeout))]
          == y.reqs[r := q.(timer := Off, stage := Removed(ByTimeout))];
    }
  }

  lemma TimerCore(y: Sys, a: Act)
    requires CoreInv(y) && (a.Expire? || a.TimeOut?) && Enabled(y, a)
    ensures CoreInv(Next(y, a))
  {
    TimerKeeps(y.reqs[a.r], y.failed);
    if a.Expire? {
      PutCore(y, a.r, y.reqs[a.r].(timer := Expired));
    } else {
      PutCore(y, a.r, y.reqs[a.r].(timer := Off));
      TakeByOther(Put(y, a.r, y.reqs[a.r].(timer := Off)), y.reqs[a.r].seqno, ByTimeout);
    }
  }

  predicate Emptied(y: Sys, z: Sys)
  {
    && z.reqs.Keys == y.reqs.Keys && z.table == map[]
    && forall r | r in y.reqs ::
         z.reqs[r] == if y.reqs[r].stage.Listed? then y.reqs[r].(stage := Removed(ByLoss)) else y.reqs[r]
  }

  lemma FailAllEmpties(y: Sys)
    requires TableOk(y) && Enabled(y, FailAll)
    ensures Emptied(y, Next(y, FailAll))
  {
    forall r | r in y.reqs && y.reqs[r].stage.Listed?
      ensures r in y.table.Values
    {
      assert y.table[y.reqs[r].seqno] in y.table.Values;
    }
  }

  lemma EmptiedRequests(y: Sys, z: Sys)
    requires RequestsOk(y) && Emptied(y, z) && z.failed
    ensures RequestsOk(z)
  {
    forall r | r in z.reqs
      ensures ReqOk(z.reqs[r], true)
    {
      if y.reqs[r].stage.Listed? { TakenKeeps(y.reqs[r], y.failed, ByLoss); }
    }
  }

  lemma EmptiedTable(y: Sys, z: Sys)
    requires TableOk(y) && SeqOk(y) && Emptied(y, z)
    ensures TableOk(z) && SeqOk(z) && Holders(z.reqs) == Holders(y.reqs)
  {
  }

  lemma FailAllCore(y: Sys)
    requires CoreInv(y) && Enabled(y, FailAll)
    ensures CoreInv(Next(y, FailAll))
  {
    FailAllEmpties(y);
    EmptiedRequests(y, Next(y, FailAll));
    EmptiedTable(y, Next(y, FailAll));
  }

  lemma AbandonStepCore(y: Sys, a: Act)
    requires CoreInv(y) && Enabled(y, a) && (a.Refuse? || a.GiveUp?)
    ensures CoreInv(Next(y, a))
  {
    AbandonCore(y, a.r, a.GiveUp?);
  }

  lemma EnqueueStepCore(y: Sys, a: Act)
    requires CoreInv(y) && Enabled(y, a) && (a.Enqueue? || a.DoneUnsent?)
    ensures CoreInv(Next(y, a))
  {
    EnqueueCore(y, a.r);
  }

  lemma CallerTakesStepCore(y: Sys, a: Act)
    requires CoreInv(y) && Enabled(y, a) && (a.EncodeFails? || a.CancelUnsent? || a.CancelWaiting?)
    ensures CoreInv(Next(y, a))
  {
    CallerTakesCore(y, a.r, if a.EncodeFails? then Owing else Draining);
  }

  lemma MachineStepCore(y: Sys, a: Act)
    requires CoreInv(y) && Enabled(y, a) && (a.CloseMachine? || a.Other?)
    ensures CoreInv(Next(y, a))
  {
    MachineCore(y, if a.Other? then a.op else DoClose);
  }

  lemma TakeResponseCore(y: Sys, a: Act)
    requires CoreInv(y) && Enabled(y, a) && a.TakeResponse?
    ensures CoreInv(Next(y, a))
  {
    TakeByOther(y, a.s, ByResponse(a.ok));
  }

  /** Only flags differ, and the session is done only once the machine is closed. */
  lemma FlagsCore(y: Sys, z: Sys)
    requires CoreInv(y) && (z.done ==> y.m.state.Closed?) && (y.done ==> z.done)
    requires z == y.(done := z.done, rxStopped := z.rxStopped, txStopped := z.txStopped,
             runnerStopped := z.runnerStopped)
    ensures CoreInv(z)
  {
  }

  lemma StopCore(y: Sys, a: Act)
    requires CoreInv(y) && Enabled(y, a) && (a.CloseDone? || a.StopRx? || a.StopTx? || a.StopRunner?)
    ensures CoreInv(Next(y, a))
  {
    FlagsCore(y, Next(y, a));
  }

  /** A caller on its way to the table. */
  predicate BeforeTable(a: Act) { a.Acquire? || a.Insert? || a.Begin? || a.Refuse? || a.GiveUp? }

  lemma EnteringStepCore(y: Sys, a: Act)
    requires CoreInv(y) && Enabled(y, a) && BeforeTable(a)
    ensures CoreInv(Next(y, a))
  {
    if a.Acquire? {
      AcquireCore(y, a);
    } else if a.Insert? {
      InsertCore(y, a);
    } else if a.Begin? {
      BeginCore(y, a);
    } else {
      AbandonStepCore(y, a);
    }
  }

  /** A caller that has its number. */
  predicate OfCaller(a: Act)
  {
    || a.Receive? || a.OweCancel? || a.Enqueue? || a.DoneUnsent?
    || a.EncodeFails? || a.CancelUnsent? || a.CancelWaiting?
  }

  lemma CallerStepCore(y: Sys, a: Act)
    requires CoreInv(y) && Enabled(y, a) && OfCaller(a)
    ensures CoreInv(Next(y, a))
  {
    if a.Receive? {
      ReceiveCore(y, a);
    } else if a.OweCancel? {
      OweCancelCore(y, a);
    } else if a.Enqueue? || a.DoneUnsent? {
      EnqueueStepCore(y, a);
    } else {
      CallerTakesStepCore(y, a);
    }
  }

  predicate OfLoops(a: Act) { a.Advance? || a.TakeResponse? || a.FailAll? || a.TxStep? || a.Expire? || a.TimeOut? }

  lemma LoopStepCore(y: Sys, a: Act)
    requires CoreInv(y) && Enabled(y, a) && OfLoops(a)
    ensures CoreInv(Next(y, a))
  {
    if a.Advance? {
      AdvanceCore(y, a.r);
    } else if a.TakeResponse? {
      TakeResponseCore(y, a);
    } else if a.FailAll? {
      FailAllCore(y);
    } else if a.TxStep? {
      TxCore(y, a);
    } else {
      TimerCore(y, a);
    }
  }

  lemma StepCore(y: Sys, a: Act)
    requires CoreInv(y) && Enabled(y, a)
    ensures CoreInv(Next(y, a))
  {
    if BeforeTable(a) {
      EnteringStepCore(y, a);
    } else if OfCaller(a) {
      CallerStepCore(y, a);
    } else if OfLoops(a) {
      LoopStepCore(y, a);
    } else if a.CloseMachine? || a.Other? {
      MachineStepCore(y, a);
    } else {
      StopCore(y, a);
    }
  }

  // ----- Runs -----

  predicate IsRun(y: Sys, acts: seq<Act>)
    decreases |acts|
  {
    acts == [] || (Enabled(y, acts[0]) && IsRun(Next(y, acts[0]), acts[1..]))
  }

  function RunTo(y: Sys, acts: seq<Act>): (z: Sys)
    requires IsRun(y, acts)
    decreases |acts|
  {
    if acts == [] then y else RunTo(Next(y, acts[0]), acts[1..])
  }

  lemma {:induction false} CoreRun(y: Sys, acts: seq<Act>)
    requires CoreInv(y) && IsRun(y, acts)
    ensures CoreInv(RunTo(y, acts))
    decreases |acts|
  {
    if acts == [] {
    } else {
      StepCore(y, acts[0]);
      CoreRun(Next(y, acts[0]), acts[1..]);
    }
  }

  /** The states of every run of every session. */
  ghost predicate Reachable(y: Sys)
  {
    exists cfg, role, acts :: Normal(cfg) && IsRun(Init(cfg, role), acts) && RunTo(Init(cfg, role), acts) == y
  }

  lemma ReachableCore(y: Sys)
    requires Reachable(y)
    ensures CoreInv(y)
  {
    var cfg, role, acts :| Normal(cfg) && IsRun(Init(cfg, role), acts) && RunTo(Init(cfg, role), acts) == y;
    InitCore(cfg, role);
    CoreRun(Init(cfg, role), acts);
  }

  lemma RunOne(y: Sys, a: Act)
    requires Enabled(y, a)
    ensures IsRun(y, [a]) && RunTo(y, [a]) == Next(y, a)
  {
    assert [a][1..] == [];
  }

  lemma {:induction false} RunSnoc(y: Sys, acts: seq<Act>, a: Act)
    requires IsRun(y, acts) && Enabled(RunTo(y, acts), a)
    ensures IsRun(y, acts + [a]) && RunTo(y, acts + [a]) == Next(RunTo(y, acts), a)
    decreases |acts|
  {
    if acts == [] {
      assert (acts + [a])[1..] == [];
    } else {
      RunSnoc(Next(y, acts[0]), acts[1..], a);
      assert (acts + [a])[1..] == acts[1..] + [a];
    }
  }

  lemma ReachableStep(y: Sys, a: Act)
    requires Reachable(y) && Enabled(y, a)
    ensures Reachable(Next(y, a))
  {
    var cfg, role, acts :| Normal(cfg) && IsRun(Init(cfg, role), acts) && RunTo(Init(cfg, role), acts) == y;
    RunSnoc(Init(cfg, role), acts, a);
  }

  lemma ReachableInit(cfg: Config, role: Role)
    requires Normal(cfg)
    ensures Reachable(Init(cfg, role))
  {
    assert IsRun(Init(cfg, role), []) && RunTo(Init(cfg, role), []) == Init(cfg, role);
  }
}
