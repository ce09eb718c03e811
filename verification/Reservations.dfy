/** Lifecycle reservations under racing parties: whoever completes or cancels a request
    settles that request's own reservation and never a newer one. */
module Reservations {
  import opened Bytes
  import opened Lifecycle
  import opened Correlation
  import opened CorrelationLaws
  import opened CorrelationResults

  /** At most one of two requests can hold a reservation of this kind. */
  predicate Clash(c: Command, d: Command) { (IsBind(c) && IsBind(d)) || (c.Unbind? && d.Unbind?) }

  /** The machine still holds what BeginOutbound(c) reserved, or is closed. */
  predicate Held(m: Machine, c: Command)
  {
    m.state.Closed? ||
    ((IsBind(c) ==> m.localBind == Some(c)) && (c.Unbind? ==> m.state.Unbound? && !m.localUnbindFrom.Closed?))
  }

  predicate Settles(op: Op, c: Command)
  {
    (op.DoCancelOutbound? || op.DoCompleteOutbound?) && Clash(op.c, c)
  }

  lemma HeldStays(m: Machine, op: Op, c: Command)
    requires Inv(m) && Held(m, c) && !Settles(op, c)
    ensures Held(Apply(m, op), c)
  {
  }

  lemma BeginIsFresh(m: Machine, c: Command, d: Command)
    requires Inv(m) && AcceptsOutbound(m, d) && Held(m, c)
    ensures !Clash(c, d)
  {
  }

  lemma BeginReserves(m: Machine, c: Command)
    requires Inv(m) && AcceptsOutbound(m, c)
    ensures Held(BeginOutbound(m, c), c) && !m.state.Closed?
  {
  }

  /** Every request whose reservation nobody has settled still holds it, and no two of
      them hold the same one. */
  predicate ReservationsHeld(y: Sys)
  {
    && (forall r | r in y.reqs && Reserved(y.reqs[r].stage) :: Held(y.m, y.reqs[r].command))
    && (!y.m.state.Closed? ==>
          forall r, t | r in y.reqs && t in y.reqs && r != t && Reserved(y.reqs[r].stage) &&
              Reserved(y.reqs[t].stage) ::
            !Clash(y.reqs[r].command, y.reqs[t].command))
  }

  /** No request has become reserved. */
  predicate NoneNew(y: Sys, z: Sys)
  {
    forall r | r in z.reqs && Reserved(z.reqs[r].stage) ::
      r in y.reqs && Reserved(y.reqs[r].stage) && z.reqs[r].command == y.reqs[r].command
  }

  lemma PutNoneNew(y: Sys, z: Sys, r: Id, q: Request)
    requires z.reqs == y.reqs[r := q]
    requires Reserved(q.stage) ==> r in y.reqs && Reserved(y.reqs[r].stage) && q.command == y.reqs[r].command
    ensures NoneNew(y, z)
  {
  }

  lemma NoneNewHeld(y: Sys, z: Sys)
    requires ReservationsHeld(y) && NoneNew(y, z) && z.m == y.m
    ensures ReservationsHeld(z)
  {
  }

  /** Only the machine moved, by a call that settles none of the reservations. */
  lemma CallHeld(y: Sys, op: Op)
    requires Inv(y.m) && ReservationsHeld(y)
    requires forall r | r in y.reqs && Reserved(y.reqs[r].stage) :: !Settles(op, y.reqs[r].command)
    ensures ReservationsHeld(y.(m := Apply(y.m, op)))
  {
    PhaseStep(y.m, op);
    forall r | r in y.reqs && Reserved(y.reqs[r].stage)
      ensures Held(Apply(y.m, op), y.reqs[r].command)
    {
      HeldStays(y.m, op, y.reqs[r].command);
    }
  }

  lemma BeginHeld(y: Sys, r: Id)
    requires CoreInv(y) && ReservationsHeld(y) && Enabled(y, Begin(r))
    ensures ReservationsHeld(Next(y, Begin(r)))
  {
    var d := y.reqs[r].command;
    forall t | t in y.reqs && Reserved(y.reqs[t].stage)
      ensures !Clash(y.reqs[t].command, d) && Held(BeginOutbound(y.m, d), y.reqs[t].command)
    {
      BeginIsFresh(y.m, y.reqs[t].command, d);
      HeldStays(y.m, DoBeginOutbound(d), y.reqs[t].command);
    }
    BeginReserves(y.m, d);
  }

  lemma AdvancedReserved(q: Request)
    requires CanAdvance(q)
    ensures Reserved(Advanced(q).stage) ==> Reserved(q.stage) && !CallsMachine(q.stage)
    ensures CallsMachine(q.stage) ==> Reserved(q.stage)
  {
  }

  lemma OthersUnsettled(y: Sys, r: Id)
    requires ReservationsHeld(y) && !y.m.state.Closed? && r in y.reqs && CanAdvance(y.reqs[r]) &&
             CallsMachine(y.reqs[r].stage)
    ensures var z := Put(y, r, Advanced(y.reqs[r]));
            forall t | t in z.reqs && Reserved(z.reqs[t].stage) :: !Settles(CallOf(y.reqs[r]), z.reqs[t].command)
  {
    AdvancedReserved(y.reqs[r]);
  }

  lemma AdvanceNoneNew(y: Sys, r: Id)
    requires Enabled(y, Advance(r))
    ensures NoneNew(y, Put(y, r, Advanced(y.reqs[r])))
  {
    AdvancedFollows(y.reqs[r]);
    AdvancedReserved(y.reqs[r]);
  }

  lemma ClosedHeld(y: Sys)
    requires y.m.state.Closed?
    ensures ReservationsHeld(y)
  {
  }

  /** The winner settles the reservation of the request it took. */
  lemma AdvanceHeld(y: Sys, r: Id)
    requires CoreInv(y) && ReservationsHeld(y) && Enabled(y, Advance(r))
    ensures ReservationsHeld(Next(y, Advance(r)))
  {
    var q := y.reqs[r];
    var z := Put(y, r, Advanced(q));
    AdvanceIs(y, r);
    AdvanceNoneNew(y, r);
    NoneNewHeld(y, z);
    if CallsMachine(q.stage) {
      if y.m.state.Closed? {
        PhaseStep(y.m, CallOf(q));
        ClosedHeld(Next(y, Advance(r)));
      } else {
        OthersUnsettled(y, r);
        CallHeld(z, CallOf(q));
      }
    }
  }

  lemma CallerTakesNoneNew(y: Sys, r: Id, lost: Caller)
    requires TableOk(y) && SeqOk(y) && r in y.reqs && Carries(y.reqs[r])
    ensures NoneNew(y, CallerTakes(y, r, lost)) && CallerTakes(y, r, lost).m == y.m
  {
    CallerTakesIs(y, r, lost);
  }

  lemma TakeNoneNew(y: Sys, s: nat, who: Winner)
    requires TableOk(y)
    ensures NoneNew(y, Take(y, s, who)) && Take(y, s, who).m == y.m
  {
  }

  lemma TimeOutNoneNew(y: Sys, r: Id)
    requires TableOk(y) && SeqOk(y) && Enabled(y, TimeOut(r))
    ensures NoneNew(y, Next(y, TimeOut(r))) && Next(y, TimeOut(r)).m == y.m
  {
    TimeOutIs(y, r);
    var q := y.reqs[r];
    PutNoneNew(y, Next(y, TimeOut(r)), r,
               if q.stage.Listed? then q.(timer := Off, stage := Removed(ByTimeout)) else q.(timer := Off));
  }

  lemma FailAllNoneNew(y: Sys)
    requires TableOk(y) && Enabled(y, FailAll)
    ensures NoneNew(y, Next(y, FailAll)) && Next(y, FailAll).m == y.m
  {
    FailAllEmpties(y);
  }

  /** Steps on one request that neither call the machine nor take it from the table. */
  predicate Quiet(a: Act)
  {
    || a.Acquire? || a.Refuse? || a.GiveUp? || a.Insert? || a.Enqueue? || a.DoneUnsent? || a.Receive?
    || a.TxStep? || a.Expire?
  }

  lemma QuietNoneNew(y: Sys, a: Act)
    requires Enabled(y, a) && Quiet(a)
    ensures NoneNew(y, Next(y, a)) && Next(y, a).m == y.m
  {
    PutNoneNew(y, Next(y, a), a.r, Next(y, a).reqs[a.r]);
  }

  predicate Stops(a: Act) { a.CloseDone? || a.StopRx? || a.StopTx? || a.StopRunner? }

  lemma StopIs(y: Sys, a: Act)
    requires Enabled(y, a) && Stops(a)
    ensures Next(y, a).reqs == y.reqs && Next(y, a).m == y.m && Next(y, a).failed == y.failed
  {
    match a
    case CloseDone =>
      assert Next(y, a) == y.(done := true);
    case StopRx =>
      assert Next(y, a) == y.(rxStopped := true);
    case StopTx =>
      assert Next(y, a) == y.(txStopped := true);
    case StopRunner =>
      assert Next(y, a) == y.(runnerStopped := true);
  }

  lemma StopHeld(y: Sys, a: Act)
    requires ReservationsHeld(y) && Enabled(y, a) && Stops(a)
    ensures ReservationsHeld(Next(y, a))
  {
    StopIs(y, a);
    NoneNewHeld(y, Next(y, a));
  }

  lemma OtherHeld(y: Sys, op: Op)
    requires Inv(y.m) && ReservationsHeld(y) && NotForRequest(op)
    ensures ReservationsHeld(y.(m := Apply(y.m, op)))
  {
    CallHeld(y, op);
  }

  /** The command of an outstanding request is what CancelOutbound(c) would undo. */
  predicate SameReservation(c: Command, d: Command) { (IsBind(c) && c == d) || (c.Unbind? && d.Unbind?) }

  /** A caller whose encoding failed, and who lost its request to another party, still
      runs its deferred cancel: it does harm while a request with the same reservation
      is outstanding. */
  predicate Harmful(y: Sys, a: Act)
  {
    && a.OweCancel? && !y.m.state.Closed? && a.r in y.reqs
    && exists t | t in y.reqs && Reserved(y.reqs[t].stage) :: SameReservation(y.reqs[a.r].command, y.reqs[t].command)
  }

  lemma CancelHits(m: Machine, c: Command, d: Command)
    requires Inv(m) && Held(m, d) && !m.state.Closed?
    ensures Held(CancelOutbound(m, c), d) <==> !SameReservation(c, d)
    ensures !CancelOutbound(m, c).state.Closed?
  {
  }

  lemma OweCancelIs(y: Sys, r: Id)
    requires Enabled(y, OweCancel(r))
    ensures var z := Next(y, OweCancel(r));
            && z.m == CancelOutbound(y.m, y.reqs[r].command)
            && z.reqs == y.reqs[r := y.reqs[r].(caller := Returned)]
  {
  }

  /** The machine after CancelOutbound(c) still holds what every outstanding request of z
      reserved, if and only if none of them has the reservation of c. */
  lemma CancelHeldIff(y: Sys, z: Sys, r: Id, c: Command)
    requires Inv(y.m) && ReservationsHeld(y) && !y.m.state.Closed? && r in y.reqs
    requires z.m == CancelOutbound(y.m, c) && z.reqs == y.reqs[r := y.reqs[r].(caller := Returned)]
    ensures ReservationsHeld(z) <==>
            !exists t | t in y.reqs && Reserved(y.reqs[t].stage) :: SameReservation(c, y.reqs[t].command)
  {
    forall t | t in y.reqs && Reserved(y.reqs[t].stage)
      ensures Held(z.m, y.reqs[t].command) <==> !SameReservation(c, y.reqs[t].command)
    {
      CancelHits(y.m, c, y.reqs[t].command);
    }
    forall t | t in y.reqs
      ensures z.reqs[t].stage == y.reqs[t].stage && z.reqs[t].command == y.reqs[t].command
    {
    }
  }

  lemma OweCancelHeldIff(y: Sys, r: Id)
    requires Inv(y.m) && ReservationsHeld(y) && Enabled(y, OweCancel(r))
    ensures ReservationsHeld(Next(y, OweCancel(r))) <==> !Harmful(y, OweCancel(r))
  {
    var z := Next(y, OweCancel(r));
    OweCancelIs(y, r);
    if y.m.state.Closed? {
      PhaseStep(y.m, DoCancelOutbound(y.reqs[r].command));
      ClosedHeld(z);
    } else {
      CancelHeldIff(y, z, r, y.reqs[r].command);
    }
  }

  lemma CallerTakingHeld(y: Sys, a: Act)
    requires CoreInv(y) && ReservationsHeld(y) && Enabled(y, a) &&
             (a.EncodeFails? || a.CancelUnsent? || a.CancelWaiting?)
    ensures ReservationsHeld(Next(y, a))
  {
    CallerTakesNoneNew(y, a.r, if a.EncodeFails? then Owing else Draining);
    NoneNewHeld(y, Next(y, a));
  }

  lemma TakeResponseHeld(y: Sys, s: nat, ok: bool)
    requires TableOk(y) && ReservationsHeld(y) && Enabled(y, TakeResponse(s, ok))
    ensures ReservationsHeld(Next(y, TakeResponse(s, ok)))
  {
    TakeNoneNew(y, s, ByResponse(ok));
    NoneNewHeld(y, Next(y, TakeResponse(s, ok)));
  }

  lemma TimeOutHeld(y: Sys, r: Id)
    requires TableOk(y) && SeqOk(y) && ReservationsHeld(y) && Enabled(y, TimeOut(r))
    ensures ReservationsHeld(Next(y, TimeOut(r)))
  {
    TimeOutNoneNew(y, r);
    NoneNewHeld(y, Next(y, TimeOut(r)));
  }

  lemma FailAllHeld(y: Sys)
    requires TableOk(y) && ReservationsHeld(y) && Enabled(y, FailAll)
    ensures ReservationsHeld(Next(y, FailAll))
  {
    FailAllNoneNew(y);
    NoneNewHeld(y, Next(y, FailAll));
  }

  lemma QuietHeld(y: Sys, a: Act)
    requires ReservationsHeld(y) && Enabled(y, a) && Quiet(a)
    ensures ReservationsHeld(Next(y, a))
  {
    QuietNoneNew(y, a);
    NoneNewHeld(y, Next(y, a));
  }

  lemma CallingHeld(y: Sys, a: Act)
    requires CoreInv(y) && ReservationsHeld(y) && Enabled(y, a) &&
             (a.Begin? || a.Advance? || a.CloseMachine? || a.Other?)
    ensures ReservationsHeld(Next(y, a))
  {
    if a.Begin? {
      BeginHeld(y, a.r);
    } else if a.Advance? {
      AdvanceHeld(y, a.r);
    } else if a.CloseMachine? {
      ClosedHeld(Next(y, a));
    } else {
      OtherHeld(y, a.op);
    }
  }

  /** A step keeps every outstanding reservation if and only if it is not the deferred
      cancel of a caller that lost its request while that reservation is in use. */
  lemma StepKeepsReservationsIff(y: Sys, a: Act)
    requires CoreInv(y) && ReservationsHeld(y) && Enabled(y, a)
    ensures ReservationsHeld(Next(y, a)) <==> !Harmful(y, a)
  {
    if a.OweCancel? {
      OweCancelHeldIff(y, a.r);
    } else if Quiet(a) {
      QuietHeld(y, a);
    } else if Stops(a) {
      StopHeld(y, a);
    } else if a.TakeResponse? {
      TakeResponseHeld(y, a.s, a.ok);
    } else if a.TimeOut? {
      TimeOutHeld(y, a.r);
    } else if a.FailAll? {
      FailAllHeld(y);
    } else if a.EncodeFails? || a.CancelUnsent? || a.CancelWaiting? {
      CallerTakingHeld(y, a);
    } else {
      CallingHeld(y, a);
    }
  }

  // ----- A peer that answers only what it was sent -----

  /** Responses come only for requests whose frame has been queued. */
  predicate Solicited(y: Sys, a: Act)
  {
    a.TakeResponse? && a.s in y.table && y.table[a.s] in y.reqs ==> !y.reqs[y.table[a.s]].tx.NotQueued?
  }

  /** A request that never reached the queue was taken by its caller or by the loss of
      the session. */
  predicate UnsentOk(q: Request, failed: bool)
  {
    && (q.tx.NotQueued? && Won(q.stage) ==> q.stage.who.ByCaller? || q.stage.who.ByLoss?)
    && (Won(q.stage) && q.stage.who.ByLoss? ==> failed)
  }

  predicate AllUnsentOk(y: Sys) { forall r | r in y.reqs :: UnsentOk(y.reqs[r], y.failed) }

  lemma PutUnsent(y: Sys, z: Sys, r: Id, q: Request)
    requires AllUnsentOk(y) && z.reqs == y.reqs[r := q] && z.failed == y.failed && UnsentOk(q, y.failed)
    ensures AllUnsentOk(z)
  {
  }

  lemma AdvancedUnsent(q: Request, failed: bool)
    requires UnsentOk(q, failed) && CanAdvance(q)
    ensures UnsentOk(Advanced(q), failed)
  {
  }

  lemma AcquireUnsent(y: Sys, r: Id, c: Command)
    requires AllUnsentOk(y) && Enabled(y, Acquire(r, c))
    ensures AllUnsentOk(Next(y, Acquire(r, c)))
  {
    PutUnsent(y, Next(y, Acquire(r, c)), r,
              Request(c, Acquired, Entering, NotQueued, Off, 0, false, false, 0, 0, false));
  }

  predicate OnEntry(a: Act) { a.Refuse? || a.Begin? || a.GiveUp? || a.Insert? }

  lemma EntryUnsent(y: Sys, a: Act)
    requires AllUnsentOk(y) && Enabled(y, a) && OnEntry(a)
    ensures AllUnsentOk(Next(y, a))
  {
    match a
    case Refuse(r) => PutUnsent(y, Next(y, a), r, y.reqs[r].(stage := Abandoned(false)));
    case Begin(r) => PutUnsent(y, Next(y, a), r, y.reqs[r].(stage := Drawing));
    case GiveUp(r) => PutUnsent(y, Next(y, a), r, y.reqs[r].(stage := Abandoned(true)));
    case Insert(r, s) =>
      PutUnsent(y, Next(y, a), r, y.reqs[r].(stage := Listed, caller := Encoding, seqno := s, late := y.failed));
  }

  predicate OnWaiting(a: Act) { a.Enqueue? || a.DoneUnsent? || a.Receive? || a.OweCancel? }

  lemma WaitingUnsent(y: Sys, a: Act)
    requires AllUnsentOk(y) && Enabled(y, a) && OnWaiting(a)
    ensures AllUnsentOk(Next(y, a))
  {
    match a
    case Enqueue(r) => PutUnsent(y, Next(y, a), r, y.reqs[r].(caller := Waiting, tx := Queued));
    case DoneUnsent(r) => PutUnsent(y, Next(y, a), r, y.reqs[r].(caller := Draining));
    case Receive(r) =>
      PutUnsent(y, Next(y, a), r, y.reqs[r].(caller := Returned, buffered := y.reqs[r].buffered - 1));
    case OweCancel(r) => PutUnsent(y, Next(y, a), r, y.reqs[r].(caller := Returned));
  }

  lemma ExpireUnsent(y: Sys, r: Id)
    requires AllUnsentOk(y) && Enabled(y, Expire(r))
    ensures AllUnsentOk(Next(y, Expire(r)))
  {
    PutUnsent(y, Next(y, Expire(r)), r, y.reqs[r].(timer := Expired));
  }

  lemma TxUnsent(y: Sys, r: Id, well: bool)
    requires AllUnsentOk(y) && Enabled(y, TxStep(r, well))
    ensures AllUnsentOk(Next(y, TxStep(r, well)))
  {
    PutUnsent(y, Next(y, TxStep(r, well)), r, TxMoved(y.reqs[r], y.reqs[r].seqno in y.table, well));
  }

  lemma AdvanceUnsent(y: Sys, r: Id)
    requires AllUnsentOk(y) && Enabled(y, Advance(r))
    ensures AllUnsentOk(Next(y, Advance(r)))
  {
    AdvanceIs(y, r);
    AdvancedUnsent(y.reqs[r], y.failed);
    PutUnsent(y, Next(y, Advance(r)), r, Advanced(y.reqs[r]));
  }

  lemma CallerTakesUnsent(y: Sys, r: Id, lost: Caller)
    requires TableOk(y) && SeqOk(y) && AllUnsentOk(y) && r in y.reqs && Carries(y.reqs[r])
    ensures AllUnsentOk(CallerTakes(y, r, lost))
  {
    CallerTakesIs(y, r, lost);
    var q, z := y.reqs[r], CallerTakes(y, r, lost);
    if q.stage.Listed? {
      PutUnsent(y, z, r, q.(stage := Removed(ByCaller), caller := Leaving));
    } else {
      PutUnsent(y, z, r, q.(caller := lost));
    }
  }

  lemma TimeOutUnsent(y: Sys, r: Id)
    requires CoreInv(y) && AllUnsentOk(y) && Enabled(y, TimeOut(r))
    ensures AllUnsentOk(Next(y, TimeOut(r)))
  {
    TimeOutIs(y, r);
    var q := y.reqs[r];
    assert TimerOk(q);
    PutUnsent(y, Next(y, TimeOut(r)), r,
              if q.stage.Listed? then q.(timer := Off, stage := Removed(ByTimeout)) else q.(timer := Off));
  }

  lemma TakeResponseUnsent(y: Sys, s: nat, ok: bool)
    requires TableOk(y) && AllUnsentOk(y) && s in y.table && !y.reqs[y.table[s]].tx.NotQueued?
    ensures AllUnsentOk(Take(y, s, ByResponse(ok)))
  {
    var r := y.table[s];
    PutUnsent(y, Take(y, s, ByResponse(ok)), r, y.reqs[r].(stage := Removed(ByResponse(ok))));
  }

  lemma FailAllUnsent(y: Sys)
    requires TableOk(y) && AllUnsentOk(y) && Enabled(y, FailAll)
    ensures AllUnsentOk(Next(y, FailAll))
  {
    FailAllEmpties(y);
  }

  /** Steps that take requests from the table. */
  predicate Takes(a: Act)
  {
    a.EncodeFails? || a.CancelUnsent? || a.CancelWaiting? || a.TimeOut? || a.TakeResponse? || a.FailAll?
  }

  lemma TakesUnsent(y: Sys, a: Act)
    requires CoreInv(y) && AllUnsentOk(y) && Enabled(y, a) && Solicited(y, a) && Takes(a)
    ensures AllUnsentOk(Next(y, a))
  {
    if a.TimeOut? {
      TimeOutUnsent(y, a.r);
    } else if a.TakeResponse? {
      TakeResponseUnsent(y, a.s, a.ok);
    } else if a.FailAll? {
      FailAllUnsent(y);
    } else {
      CallerTakesUnsent(y, a.r, if a.EncodeFails? then Owing else Draining);
    }
  }

  lemma MachineIs(y: Sys, a: Act)
    requires Enabled(y, a) && (a.CloseMachine? || a.Other?)
    ensures Next(y, a).reqs == y.reqs && Next(y, a).failed == y.failed
  {
  }

  lemma AsideUnsent(y: Sys, z: Sys)
    requires AllUnsentOk(y) && z.reqs == y.reqs && z.failed == y.failed
    ensures AllUnsentOk(z)
  {
  }

  lemma StepUnsent(y: Sys, a: Act)
    requires CoreInv(y) && AllUnsentOk(y) && Enabled(y, a) && Solicited(y, a)
    ensures AllUnsentOk(Next(y, a))
  {
    if OnEntry(a) {
      EntryUnsent(y, a);
    } else if OnWaiting(a) {
      WaitingUnsent(y, a);
    } else if Takes(a) {
      TakesUnsent(y, a);
    } else if Stops(a) {
      StopIs(y, a);
      AsideUnsent(y, Next(y, a));
    } else if a.CloseMachine? || a.Other? {
      MachineIs(y, a);
      AsideUnsent(y, Next(y, a));
    } else {
      match a
      case Acquire(r, c) => AcquireUnsent(y, r, c);
      case TxStep(r, well) => TxUnsent(y, r, well);
      case Advance(r) => AdvanceUnsent(y, r);
      case Expire(r) => ExpireUnsent(y, r);
    }
  }

  lemma SolicitedIsHarmless(y: Sys, a: Act)
    requires CoreInv(y) && AllUnsentOk(y) && Enabled(y, a)
    ensures !Harmful(y, a)
  {
    if a.OweCancel? {
      assert CallerOk(y.reqs[a.r]) && UnsentOk(y.reqs[a.r], y.failed);
    }
  }

  predicate SolicitedRun(y: Sys, acts: seq<Act>)
    requires IsRun(y, acts)
    decreases |acts|
  {
    acts == [] || (Solicited(y, acts[0]) && SolicitedRun(Next(y, acts[0]), acts[1..]))
  }

  lemma {:induction false} ReservationsKept(y: Sys, acts: seq<Act>)
    requires CoreInv(y) && ReservationsHeld(y) && AllUnsentOk(y) && IsRun(y, acts) && SolicitedRun(y, acts)
    ensures ReservationsHeld(RunTo(y, acts))
    decreases |acts|
  {
    if acts == [] {
    } else {
      SolicitedIsHarmless(y, acts[0]);
      StepKeepsReservationsIff(y, acts[0]);
      StepUnsent(y, acts[0]);
      StepCore(y, acts[0]);
      ReservationsKept(Next(y, acts[0]), acts[1..]);
    }
  }

  /** With a peer that answers no request before its frame is queued, in every
      interleaving every outstanding request still holds its own reservation: no losing or
      late party ever settles a newer one. */
  lemma NoPartySettlesAnother(cfg: Config, role: Role, acts: seq<Act>)
    requires Normal(cfg) && IsRun(Init(cfg, role), acts) && SolicitedRun(Init(cfg, role), acts)
    ensures ReservationsHeld(RunTo(Init(cfg, role), acts))
  {
    InitCore(cfg, role);
    ReservationsKept(Init(cfg, role), acts);
  }
}
