/** No reservation is leaked: as long as a session holds one for a local bind or unbind,
    some request has yet to settle it (session/session.go, session/rx.go,
    session/liveness.go). */
module ReservationOwners {
  import opened Bytes
  import opened Lifecycle
  import opened Correlation
  import opened CorrelationLaws
  import opened CorrelationResults

  predicate Keeps(q: Request, c: Command) { q.command == c && Reserved(q.stage) }

  /** Some request has yet to settle the reservation of c. */
  predicate Owned(reqs: map<Id, Request>, c: Command) { exists r | r in reqs :: Keeps(reqs[r], c) }

  predicate Unbinding(m: Machine) { m.state.Unbound? && !m.localUnbindFrom.Closed? }

  predicate AllOwned(y: Sys)
  {
    && (y.m.localBind.Some? ==> Owned(y.reqs, y.m.localBind.value))
    && (Unbinding(y.m) ==> Owned(y.reqs, Unbind))
  }

  // ----- One step -----

  /** n holds no local reservation that m does not. */
  predicate NoMore(m: Machine, n: Machine)
  {
    (n.localBind.Some? ==> n.localBind == m.localBind) && (Unbinding(n) ==> Unbinding(m))
  }

  lemma PutOwned(y: Sys, z: Sys, r: Id, q: Request)
    requires AllOwned(y) && NoMore(y.m, z.m) && z.reqs == y.reqs[r := q]
    requires r in y.reqs ==> q.command == y.reqs[r].command && (Reserved(y.reqs[r].stage) ==> Reserved(q.stage))
    ensures AllOwned(z)
  {
    forall c | Owned(y.reqs, c)
      ensures Owned(z.reqs, c)
    {
      var t :| t in y.reqs && Keeps(y.reqs[t], c);
      assert t in z.reqs && Keeps(z.reqs[t], c);
    }
  }

  /** A request gives its reservation up with the call that settles it. */
  lemma SettleOwned(y: Sys, z: Sys, r: Id, q: Request)
    requires AllOwned(y) && r in y.reqs && z.reqs == y.reqs[r := q] && NoMore(y.m, z.m)
    requires z.m.localBind != Some(y.reqs[r].command) && (y.reqs[r].command.Unbind? ==> !Unbinding(z.m))
    ensures AllOwned(z)
  {
    forall c | Owned(y.reqs, c) && c != y.reqs[r].command
      ensures Owned(z.reqs, c)
    {
      var t :| t in y.reqs && Keeps(y.reqs[t], c);
      assert t in z.reqs && Keeps(z.reqs[t], c);
    }
  }

  lemma SettlingIs(m: Machine, c: Command, ok: bool)
    ensures NoMore(m, CompleteOutbound(m, c, ok)) && NoMore(m, CancelOutbound(m, c))
    ensures IsBind(c) ==> CompleteOutbound(m, c, ok).localBind != Some(c) && CancelOutbound(m, c).localBind != Some(c)
    ensures c.Unbind? ==> !Unbinding(CompleteOutbound(m, c, ok)) && !Unbinding(CancelOutbound(m, c))
  {
  }

  lemma OtherIs(m: Machine, op: Op)
    requires Inv(m) && (NotForRequest(op) || op.DoClose?)
    ensures NoMore(m, Apply(m, op))
  {
  }

  lemma BindIsReserved(m: Machine)
    requires Inv(m)
    ensures m.localBind.Some? ==> IsBind(m.localBind.value)
  {
  }

  lemma AdvanceOwned(y: Sys, r: Id)
    requires CoreInv(y) && AllOwned(y) && Enabled(y, Advance(r))
    ensures AllOwned(Next(y, Advance(r)))
  {
    var q, z := y.reqs[r], Next(y, Advance(r));
    AdvanceIs(y, r);
    if CallsMachine(q.stage) {
      SettlingIs(y.m, q.command, q.stage.Released? && q.stage.who.ok);
      BindIsReserved(y.m);
      SettleOwned(y, z, r, Advanced(q));
    } else {
      PutOwned(y, z, r, Advanced(q));
    }
  }

  lemma BeginOwned(y: Sys, r: Id)
    requires CoreInv(y) && AllOwned(y) && Enabled(y, Begin(r))
    ensures AllOwned(Next(y, Begin(r)))
  {
    var z := Next(y, Begin(r));
    assert Keeps(z.reqs[r], y.reqs[r].command);
    forall c | Owned(y.reqs, c)
      ensures Owned(z.reqs, c)
    {
      var t :| t in y.reqs && Keeps(y.reqs[t], c);
      assert t in z.reqs && Keeps(z.reqs[t], c);
    }
  }

  lemma SimpleOwned(y: Sys, a: Act)
    requires CoreInv(y) && AllOwned(y) && Enabled(y, a) && Simple(a) && !a.Begin? && !a.OweCancel?
    ensures AllOwned(Next(y, a))
  {
    PutOwned(y, Next(y, a), a.r, Next(y, a).reqs[a.r]);
  }

  lemma OweCancelOwned(y: Sys, r: Id)
    requires AllOwned(y) && Enabled(y, OweCancel(r))
    ensures AllOwned(Next(y, OweCancel(r)))
  {
    SettlingIs(y.m, y.reqs[r].command, false);
    PutOwned(y, Next(y, OweCancel(r)), r, y.reqs[r].(caller := Returned));
  }

  lemma TxOwned(y: Sys, a: Act)
    requires AllOwned(y) && Enabled(y, a) && a.TxStep?
    ensures AllOwned(Next(y, a))
  {
    var q := y.reqs[a.r];
    PutOwned(y, Next(y, a), a.r, TxMoved(q, q.seqno in y.table, a.well));
  }

  lemma CallerOwned(y: Sys, a: Act)
    requires CoreInv(y) && AllOwned(y) && Enabled(y, a) && (a.EncodeFails? || a.CancelUnsent? || a.CancelWaiting?)
    ensures AllOwned(Next(y, a))
  {
    CallerStepIs(y, a);
    PutOwned(y, Next(y, a), a.r, CallerTook(y.reqs[a.r], if a.EncodeFails? then Owing else Draining));
  }

  lemma TimeOutOwned(y: Sys, r: Id)
    requires CoreInv(y) && AllOwned(y) && Enabled(y, TimeOut(r))
    ensures AllOwned(Next(y, TimeOut(r)))
  {
    var q := y.reqs[r];
    TimeOutIs(y, r);
    PutOwned(y, Next(y, TimeOut(r)), r,
             if q.stage.Listed? then q.(timer := Off, stage := Removed(ByTimeout)) else q.(timer := Off));
  }

  lemma ResponseOwned(y: Sys, a: Act)
    requires CoreInv(y) && AllOwned(y) && Enabled(y, a) && a.TakeResponse?
    ensures AllOwned(Next(y, a))
  {
    var r := y.table[a.s];
    PutOwned(y, Next(y, a), r, y.reqs[r].(stage := Removed(ByResponse(a.ok))));
  }

  lemma FailAllKeeps(y: Sys, t: Id, c: Command)
    requires TableOk(y) && Enabled(y, FailAll) && t in y.reqs && Keeps(y.reqs[t], c)
    ensures t in Next(y, FailAll).reqs && Keeps(Next(y, FailAll).reqs[t], c)
  {
  }

  lemma FailAllOwned(y: Sys)
    requires CoreInv(y) && AllOwned(y) && Enabled(y, FailAll)
    ensures AllOwned(Next(y, FailAll))
  {
    var z := Next(y, FailAll);
    forall c | Owned(y.reqs, c)
      ensures Owned(z.reqs, c)
    {
      var t :| t in y.reqs && Keeps(y.reqs[t], c);
      FailAllKeeps(y, t, c);
    }
  }

  lemma MachineOwned(y: Sys, a: Act)
    requires CoreInv(y) && AllOwned(y) && Enabled(y, a) && Untouched(a)
    ensures AllOwned(Next(y, a))
  {
    if a.CloseMachine? {
      OtherIs(y.m, DoClose);
    } else if a.Other? {
      OtherIs(y.m, a.op);
    }
    assert Next(y, a).reqs == y.reqs;
  }

  lemma StepOwned(y: Sys, a: Act)
    requires CoreInv(y) && AllOwned(y) && Enabled(y, a)
    ensures AllOwned(Next(y, a))
  {
    if a.Begin? {
      BeginOwned(y, a.r);
    } else if a.OweCancel? {
      OweCancelOwned(y, a.r);
    } else if Simple(a) {
      SimpleOwned(y, a);
    } else if Untouched(a) {
      MachineOwned(y, a);
    } else if a.TxStep? {
      TxOwned(y, a);
    } else if a.Advance? {
      AdvanceOwned(y, a.r);
    } else if a.TimeOut? {
      TimeOutOwned(y, a.r);
    } else if a.TakeResponse? {
      ResponseOwned(y, a);
    } else if a.FailAll? {
      FailAllOwned(y);
    } else {
      CallerOwned(y, a);
    }
  }

  // ----- Runs -----

  lemma {:induction false} RunOwned(y: Sys, acts: seq<Act>)
    requires CoreInv(y) && AllOwned(y) && IsRun(y, acts)
    ensures AllOwned(RunTo(y, acts))
    decreases |acts|
  {
    if acts == [] {
    } else {
      StepCore(y, acts[0]);
      StepOwned(y, acts[0]);
      RunOwned(Next(y, acts[0]), acts[1..]);
    }
  }

  /** In every reachable state a local bind reservation, or a local unbind under way, has a
      request of that command that has begun and has yet to settle it. */
  lemma NoLeakedReservation(y: Sys)
    requires Reachable(y)
    ensures y.m.localBind.Some? ==>
              exists r :: r in y.reqs && y.reqs[r].command == y.m.localBind.value && Reserved(y.reqs[r].stage)
    ensures y.m.state.Unbound? && !y.m.localUnbindFrom.Closed? ==>
              exists r :: r in y.reqs && y.reqs[r].command.Unbind? && Reserved(y.reqs[r].stage)
  {
    var cfg, role, acts :| Normal(cfg) && IsRun(Init(cfg, role), acts) && RunTo(Init(cfg, role), acts) == y;
    InitCore(cfg, role);
    RunOwned(Init(cfg, role), acts);
  }

  /** So a session whose requests have all ended, none by the loss of the session, reserves
      nothing. */
  lemma NothingReservedAtRest(y: Sys)
    requires Reachable(y)
    requires forall r | r in y.reqs ::
               y.reqs[r].stage.Gone? || (y.reqs[r].stage.Settled? && !y.reqs[r].stage.who.ByLoss?)
    ensures y.m.localBind.None? && (y.m.state.Unbound? ==> y.m.localUnbindFrom.Closed?)
  {
    NoLeakedReservation(y);
  }
}
