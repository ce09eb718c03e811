/** In every run, whoever holds a bind reservation at the ESME has an owner, and the ESME
    has seen an outbind only from an SMSC that is no longer Open. So a harmful accept can
    break the bind agreement in every state that is reached. */
module BindOwners {
  import opened Bytes
  import opened Lifecycle
  import opened TwoParty
  import opened BindFlow
  import opened BindAgreements
  import opened StaleBinds
  import opened HarmfulBinds

  // ----- The ESME's reservation -----

  /** A caller that is not yet queued and has an entry under its number owns that entry. */
  predicate UnsentIsPending(x: Side)
  {
    forall u | u in x.unsent && u.1 in x.pending :: x.pending[u.1] == u.0
  }

  predicate Owns(x: Side) { Owned(x) && UnsentIsPending(x) }

  /** No caller that is not yet queued carries number n. */
  predicate Unheld(x: Side, n: nat) { forall u | u in x.unsent :: u.1 != n }

  lemma OwnsBegin(x: Side, c: Command)
    requires Owns(x) && AcceptsOutbound(x.m, c)
    ensures Owns(LocalNext(x, Begin(c)))
  {
  }

  lemma OwnsInsert(x: Side, c: Command, n: nat)
    requires Owns(x) && LocalEnabled(x, Insert(c, n)) && Unheld(x, n)
    ensures Owns(LocalNext(x, Insert(c, n)))
  {
    var z := LocalNext(x, Insert(c, n));
    assert z.pending[n] == c;
    if x.m.localBind.Some? {
      var d := x.m.localBind.value;
      forall k | k in x.pending && x.pending[k] == d
        ensures Owner(z, d)
      {
        assert z.pending[k] == d;
      }
      OwnerKept(x, z, d);
    }
  }

  /** Ownership passes from one place to another. */
  lemma OwnerKept(x: Side, z: Side, d: Command)
    requires Owner(x, d)
    requires d in x.reserving ==> Owner(z, d)
    requires d in x.cancelling ==> Owner(z, d)
    requires forall k | k in x.pending && x.pending[k] == d :: Owner(z, d)
    requires x.rx.Completing? && x.rx.c == d ==> Owner(z, d)
    ensures Owner(z, d)
  {
  }

  lemma OwnsAbortUnsent(x: Side, c: Command, n: nat)
    requires Owns(x) && (c, n) in x.unsent
    ensures Owns(LocalNext(x, AbortUnsent(c, n)))
  {
    var z := LocalNext(x, AbortUnsent(c, n));
    if x.m.localBind.Some? {
      var d := x.m.localBind.value;
      forall k | k in x.pending && x.pending[k] == d
        ensures Owner(z, d)
      {
        if k == n {
          assert (c, n).1 in x.pending && d == c;
        } else {
          assert z.pending[k] == d;
        }
      }
      OwnerKept(x, z, d);
    }
  }

  lemma OwnsWithdraw(x: Side, n: nat)
    requires Owns(x) && n in x.pending
    ensures Owns(LocalNext(x, Withdraw(n)))
  {
    var z := LocalNext(x, Withdraw(n));
    if x.m.localBind.Some? {
      var d := x.m.localBind.value;
      forall k | k in x.pending && x.pending[k] == d
        ensures Owner(z, d)
      {
        assert k != n ==> z.pending[k] == d;
      }
      OwnerKept(x, z, d);
    }
  }

  lemma CallsGiveBack(m: Machine, c: Command, ok: bool)
    requires Inv(m)
    ensures CancelOutbound(m, c).localBind == if m.localBind == Some(c) then None else m.localBind
    ensures CompleteOutbound(m, c, ok).localBind == if m.localBind == Some(c) then None else m.localBind
  {
  }

  /** One party for command c is done, and what c reserved is given back. */
  lemma OwnsLess(x: Side, z: Side, c: Command)
    requires Owns(x) && z.m.localBind == (if x.m.localBind == Some(c) then None else x.m.localBind)
    requires z.pending == x.pending && z.unsent == x.unsent
    requires forall d | d != c :: (d in x.reserving ==> d in z.reserving) && (d in x.cancelling ==> d in z.cancelling)
    requires z.rx == x.rx || (x.rx.Completing? ==> x.rx.c == c)
    ensures Owns(z)
  {
  }

  /** The steps that give a reservation back. */
  lemma OwnsGivesBack(x: Side, a: Act)
    requires Owns(x) && Inv(x.m) && LocalEnabled(x, a) && (a.AbortReserved? || a.FinishCancel? || a.FinishComplete?)
    ensures Owns(LocalNext(x, a))
  {
    var z := LocalNext(x, a);
    match a
    case AbortReserved(c) =>
      CallsGiveBack(x.m, c, false);
      OwnsLess(x, z, c);
    case FinishCancel(c) =>
      CallsGiveBack(x.m, c, false);
      OwnsLess(x, z, c);
    case FinishComplete =>
      CallsGiveBack(x.m, x.rx.c, x.rx.ok);
      OwnsLess(x, z, x.rx.c);
  }

  /** The steps that touch neither the reservation nor the places it is owned from. */
  predicate Elsewhere(a: Act)
  {
    a.Enqueue? || a.EnqueueOneWay? || a.Dequeue? || a.Commit? || a.Reply? || a.ReplyFails? || a.RejectGarbage?
  }

  lemma InboundKeepsLocalBind(m: Machine, c: Command, ok: bool)
    ensures CompleteInbound(m, c, ok).localBind == m.localBind && CancelInbound(m, c).localBind == m.localBind
    ensures BeginInbound(m, c).localBind == m.localBind
  {
  }

  lemma ElsewhereIs(x: Side, a: Act)
    requires LocalEnabled(x, a) && Elsewhere(a)
    ensures var z := LocalNext(x, a);
            && z.m.localBind == x.m.localBind && z.cancelling == x.cancelling && z.pending == x.pending
            && z.unsent <= x.unsent && (z.rx == x.rx || x.rx.Replying?)
            && (forall d | IsBind(d) && d in x.reserving :: d in z.reserving)
  {
    var z := LocalNext(x, a);
    match a
    case Enqueue(c, n) =>
      assert z == x.(unsent := x.unsent - {(c, n)}, txq := z.txq);
    case EnqueueOneWay(c, n) =>
      assert z == x.(reserving := x.reserving - multiset{c}, txq := z.txq);
    case Dequeue =>
      assert z == x.(txq := z.txq, batch := z.batch);
    case Commit =>
      if x.batch[0].Response? {
        InboundKeepsLocalBind(x.m, x.batch[0].c, x.batch[0].ok);
      }
    case Reply(ok) =>
      assert z == x.(rx := Idle, txq := z.txq);
    case ReplyFails =>
      InboundKeepsLocalBind(x.m, x.rx.c, false);
    case RejectGarbage(n) =>
      assert z == x.(txq := z.txq);
  }

  lemma OwnsElsewhere(x: Side, a: Act)
    requires Owns(x) && Inv(x.m) && LocalEnabled(x, a) && Elsewhere(a)
    ensures Owns(LocalNext(x, a))
  {
    ElsewhereIs(x, a);
  }

  lemma OwnsShut(x: Side)
    ensures Owns(LocalNext(x, Shut))
  {
  }

  lemma OwnsLocal(x: Side, a: Act)
    requires Owns(x) && Inv(x.m) && LocalEnabled(x, a) && (a.Insert? ==> Unheld(x, a.seqno))
    ensures Owns(LocalNext(x, a))
  {
    if a.Begin? {
      OwnsBegin(x, a.c);
    } else if a.Insert? {
      OwnsInsert(x, a.c, a.seqno);
    } else if a.AbortUnsent? {
      OwnsAbortUnsent(x, a.c, a.seqno);
    } else if a.Withdraw? {
      OwnsWithdraw(x, a.seqno);
    } else if Elsewhere(a) {
      OwnsElsewhere(x, a);
    } else if a.Shut? {
      OwnsShut(x);
    } else {
      OwnsGivesBack(x, a);
    }
  }

  lemma OwnsReceive(x: Side, w: Msg)
    requires Owns(x) && x.rx.Idle?
    ensures Owns(Receive(x, w))
  {
    var z := Receive(x, w);
    if w.Req? {
      InboundKeepsLocalBind(x.m, w.c, true);
    }
    if x.m.localBind.Some? {
      var d := x.m.localBind.value;
      forall k | k in x.pending && x.pending[k] == d
        ensures Owner(z, d)
      {
        assert k in z.pending ==> z.pending[k] == d;
      }
      OwnerKept(x, z, d);
    }
  }

  // ----- The outbind -----

  predicate IsOutbind(w: Msg) { w.Req? && w.c.Outbind? }

  /** What a side has queued, committed or not. */
  function Outgoing(x: Side): (q: seq<Item>) { x.ready + x.batch + x.txq }

  /** An outbind is on its way to the ESME, or has arrived. */
  predicate OutbindSent(e: Machine, toE: seq<Msg>, s: Side)
  {
    || e.state.Outbound?
    || (exists w | w in toE :: IsOutbind(w))
    || (exists i | i in Outgoing(s) :: IsOutbind(MsgOf(i)))
  }

  predicate NoOtherOutbind(s: Side)
  {
    && Outbind !in s.cancelling
    && (forall k | k in s.pending :: !s.pending[k].Outbind?)
    && (forall u | u in s.unsent :: !u.0.Outbind?)
  }

  /** An SMSC that is Open has sent no outbind and reserves none; one that reserves it has
      not sent it. */
  predicate OneOutbind(e: Machine, toE: seq<Msg>, s: Side)
  {
    && (s.m.state.Open? ==> Outbind !in s.reserving && !OutbindSent(e, toE, s))
    && (OutbindSent(e, toE, s) ==> Outbind !in s.reserving)
    && s.reserving[Outbind] <= 1 && NoOtherOutbind(s)
  }

  lemma OpensByCancel(m: Machine, op: Op)
    requires Inv(m) && Apply(m, op).state.Open?
    ensures m.state.Open? || op == DoCancelOutbound(Outbind)
  {
  }

  lemma EsmeMarkedByOutbind(m: Machine, op: Op)
    requires m.role.ESME? && Inv(m) && !op.DoMarkOutbound? && Apply(m, op).state.Outbound?
    ensures m.state.Outbound? || op == DoBeginInbound(Outbind)
  {
  }

  predicate NoNewOutbind(s: Side, z: Side)
  {
    forall i | i in Outgoing(z) && IsOutbind(MsgOf(i)) :: i in Outgoing(s)
  }

  /** The SMSC moved, and neither took, gave back nor sent an outbind. */
  lemma OutbindKept(e: Machine, toE: seq<Msg>, s: Side, z: Side)
    requires OneOutbind(e, toE, s) && NoNewOutbind(s, z) && NoOtherOutbind(z)
    requires z.reserving[Outbind] == s.reserving[Outbind] && (z.m.state.Open? ==> s.m.state.Open?)
    ensures OneOutbind(e, toE, z)
  {
    assert OutbindSent(e, toE, z) ==> OutbindSent(e, toE, s);
  }

  /** The SMSC's own request for an outbind: taken, given back or queued. */
  predicate OutbindRequest(a: Act)
  {
    a == Begin(Outbind) || a == AbortReserved(Outbind) || (a.EnqueueOneWay? && a.c.Outbind?)
  }

  lemma OutbindRequests(e: Machine, toE: seq<Msg>, s: Side, a: Act)
    requires OneOutbind(e, toE, s) && LocalEnabled(s, a) && OutbindRequest(a)
    ensures OneOutbind(e, toE, LocalNext(s, a))
  {
    var z := LocalNext(s, a);
    if !a.EnqueueOneWay? {
      assert Outgoing(z) == Outgoing(s);
    }
  }

  lemma StaysShut(s: Side, a: Act)
    requires Inv(s.m) && LocalEnabled(s, a) && NoOtherOutbind(s) && !OutbindRequest(a)
    ensures LocalNext(s, a).m.state.Open? ==> s.m.state.Open?
  {
    if Calls(s, a) {
      LocalOpIsCall(s, a);
      if LocalNext(s, a).m.state.Open? {
        OpensByCancel(s.m, LocalOp(s, a));
      }
    } else {
      OtherStepsKeepMachine(s, a);
    }
  }

  /** Steps that leave the queues alone. */
  lemma CallersSendNone(s: Side, a: Act)
    requires LocalEnabled(s, a) && NoOtherOutbind(s) && !OutbindRequest(a)
    requires CallsOut(a) || a.Insert? || a.AbortUnsent? || a.Withdraw?
    ensures var z := LocalNext(s, a);
            NoNewOutbind(s, z) && NoOtherOutbind(z) && z.reserving[Outbind] == s.reserving[Outbind]
  {
    var z := LocalNext(s, a);
    if CallsOut(a) {
      CallsOutKeepPeerBind(s, a);
    }
    assert Outgoing(z) == Outgoing(s);
  }

  lemma QueuedIs(x: Side, z: Side, i: Item)
    requires z.ready == x.ready && z.batch == x.batch && z.txq == x.txq + [i] && !IsOutbind(MsgOf(i))
    ensures NoNewOutbind(x, z)
  {
  }

  /** Steps that queue an item. */
  lemma QueuersSendNone(s: Side, a: Act)
    requires LocalEnabled(s, a) && NoOtherOutbind(s) && !OutbindRequest(a)
    requires a.Enqueue? || a.EnqueueOneWay? || a.Reply? || a.RejectGarbage?
    ensures var z := LocalNext(s, a);
            NoNewOutbind(s, z) && NoOtherOutbind(z) && z.reserving[Outbind] == s.reserving[Outbind]
  {
    var z := LocalNext(s, a);
    match a
    case Enqueue(c, n) =>
      assert !(c, n).0.Outbind?;
      QueuedIs(s, z, Request(c, n));
    case EnqueueOneWay(c, n) => QueuedIs(s, z, OneWay(c, n));
    case RejectGarbage(n) => QueuedIs(s, z, NackItem(n));
    case Reply(ok) =>
      if !IsOneWay(s.rx.c) {
        QueuedIs(s, z, Response(s.rx.c, s.rx.seqno, ok));
      } else if !s.rx.accepted {
        QueuedIs(s, z, NackItem(s.rx.seqno));
      }
  }

  /** Steps that only move items. */
  lemma MoversSendNone(s: Side, a: Act)
    requires LocalEnabled(s, a) && NoOtherOutbind(s) && (a.Dequeue? || a.Commit? || a.ReplyFails?)
    ensures var z := LocalNext(s, a);
            NoNewOutbind(s, z) && NoOtherOutbind(z) && z.reserving[Outbind] == s.reserving[Outbind]
  {
    var z := LocalNext(s, a);
    match a
    case Dequeue =>
      assert s.txq == [s.txq[0]] + s.txq[1..];
    case Commit =>
      assert Outgoing(z) == Outgoing(s);
    case ReplyFails =>
  }

  lemma OutbindLocal(e: Machine, toE: seq<Msg>, s: Side, a: Act)
    requires OneOutbind(e, toE, s) && Inv(s.m) && LocalEnabled(s, a)
    ensures OneOutbind(e, toE, LocalNext(s, a))
  {
    if OutbindRequest(a) {
      OutbindRequests(e, toE, s, a);
    } else {
      StaysShut(s, a);
      if a.Dequeue? || a.Commit? || a.ReplyFails? {
        MoversSendNone(s, a);
      } else if a.Enqueue? || a.EnqueueOneWay? || a.Reply? || a.RejectGarbage? {
        QueuersSendNone(s, a);
      } else {
        CallersSendNone(s, a);
      }
      OutbindKept(e, toE, s, LocalNext(s, a));
    }
  }

  lemma OutbindWritten(e: Machine, toE: seq<Msg>, s: Side)
    requires OneOutbind(e, toE, s) && s.ready != []
    ensures OneOutbind(e, toE + [MsgOf(s.ready[0])], s.(ready := s.ready[1..]))
  {
    var z := s.(ready := s.ready[1..]);
    assert s.ready[0] in Outgoing(s);
    assert forall i | i in Outgoing(z) :: i in Outgoing(s);
    assert OutbindSent(e, toE + [MsgOf(s.ready[0])], z) ==> OutbindSent(e, toE, s);
  }

  lemma OutbindReceives(e: Machine, toE: seq<Msg>, s: Side, w: Msg)
    requires OneOutbind(e, toE, s) && Inv(s.m) && s.rx.Idle?
    ensures OneOutbind(e, toE, Receive(s, w))
  {
    var z := Receive(s, w);
    if w.Req? && z.m.state.Open? {
      OpensByCancel(s.m, DoBeginInbound(w.c));
    }
    assert Outgoing(z) == Outgoing(s);
    OutbindKept(e, toE, s, z);
  }

  /** The ESME moved by itself. */
  lemma OutbindEsme(e: Machine, f: Machine, toE: seq<Msg>, s: Side)
    requires OneOutbind(e, toE, s) && (f.state.Outbound? ==> e.state.Outbound?)
    ensures OneOutbind(f, toE, s)
  {
    assert OutbindSent(f, toE, s) ==> OutbindSent(e, toE, s);
  }

  lemma EsmeStaysUnmarked(x: Side, a: Act)
    requires Inv(x.m) && x.m.role.ESME? && LocalEnabled(x, a)
    ensures LocalNext(x, a).m.state.Outbound? ==> x.m.state.Outbound?
  {
    if Calls(x, a) {
      LocalOpIsCall(x, a);
      if LocalNext(x, a).m.state.Outbound? {
        EsmeMarkedByOutbind(x.m, LocalOp(x, a));
      }
    } else {
      OtherStepsKeepMachine(x, a);
    }
  }

  lemma OutbindArrives(x: Side, toE: seq<Msg>, s: Side)
    requires OneOutbind(x.m, toE, s) && Inv(x.m) && x.m.role.ESME? && x.rx.Idle? && toE != []
    ensures OneOutbind(Receive(x, toE[0]).m, toE[1..], s)
  {
    var w, f := toE[0], Receive(x, toE[0]).m;
    assert w in toE;
    if w.Req? && f.state.Outbound? {
      EsmeMarkedByOutbind(x.m, DoBeginInbound(w.c));
      assert x.m.state.Outbound? || IsOutbind(w);
    }
    assert forall v | v in toE[1..] :: v in toE;
    assert OutbindSent(f, toE[1..], s) ==> OutbindSent(x.m, toE, s);
  }

  // ----- Runs -----

  predicate Reached(y: Sys) { Machines(y) && Owns(y.e) && OneOutbind(y.e.m, y.toE, y.s) }

  /** The ESME issues a number that a caller of its own, not yet queued, still carries. */
  predicate CallerReissues(y: Sys, t: Step)
  {
    t.who.ESME? && t.act.Insert? && !Unheld(y.e, t.act.seqno)
  }

  lemma ReachedEsme(y: Sys, a: Act)
    requires Reached(y) && LocalEnabled(y.e, a) && !CallerReissues(y, Step(ESME, a))
    ensures Reached(y.(e := LocalNext(y.e, a)))
  {
    LocalMachine(y.e, a);
    OwnsLocal(y.e, a);
    EsmeStaysUnmarked(y.e, a);
    OutbindEsme(y.e.m, LocalNext(y.e, a).m, y.toE, y.s);
  }

  lemma ReachedSmsc(y: Sys, a: Act)
    requires Reached(y) && LocalEnabled(y.s, a)
    ensures Reached(y.(s := LocalNext(y.s, a)))
  {
    LocalMachine(y.s, a);
    OutbindLocal(y.e.m, y.toE, y.s, a);
  }

  lemma ReachedDeliver(y: Sys, t: Step)
    requires Reached(y) && Enabled(y, t) && t.act.Deliver?
    ensures Reached(Next(y, t))
  {
    StepMachines(y, t);
    if t.who.ESME? {
      OwnsReceive(y.e, y.toE[0]);
      OutbindArrives(y.e, y.toE, y.s);
    } else {
      OutbindReceives(y.e.m, y.toE, y.s, y.toS[0]);
    }
  }

  lemma ReachedWrite(y: Sys, t: Step)
    requires Reached(y) && Enabled(y, t) && t.act.Write?
    ensures Reached(Next(y, t))
  {
    StepMachines(y, t);
    if t.who.SMSC? {
      OutbindWritten(y.e.m, y.toE, y.s);
    }
  }

  lemma ReachedStep(y: Sys, t: Step)
    requires Reached(y) && Enabled(y, t) && !CallerReissues(y, t)
    ensures Reached(Next(y, t))
  {
    if t.act.Deliver? {
      ReachedDeliver(y, t);
    } else if t.act.Write? {
      ReachedWrite(y, t);
    } else {
      LocalStepIs(y, t.act);
      if t.who.ESME? {
        ReachedEsme(y, t.act);
      } else {
        ReachedSmsc(y, t.act);
      }
    }
  }

  /** No step of the run issues a number that an unqueued caller carries. */
  predicate NumbersKept(y: Sys, ts: seq<Step>)
    requires IsRun(y, ts)
    decreases |ts|
  {
    ts == [] || (!CallerReissues(y, ts[0]) && NumbersKept(Next(y, ts[0]), ts[1..]))
  }

  lemma {:induction false} ReachedRun(y: Sys, ts: seq<Step>)
    requires Reached(y) && IsRun(y, ts) && NumbersKept(y, ts)
    ensures Reached(RunTo(y, ts))
    decreases |ts|
  {
    if ts == [] {
    } else {
      ReachedStep(y, ts[0]);
      ReachedRun(Next(y, ts[0]), ts[1..]);
    }
  }

  lemma ReachedInit()
    ensures Reached(Init())
  {
  }

  // ----- The exact condition -----

  /** The ESME may issue what the SMSC accepts from it. */
  lemma ConnectedIsWilling(y: Sys, c: Command)
    requires Reached(y) && IsConnected(y.e.m.state) && IsBind(c) && AcceptsInbound(y.s.m, c)
    ensures Willing(y.e, c)
  {
  }

  lemma {:induction false} ClosedNeverBreaks(y: Sys, ts: seq<Step>)
    requires Machines(y) && y.e.m.state.Closed? && IsRun(y, ts)
    ensures Agreement(RunTo(y, ts))
    decreases |ts|
  {
    if ts == [] {
    } else {
      StepMachines(y, ts[0]);
      ClosedNeverBreaks(Next(y, ts[0]), ts[1..]);
    }
  }

  lemma ClosedCannotBreak(y: Sys)
    requires Machines(y) && y.e.m.state.Closed?
    ensures !CanBreak(y)
  {
    forall ts: seq<Step> | IsRun(y, ts)
      ensures Agreement(RunTo(y, ts))
    {
      ClosedNeverBreaks(y, ts);
    }
  }

  /** A bound ESME disagrees with an SMSC that has just accepted a bind. */
  lemma BoundDisagrees(y: Sys)
    requires Machines(y) && y.s.rx.Idle? && AcceptsBind(y, Step(SMSC, Deliver)) && Phase(y.e.m.state) == 1
    ensures !Agreement(Next(y, Step(SMSC, Deliver)))
  {
  }

  /** In every state that a run reaches: a stale accept of a bind that the ESME still
      awaits leads to a state from which the agreement can be broken if and only if it is
      harmful, that is, if the ESME is not closed. */
  lemma StaleAcceptCanBreakIff(ts: seq<Step>)
    requires IsRun(Init(), ts) && NumbersKept(Init(), ts)
    requires var y := RunTo(Init(), ts);
             && y.s.rx.Idle? && StaleAccept(y, Step(SMSC, Deliver))
             && StillAwaited(y, y.toS[0].c, y.toS[0].seqno)
    ensures var y := RunTo(Init(), ts);
            CanBreak(Next(y, Step(SMSC, Deliver))) <==> HarmfulAccept(y, Step(SMSC, Deliver))
  {
    var y, t := RunTo(Init(), ts), Step(SMSC, Deliver);
    ReachedInit();
    ReachedRun(Init(), ts);
    StepMachines(y, t);
    if y.e.m.state.Closed? {
      ClosedCannotBreak(Next(y, t));
    } else if IsConnected(y.e.m.state) {
      ConnectedIsWilling(y, y.toS[0].c);
      HarmfulAcceptCanBreak(y);
    } else {
      BoundDisagrees(y);
      BreakNow(Next(y, t));
    }
  }
}
