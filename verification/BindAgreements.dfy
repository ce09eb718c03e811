/** Two-party bind agreement: every step of either side keeps it, unless it is a stale
    accept of a bind that the ESME still awaits. */
module BindAgreements {
  import opened Lifecycle
  import opened TwoParty
  import opened BindFlow

  function Msgs(q: seq<Item>): (r: seq<Msg>)
    ensures |r| == |q| && forall i | 0 <= i < |q| :: r[i] == MsgOf(q[i])
  {
    seq(|q|, i requires 0 <= i < |q| => MsgOf(q[i]))
  }

  /** What the SMSC has committed and the ESME has not yet received. */
  function Wire(y: Sys): (r: seq<Msg>) { y.toE + Msgs(y.s.ready) }

  /** What a side has queued and not yet committed. */
  function Queue(x: Side): (r: seq<Msg>) { Msgs(x.batch + x.txq) }

  // ----- The steps the agreement may not survive -----

  predicate AcceptsBind(y: Sys, t: Step)
  {
    && t == Step(SMSC, Deliver) && y.toS != [] && y.toS[0].Req? && IsBind(y.toS[0].c)
    && AcceptsInbound(y.s.m, y.toS[0].c)
  }

  /** A bind is accepted while the first answer still queued to the same bind command is
      a refusal. */
  predicate StaleAccept(y: Sys, t: Step)
  {
    AcceptsBind(y, t) && FirstIsRefusal(Queue(y.s), y.toS[0].c)
  }

  /** Of every accepted bind, in any state: granted and committed behind what is queued,
      it finds or makes the SMSC bound in its mode exactly when its acceptance was not
      stale. A stale one leaves the SMSC connected with the grant on its way. */
  lemma AcceptedBindTakesEffectIff(y: Sys)
    requires Inv(y.s.m) && y.s.rx.Idle? && AcceptsBind(y, Step(SMSC, Deliver))
    ensures var w := y.toS[0];
            var after := CommitAll(Receive(y.s, w).m, Queue(y.s) + [Resp(w.c, w.seqno, true)]);
            && (!StaleAccept(y, Step(SMSC, Deliver)) <==> after.state == BoundState(w.c))
            && (StaleAccept(y, Step(SMSC, Deliver)) ==> after.state == y.s.m.state)
  {
    var w := y.toS[0];
    FirstAnswerAppend(Queue(y.s), Resp(w.c, w.seqno, true), w.c);
    FirstAnswerDecides(Receive(y.s, w).m, w.c, Queue(y.s) + [Resp(w.c, w.seqno, true)]);
  }

  /** Once everything on its way to the ESME has arrived, the ESME still waits for the
      answer to number n. */
  predicate StillAwaited(y: Sys, c: Command, n: nat)
  {
    Held(AfterAll(AfterAll(y.e.pending, Wire(y)), Queue(y.s)), c, n)
  }

  /** A stale accept of a bind that an ESME, not closed itself, still awaits. */
  predicate HarmfulAccept(y: Sys, t: Step)
  {
    StaleAccept(y, t) && StillAwaited(y, y.toS[0].c, y.toS[0].seqno) && !y.e.m.state.Closed?
  }

  /** No answer that is in flight or being made carries number n. */
  predicate Unused(y: Sys, n: nat)
  {
    Unanswered(Wire(y), n) && Unanswered(Queue(y.s), n) && (Granting(y.s.rx) ==> y.s.rx.seqno != n)
  }

  /** The ESME issues a number that an answer in flight still carries. */
  predicate Reissues(y: Sys, t: Step)
  {
    t.who.ESME? && t.act.Insert? && !Unused(y, t.act.seqno)
  }

  /** Nothing is unsafe once the ESME is closed: it never becomes bound again. */
  predicate Safe(all: bool, y: Sys, t: Step)
  {
    y.e.m.state.Closed? || if all then !StaleAccept(y, t) else !HarmfulAccept(y, t) && !Reissues(y, t)
  }

  // ----- The invariant -----

  predicate SideOk(all: bool, p: Pending, toE: seq<Msg>, x: Side)
  {
    FlowOk(all, p, toE + Msgs(x.ready), Queue(x), x.m, x.rx)
  }

  /** With `all` set, the invariant of runs without any stale accept; without it, that of
      runs without a harmful one. */
  predicate SysInv(all: bool, y: Sys)
  {
    && Machines(y) && Agreement(y) && SideOk(all, y.e.pending, y.toE, y.s)
    && (y.e.rx.Completing? && y.e.rx.ok && IsBind(y.e.rx.c) ==> AgreesWith(y.s.m, BoundState(y.e.rx.c)))
  }

  lemma InitInv(all: bool)
    ensures SysInv(all, Init())
  {
  }

  // ----- SMSC steps -----

  lemma SmscMoves(all: bool, y: Sys, x: Side)
    requires SysInv(all, y) && Forward(y.s.m, x.m) && SideOk(all, y.e.pending, y.toE, x)
    ensures SysInv(all, y.(s := x))
  {
    forall st | AgreesWith(y.s.m, st) ensures AgreesWith(x.m, st) {
      AgreesKept(y.s.m, x.m, st);
    }
  }

  /** Steps that only call the machine for one of the side's own requests, or close it. */
  predicate CallsOut(a: Act)
  {
    a.Begin? || a.AbortReserved? || a.FinishCancel? || a.FinishComplete? || a.Shut?
  }

  lemma CallsOutKeepPeerBind(x: Side, a: Act)
    requires LocalEnabled(x, a) && CallsOut(a)
    ensures var n := LocalNext(x, a);
            && (n.m.peerBind == x.m.peerBind || n.m.state.Closed?)
            && n.ready == x.ready && n.batch == x.batch && n.txq == x.txq && (n.rx == x.rx || n.rx.Idle?)
  {
    var n := LocalNext(x, a);
    match a
    case Begin(c) =>
      assert n == x.(m := BeginOutbound(x.m, c), reserving := n.reserving);
    case AbortReserved(c) =>
      assert n == x.(m := CancelOutbound(x.m, c), reserving := n.reserving);
    case FinishCancel(c) =>
      assert n == x.(m := CancelOutbound(x.m, c), cancelling := n.cancelling);
    case FinishComplete =>
      assert n == x.(m := CompleteOutbound(x.m, x.rx.c, x.rx.ok), rx := Idle);
    case Shut =>
      assert n == x.(m := Close(x.m), pending := map[]);
  }

  lemma SideCallsOut(all: bool, p: Pending, toE: seq<Msg>, x: Side, a: Act)
    requires SideOk(all, p, toE, x) && Inv(x.m) && LocalEnabled(x, a) && CallsOut(a)
    ensures SideOk(all, p, toE, LocalNext(x, a))
  {
    var n := LocalNext(x, a);
    LocalMachine(x, a);
    CallsOutKeepPeerBind(x, a);
    FlowMachine(all, p, toE + Msgs(x.ready), Queue(x), x.m, n.m, x.rx);
  }

  /** An item behind the queue. */
  lemma SideEnqueue(all: bool, p: Pending, toE: seq<Msg>, x: Side, i: Item)
    requires SideOk(all, p, toE, x) && !i.Response?
    ensures SideOk(all, p, toE, x.(txq := x.txq + [i]))
  {
    var n := x.(txq := x.txq + [i]);
    assert Queue(n) == Queue(x) + [MsgOf(i)];
    FlowEnqueue(all, p, toE + Msgs(x.ready), Queue(x), x.m, x.rx, MsgOf(i));
  }

  lemma SideIdle(all: bool, p: Pending, toE: seq<Msg>, x: Side)
    requires SideOk(all, p, toE, x)
    ensures SideOk(all, p, toE, x.(rx := Idle))
  {
    FlowRxDone(all, p, toE + Msgs(x.ready), Queue(x), x.m, x.rx, Idle);
  }

  lemma SideReply(all: bool, p: Pending, toE: seq<Msg>, x: Side, ok: bool)
    requires SideOk(all, p, toE, x) && LocalEnabled(x, Reply(ok))
    ensures SideOk(all, p, toE, LocalNext(x, Reply(ok)))
  {
    var n := LocalNext(x, Reply(ok));
    if !IsOneWay(x.rx.c) {
      var i := Response(x.rx.c, x.rx.seqno, ok);
      assert Queue(n) == Queue(x) + [MsgOf(i)];
      FlowReply(all, p, toE + Msgs(x.ready), Queue(x), x.m, x.rx, ok);
    } else {
      SideIdle(all, p, toE, x);
      if !x.rx.accepted {
        SideEnqueue(all, p, toE, x.(rx := Idle), NackItem(x.rx.seqno));
      }
    }
  }

  lemma SideReplyFails(all: bool, p: Pending, toE: seq<Msg>, x: Side)
    requires SideOk(all, p, toE, x) && Inv(x.m) && x.rx.Replying?
    ensures SideOk(all, p, toE, LocalNext(x, ReplyFails))
  {
    var n := LocalNext(x, ReplyFails);
    LocalMachine(x, ReplyFails);
    if Granting(x.rx) {
      FlowReplyFails(all, p, toE + Msgs(x.ready), Queue(x), x.m, n.m, x.rx);
    } else {
      FlowMachine(all, p, toE + Msgs(x.ready), Queue(x), x.m, n.m, x.rx);
    }
  }

  lemma SideDequeue(all: bool, p: Pending, toE: seq<Msg>, x: Side)
    requires SideOk(all, p, toE, x) && LocalEnabled(x, Dequeue)
    ensures SideOk(all, p, toE, LocalNext(x, Dequeue))
  {
    var n, i := LocalNext(x, Dequeue), x.txq[0];
    if Active(x, i) {
      assert n.batch + n.txq == x.batch + x.txq;
    } else {
      var a, b := Msgs(x.batch), Msgs(x.txq[1..]);
      assert Queue(x) == a + [MsgOf(i)] + b && Queue(n) == a + b;
      FlowDrop(all, p, toE + Msgs(x.ready), a, MsgOf(i), b, x.m, x.rx);
    }
  }

  lemma SideCommit(all: bool, p: Pending, toE: seq<Msg>, x: Side)
    requires SideOk(all, p, toE, x) && Inv(x.m) && x.batch != []
    ensures SideOk(all, p, toE, LocalNext(x, Commit))
  {
    var n := LocalNext(x, Commit);
    var w := Queue(x)[0];
    assert w == MsgOf(x.batch[0]) && Queue(n) == Queue(x)[1..];
    assert toE + Msgs(n.ready) == toE + Msgs(x.ready) + [w];
    FlowCommit(all, p, toE + Msgs(x.ready), Queue(x), x.m, x.rx);
  }

  lemma SideLocal(all: bool, p: Pending, toE: seq<Msg>, x: Side, a: Act)
    requires SideOk(all, p, toE, x) && Inv(x.m) && LocalEnabled(x, a)
    ensures SideOk(all, p, toE, LocalNext(x, a))
  {
    if CallsOut(a) {
      SideCallsOut(all, p, toE, x, a);
    } else {
      match a
      case Enqueue(c, n) => SideEnqueue(all, p, toE, x, Request(c, n));
      case EnqueueOneWay(c, n) => SideEnqueue(all, p, toE, x, OneWay(c, n));
      case RejectGarbage(n) => SideEnqueue(all, p, toE, x, NackItem(n));
      case Dequeue => SideDequeue(all, p, toE, x);
      case Commit => SideCommit(all, p, toE, x);
      case Reply(ok) => SideReply(all, p, toE, x, ok);
      case ReplyFails => SideReplyFails(all, p, toE, x);
      case Insert(_, _) =>
      case AbortUnsent(_, _) =>
      case Withdraw(_) =>
    }
  }

  lemma SmscLocalStep(all: bool, y: Sys, a: Act)
    requires SysInv(all, y) && LocalEnabled(y.s, a)
    ensures SysInv(all, y.(s := LocalNext(y.s, a)))
  {
    LocalMachine(y.s, a);
    SideLocal(all, y.e.pending, y.toE, y.s, a);
    SmscMoves(all, y, LocalNext(y.s, a));
  }

  lemma SmscReceives(all: bool, y: Sys)
    requires SysInv(all, y) && y.s.rx.Idle? && y.toS != [] && Safe(all, y, Step(SMSC, Deliver)) && !y.e.m.state.Closed?
    ensures SysInv(all, Next(y, Step(SMSC, Deliver)))
  {
    var w := y.toS[0];
    var x := Receive(y.s, w);
    ReceiveMachine(y.s, w);
    if w.Req? {
      FlowAccept(all, y.e.pending, Wire(y), Queue(y.s), y.s.m, w.c, w.seqno);
    } else {
      FlowRxDone(all, y.e.pending, Wire(y), Queue(y.s), y.s.m, y.s.rx, x.rx);
    }
    SmscMoves(all, y, x);
  }

  lemma SmscWrites(all: bool, y: Sys)
    requires SysInv(all, y) && CanWrite(y.s)
    ensures SysInv(all, Next(y, Step(SMSC, Write)))
  {
    var z := Next(y, Step(SMSC, Write));
    assert Wire(z) == Wire(y);
  }

  // ----- ESME steps -----

  /** The ESME moved; it may have become bound only by a grant the SMSC agrees with. */
  lemma EsmeMoves(all: bool, y: Sys, x: Side)
    requires SysInv(all, y) && Forward(y.e.m, x.m) && SideOk(all, x.pending, y.toE, y.s)
    requires Phase(y.e.m.state) != 1 == Phase(x.m.state) ==> AgreesWith(y.s.m, Mode(x.m))
    requires x.rx == y.e.rx || !x.rx.Completing?
    ensures SysInv(all, y.(e := x))
  {
  }

  lemma EsmeTable(x: Side, a: Act)
    requires LocalEnabled(x, a) && !a.Insert?
    ensures Within(LocalNext(x, a).pending, x.pending)
    ensures LocalNext(x, a).rx == x.rx || !LocalNext(x, a).rx.Completing?
  {
  }

  lemma EsmeLocalStep(all: bool, y: Sys, a: Act)
    requires SysInv(all, y) && LocalEnabled(y.e, a) && Safe(all, y, Step(ESME, a)) && !y.e.m.state.Closed?
    ensures SysInv(all, y.(e := LocalNext(y.e, a)))
  {
    var x := LocalNext(y.e, a);
    LocalMachine(y.e, a);
    if a.Insert? {
      FlowInsert(all, y.e.pending, Wire(y), Queue(y.s), y.s.m, y.s.rx, a.c, a.seqno);
    } else {
      EsmeTable(y.e, a);
      FlowShrink(all, x.pending, y.e.pending, Wire(y), Queue(y.s), y.s.m, y.s.rx);
    }
    if Phase(y.e.m.state) == 0 && Phase(x.m.state) == 1 {
      EsmeBindsByGrant(y.e, a);
    }
    EsmeMoves(all, y, x);
  }

  lemma EsmeReceives(all: bool, y: Sys)
    requires SysInv(all, y) && y.e.rx.Idle? && y.toE != []
    ensures SysInv(all, Next(y, Step(ESME, Deliver)))
  {
    var w, z := y.toE[0], Next(y, Step(ESME, Deliver));
    ReceiveMachine(y.e, w);
    assert Wire(y)[0] == w && Wire(z) == Wire(y)[1..];
    FlowReceive(all, y.e.pending, Wire(y), Queue(y.s), y.s.m, y.s.rx);
    ReceiveBinds(y.e, w);
  }

  /** Receiving changes the table as After says, and never binds by itself. */
  lemma ReceiveBinds(x: Side, w: Msg)
    requires x.rx.Idle?
    ensures var n := Receive(x, w);
            && n.pending == After(x.pending, w)
            && (n.rx.Completing? && n.rx.ok ==> w.Resp? && w.ok && n.rx.c == w.c && Held(x.pending, w.c, w.seqno))
    ensures Inv(x.m) && x.m.role.ESME? && Phase(Receive(x, w).m.state) == 1 ==> Phase(x.m.state) == 1
  {
  }

  lemma EsmeWrites(all: bool, y: Sys)
    requires SysInv(all, y) && CanWrite(y.e)
    ensures SysInv(all, Next(y, Step(ESME, Write)))
  {
  }

  // ----- Runs -----

  /** The invariant, or a closed ESME. */
  predicate Sound(all: bool, y: Sys)
  {
    SysInv(all, y) || (Machines(y) && y.e.m.state.Closed?)
  }

  lemma SoundAgrees(all: bool, y: Sys)
    requires Sound(all, y)
    ensures Agreement(y)
  {
  }

  lemma OpenStepInv(all: bool, y: Sys, t: Step)
    requires SysInv(all, y) && Enabled(y, t) && Safe(all, y, t) && !y.e.m.state.Closed?
    ensures SysInv(all, Next(y, t))
  {
    LocalStepIs(y, t.act);
    match (t.who, t.act)
    case (ESME, Write) => EsmeWrites(all, y);
    case (SMSC, Write) => SmscWrites(all, y);
    case (ESME, Deliver) => EsmeReceives(all, y);
    case (SMSC, Deliver) => SmscReceives(all, y);
    case (ESME, a) => EsmeLocalStep(all, y, a);
    case (SMSC, a) => SmscLocalStep(all, y, a);
  }

  /** Every safe step keeps the agreement and what it rests on. */
  lemma StepInv(all: bool, y: Sys, t: Step)
    requires Sound(all, y) && Enabled(y, t) && Safe(all, y, t)
    ensures Sound(all, Next(y, t)) && Agreement(Next(y, t))
  {
    if y.e.m.state.Closed? {
      StepMachines(y, t);
    } else {
      OpenStepInv(all, y, t);
    }
  }

  predicate AllSafe(all: bool, y: Sys, ts: seq<Step>)
    requires IsRun(y, ts)
    decreases |ts|
  {
    ts == [] || (Safe(all, y, ts[0]) && AllSafe(all, Next(y, ts[0]), ts[1..]))
  }

  lemma {:induction false} RunInv(all: bool, y: Sys, ts: seq<Step>)
    requires Sound(all, y) && IsRun(y, ts) && AllSafe(all, y, ts)
    ensures Sound(all, RunTo(y, ts))
    decreases |ts|
  {
    if ts == [] {
    } else {
      StepInv(all, y, ts[0]);
      RunInv(all, Next(y, ts[0]), ts[1..]);
    }
  }

  /** Two-party bind agreement: in every run, with timeouts, cancellations, retries,
      unbinds, reused numbers and closes interleaved in any way, as long as no bind is
      accepted while the first queued answer to its command is a refusal, a bound ESME
      faces an SMSC that is bound in the same mode, unbinding from it, or closed. */
  lemma BindAgreement(ts: seq<Step>)
    requires IsRun(Init(), ts) && AllSafe(true, Init(), ts)
    ensures Agreement(RunTo(Init(), ts))
  {
    InitInv(true);
    RunInv(true, Init(), ts);
    SoundAgrees(true, RunTo(Init(), ts));
  }

  /** The same where stale accepts do happen, as long as none is of a bind that the ESME
      still awaits, and no number is issued again while an answer carries it. */
  lemma BindAgreementUnlessHarmful(ts: seq<Step>)
    requires IsRun(Init(), ts) && AllSafe(false, Init(), ts)
    ensures Agreement(RunTo(Init(), ts))
  {
    InitInv(false);
    RunInv(false, Init(), ts);
    SoundAgrees(false, RunTo(Init(), ts));
  }
}
