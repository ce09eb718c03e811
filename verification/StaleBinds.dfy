/** The condition of the bind agreement is needed: from every state, a stale accept of a
    bind that the ESME awaits can leave the ESME bound to an SMSC that is not. */
module StaleBinds {
  import opened Bytes
  import opened Lifecycle
  import opened TwoParty
  import opened BindFlow
  import opened BindAgreements

  /** The ESME is bound by c, and the SMSC is still connected. */
  predicate Stranded(z: Sys, c: Command, st: State)
  {
    z.e.m.state == BoundState(c) && z.s.m.state == st && IsConnected(st)
  }

  lemma StrandedDisagrees(z: Sys, c: Command, st: State)
    requires IsBind(c) && Stranded(z, c, st)
    ensures !Agreement(z)
  {
  }

  ghost predicate CanStrand(y: Sys, c: Command, st: State)
  {
    exists ts: seq<Step> :: IsRun(y, ts) && Stranded(RunTo(y, ts), c, st)
  }

  lemma StrandNow(y: Sys, c: Command, st: State)
    requires Stranded(y, c, st)
    ensures CanStrand(y, c, st)
  {
    assert IsRun(y, []) && RunTo(y, []) == y;
  }

  lemma StrandLater(y: Sys, t: Step, c: Command, st: State)
    requires Enabled(y, t) && CanStrand(Next(y, t), c, st)
    ensures CanStrand(y, c, st)
  {
    var ts: seq<Step> :| IsRun(Next(y, t), ts) && Stranded(RunTo(Next(y, t), ts), c, st);
    var us := [t] + ts;
    assert us[0] == t && us[1..] == ts;
    assert IsRun(y, us) && RunTo(y, us) == RunTo(Next(y, t), ts);
  }

  // ----- A grant that will not bind the SMSC, on its way to an ESME that awaits it -----

  /** The ESME waits for the answer to number n, the only one of its requests with that
      command, and holds the reservation of it. */
  predicate Awaits(x: Side, c: Command, n: nat)
  {
    && x.m.localBind == Some(c)
    && (forall k | k in x.pending && x.pending[k] == c :: k == n)
    && !(x.rx.Completing? && x.rx.c == c)
  }

  /** The SMSC is connected, and will still be when it has committed its queue. */
  predicate Missed(x: Side, c: Command, st: State)
  {
    && x.rx.Idle? && x.m.state == st && IsConnected(st)
    && (x.m.peerBind.None? || (x.m.peerBind == Some(c) && FirstIsRefusal(Queue(x), c)))
  }

  function Incoming(y: Sys): (r: seq<Msg>) { Wire(y) + Queue(y.s) }

  /** The last message on its way is a grant for number n, and the ESME will still
      await it when all the others have arrived. */
  predicate Coming(p: Pending, q: seq<Msg>, c: Command, n: nat)
  {
    q != [] && q[|q| - 1] == Resp(c, n, true) && Held(AfterAll(p, q[..|q| - 1]), c, n)
  }

  /** A grant that will not bind the SMSC is coming, for a number that stays pending. */
  predicate Loose(y: Sys, c: Command, n: nat, st: State)
  {
    Machines(y) && IsBind(c) && Missed(y.s, c, st) && Coming(y.e.pending, Incoming(y), c, n)
  }

  predicate Trapped(y: Sys, c: Command, n: nat, st: State)
  {
    Loose(y, c, n, st) && Awaits(y.e, c, n)
  }

  /** What the SMSC has still to do until everything is written. */
  function Work(x: Side): (k: nat) { 3 * |x.txq| + 2 * |x.batch| + |x.ready| }

  lemma MissedCommit(x: Side, c: Command, st: State)
    requires Missed(x, c, st) && IsBind(c) && x.batch != []
    ensures Missed(LocalNext(x, Commit), c, st)
  {
    var n := LocalNext(x, Commit);
    assert Queue(x)[0] == MsgOf(x.batch[0]) && Queue(n) == Queue(x)[1..];
  }

  /** Only the SMSC moved. */
  lemma TrappedSmsc(y: Sys, x: Side, c: Command, n: nat, st: State)
    requires Trapped(y, c, n, st) && Inv(x.m) && x.m.role.SMSC? && Missed(x, c, st)
    requires Coming(y.e.pending, y.toE + Msgs(x.ready) + Queue(x), c, n)
    ensures Trapped(y.(s := x), c, n, st)
  {
  }

  lemma CommitKeepsOrder(toE: seq<Msg>, x: Side)
    requires x.batch != []
    ensures var n := LocalNext(x, Commit);
            toE + Msgs(n.ready) + Queue(n) == toE + Msgs(x.ready) + Queue(x)
  {
    var n := LocalNext(x, Commit);
    assert n.ready + (n.batch + n.txq) == x.ready + (x.batch + x.txq);
    MsgsConcat(n.ready, n.batch + n.txq);
    MsgsConcat(x.ready, x.batch + x.txq);
  }

  lemma MsgsConcat(a: seq<Item>, b: seq<Item>)
    ensures Msgs(a + b) == Msgs(a) + Msgs(b)
  {
  }

  lemma TrappedCommit(y: Sys, c: Command, n: nat, st: State)
    requires Trapped(y, c, n, st) && y.s.batch != []
    ensures Enabled(y, Step(SMSC, Commit)) && Trapped(Next(y, Step(SMSC, Commit)), c, n, st)
    ensures Work(Next(y, Step(SMSC, Commit)).s) < Work(y.s)
  {
    LocalMachine(y.s, Commit);
    MissedCommit(y.s, c, st);
    CommitKeepsOrder(y.toE, y.s);
    TrappedSmsc(y, LocalNext(y.s, Commit), c, n, st);
    LocalStepIs(y, Commit);
  }

  lemma TrappedWrite(y: Sys, c: Command, n: nat, st: State)
    requires Trapped(y, c, n, st) && CanWrite(y.s)
    ensures Trapped(Next(y, Step(SMSC, Write)), c, n, st)
    ensures Work(Next(y, Step(SMSC, Write)).s) < Work(y.s)
  {
    var x := y.s.(ready := y.s.ready[1..]);
    var z := y.(toE := y.toE + [MsgOf(y.s.ready[0])], s := x);
    WriteKeepsOrder(y.toE, y.s);
    assert Incoming(z) == Incoming(y);
    assert Missed(x, c, st);
    assert Next(y, Step(SMSC, Write)) == z;
  }

  lemma WriteKeepsOrder(toE: seq<Msg>, x: Side)
    requires x.ready != []
    ensures toE + [MsgOf(x.ready[0])] + Msgs(x.ready[1..]) == toE + Msgs(x.ready)
  {
  }

  /** The grant itself is not the item that is dropped. */
  lemma ComingDrop(p: Pending, a: seq<Msg>, w: Msg, b: seq<Msg>, c: Command, n: nat)
    requires w.Req? && Coming(p, a + [w] + b, c, n)
    ensures Coming(p, a + b, c, n)
  {
    assert b != [];
    var b' := b[..|b| - 1];
    assert (a + [w] + b)[..|a + [w] + b| - 1] == a + [w] + b';
    assert (a + b)[..|a + b| - 1] == a + b';
    LiveDrop(false, p, a, w, b');
  }

  lemma DequeueKeepsOrder(x: Side)
    requires LocalEnabled(x, Dequeue) && Active(x, x.txq[0])
    ensures Queue(LocalNext(x, Dequeue)) == Queue(x)
  {
    var n := LocalNext(x, Dequeue);
    assert n.batch + n.txq == x.batch + x.txq;
  }

  lemma DropKeepsOrder(x: Side)
    requires LocalEnabled(x, Dequeue) && !Active(x, x.txq[0])
    ensures Queue(x) == Msgs(x.batch) + [MsgOf(x.txq[0])] + Msgs(x.txq[1..])
    ensures Queue(LocalNext(x, Dequeue)) == Msgs(x.batch) + Msgs(x.txq[1..])
  {
    assert x.batch + x.txq == x.batch + [x.txq[0]] + x.txq[1..];
    MsgsConcat(x.batch, x.txq[1..]);
  }

  lemma DroppedIsComing(p: Pending, wire: seq<Msg>, x: Side, c: Command, n: nat)
    requires LocalEnabled(x, Dequeue) && !Active(x, x.txq[0]) && Coming(p, wire + Queue(x), c, n)
    ensures Coming(p, wire + Queue(LocalNext(x, Dequeue)), c, n)
  {
    var a, w, b := Msgs(x.batch), MsgOf(x.txq[0]), Msgs(x.txq[1..]);
    DropKeepsOrder(x);
    assert wire + (a + [w] + b) == (wire + a) + [w] + b && wire + (a + b) == (wire + a) + b;
    ComingDrop(p, wire + a, w, b, c, n);
  }

  lemma MissedDequeue(x: Side, c: Command, st: State)
    requires Missed(x, c, st) && LocalEnabled(x, Dequeue)
    ensures Missed(LocalNext(x, Dequeue), c, st)
  {
    if Active(x, x.txq[0]) {
      DequeueKeepsOrder(x);
    } else {
      DropKeepsOrder(x);
      FirstAnswerDrop(Msgs(x.batch), MsgOf(x.txq[0]), Msgs(x.txq[1..]), c);
    }
  }

  lemma TrappedDequeue(y: Sys, c: Command, n: nat, st: State)
    requires Trapped(y, c, n, st) && LocalEnabled(y.s, Dequeue)
    ensures Enabled(y, Step(SMSC, Dequeue)) && Trapped(Next(y, Step(SMSC, Dequeue)), c, n, st)
    ensures Work(Next(y, Step(SMSC, Dequeue)).s) < Work(y.s)
  {
    if Active(y.s, y.s.txq[0]) {
      DequeueKeepsOrder(y.s);
    } else {
      DroppedIsComing(y.e.pending, Wire(y), y.s, c, n);
    }
    MissedDequeue(y.s, c, st);
    TrappedSmsc(y, LocalNext(y.s, Dequeue), c, n, st);
    LocalStepIs(y, Dequeue);
  }

  /** What the ESME's receive loop is in the middle of does not settle the bind. */
  function FinishRx(rx: Rx): (a: Act)
    requires !rx.Idle?
  {
    if rx.Completing? then FinishComplete else Reply(rx.accepted)
  }

  lemma TrappedFinish(y: Sys, c: Command, n: nat, st: State)
    requires Trapped(y, c, n, st) && !y.e.rx.Idle?
    ensures LocalEnabled(y.e, FinishRx(y.e.rx))
    ensures Trapped(Next(y, Step(ESME, FinishRx(y.e.rx))), c, n, st)
  {
    var a := FinishRx(y.e.rx);
    var x := LocalNext(y.e, a);
    assert x.m == y.e.m && x.pending == y.e.pending && x.rx.Idle?;
    var z := Next(y, Step(ESME, a));
    assert z == y.(e := x) && Incoming(z) == Incoming(y);
  }

  /** A message before the grant is received, and does not settle the bind. */
  lemma AwaitsReceive(x: Side, w: Msg, c: Command, n: nat)
    requires Inv(x.m) && x.m.role.ESME? && IsBind(c) && Awaits(x, c, n) && x.rx.Idle?
    requires Held(After(x.pending, w), c, n)
    ensures Awaits(Receive(x, w), c, n) && Receive(x, w).pending == After(x.pending, w)
  {
  }

  lemma {:induction false} HeldBefore(p: Pending, q: seq<Msg>, c: Command, n: nat)
    requires Held(AfterAll(p, q), c, n)
    ensures Held(p, c, n)
    decreases |q|
  {
    if q == [] {
    } else {
      HeldBefore(After(p, q[0]), q[1..], c, n);
    }
  }

  lemma ComingReceive(p: Pending, q: seq<Msg>, c: Command, n: nat)
    requires Coming(p, q, c, n) && |q| > 1
    ensures Held(After(p, q[0]), c, n) && Coming(After(p, q[0]), q[1..], c, n)
  {
    var r := q[..|q| - 1];
    assert r[0] == q[0] && r[1..] == q[1..][..|q[1..]| - 1];
    HeldBefore(After(p, q[0]), r[1..], c, n);
  }

  lemma TrappedReceive(y: Sys, c: Command, n: nat, st: State)
    requires Trapped(y, c, n, st) && y.e.rx.Idle? && y.toE != [] && |Incoming(y)| > 1
    ensures Trapped(Next(y, Step(ESME, Deliver)), c, n, st)
  {
    var w, z := y.toE[0], Next(y, Step(ESME, Deliver));
    assert Incoming(y)[0] == w && Incoming(z) == Incoming(y)[1..];
    ComingReceive(y.e.pending, Incoming(y), c, n);
    ReceiveMachine(y.e, w);
    AwaitsReceive(y.e, w, c, n);
  }

  /** The grant arrives, and binds the ESME alone. */
  lemma TrappedEnd(y: Sys, c: Command, n: nat, st: State)
    requires Trapped(y, c, n, st) && y.e.rx.Idle? && y.toE == [Resp(c, n, true)] && |Incoming(y)| == 1
    ensures CanStrand(y, c, st)
  {
    HeldBefore(y.e.pending, [], c, n);
    var z := Next(y, Step(ESME, Deliver));
    assert z.e.rx == Completing(c, true) && z.e.m == y.e.m;
    var u := Next(z, Step(ESME, FinishComplete));
    StrandNow(u, c, st);
    StrandLater(z, Step(ESME, FinishComplete), c, st);
    StrandLater(y, Step(ESME, Deliver), c, st);
  }

  /** While the SMSC has anything to send, it can do the next thing. */
  lemma DrainStep(y: Sys, c: Command, n: nat, st: State) returns (t: Step)
    requires Trapped(y, c, n, st) && Work(y.s) > 0
    ensures Enabled(y, t) && Trapped(Next(y, t), c, n, st) && Work(Next(y, t).s) < Work(y.s)
  {
    if y.s.batch != [] {
      t := Step(SMSC, Commit);
      TrappedCommit(y, c, n, st);
    } else if y.s.ready != [] {
      t := Step(SMSC, Write);
      TrappedWrite(y, c, n, st);
    } else {
      t := Step(SMSC, Dequeue);
      TrappedDequeue(y, c, n, st);
    }
  }

  function RxWork(y: Sys): (k: nat) { 2 * |y.toE| + if y.e.rx.Idle? then 0 else 1 }

  /** Once it has sent everything, the ESME can take the next message before the grant. */
  lemma ReceiveStep(y: Sys, c: Command, n: nat, st: State) returns (t: Step)
    requires Trapped(y, c, n, st) && Work(y.s) == 0 && RxWork(y) > 2
    ensures Enabled(y, t) && Trapped(Next(y, t), c, n, st)
    ensures Next(y, t).s == y.s && RxWork(Next(y, t)) < RxWork(y)
  {
    if !y.e.rx.Idle? {
      t := Step(ESME, FinishRx(y.e.rx));
      TrappedFinish(y, c, n, st);
    } else {
      t := Step(ESME, Deliver);
      TrappedReceive(y, c, n, st);
    }
  }

  lemma {:induction false} TrappedStrands(y: Sys, c: Command, n: nat, st: State)
    requires Trapped(y, c, n, st)
    ensures CanStrand(y, c, st)
    decreases Work(y.s), RxWork(y)
  {
    if Work(y.s) == 0 && RxWork(y) <= 2 {
      assert Incoming(y) == y.toE;
      TrappedEnd(y, c, n, st);
    } else {
      var t;
      if Work(y.s) > 0 {
        t := DrainStep(y, c, n, st);
      } else {
        t := ReceiveStep(y, c, n, st);
      }
      TrappedStrands(Next(y, t), c, n, st);
      StrandLater(y, t, c, st);
    }
  }

  // ----- The stale accept -----

  lemma {:induction false} AfterAllConcat(p: Pending, a: seq<Msg>, b: seq<Msg>)
    ensures AfterAll(p, a + b) == AfterAll(AfterAll(p, a), b)
    decreases |a|
  {
    if a == [] {
      assert a + b == b;
    } else {
      assert (a + b)[0] == a[0] && (a + b)[1..] == a[1..] + b;
      AfterAllConcat(After(p, a[0]), a[1..], b);
    }
  }

  /** The accepted bind, granted by the handler. */
  function Granted(y: Sys): (z: Sys)
    requires y.s.rx.Idle? && AcceptsBind(y, Step(SMSC, Deliver))
    ensures Enabled(Next(y, Step(SMSC, Deliver)), Step(SMSC, Reply(true)))
  {
    Next(Next(y, Step(SMSC, Deliver)), Step(SMSC, Reply(true)))
  }

  lemma GrantedIs(y: Sys)
    requires y.s.rx.Idle? && AcceptsBind(y, Step(SMSC, Deliver))
    ensures var c, n := y.toS[0].c, y.toS[0].seqno;
            Granted(y) == y.(toS := y.toS[1..], s := y.s.(m := y.s.m.(peerBind := Some(c)),
                                                          txq := y.s.txq + [Response(c, n, true)]))
  {
  }

  lemma GrantedIsMissed(x: Side, c: Command, n: nat)
    requires x.rx.Idle? && IsConnected(x.m.state) && FirstIsRefusal(Queue(x), c)
    ensures var z := x.(m := x.m.(peerBind := Some(c)), txq := x.txq + [Response(c, n, true)]);
            Missed(z, c, x.m.state) && Queue(z) == Queue(x) + [Resp(c, n, true)]
  {
    var z, w := x.(m := x.m.(peerBind := Some(c)), txq := x.txq + [Response(c, n, true)]), Resp(c, n, true);
    assert Queue(z) == Queue(x) + [w];
    FirstAnswerAppend(Queue(x), w, c);
  }

  lemma GrantIsLast(p: Pending, q: seq<Msg>, c: Command, n: nat)
    requires Held(AfterAll(p, q), c, n)
    ensures Coming(p, q + [Resp(c, n, true)], c, n)
  {
    assert (q + [Resp(c, n, true)])[..|q|] == q;
  }

  lemma GrantIsComing(p: Pending, wire: seq<Msg>, q: seq<Msg>, c: Command, n: nat)
    requires Held(AfterAll(AfterAll(p, wire), q), c, n)
    ensures Coming(p, wire + (q + [Resp(c, n, true)]), c, n)
  {
    var w := Resp(c, n, true);
    AfterAllConcat(p, wire, q);
    GrantIsLast(p, wire + q, c, n);
    assert wire + (q + [w]) == wire + q + [w];
  }

  lemma HarmfulAcceptLoosens(y: Sys)
    requires Machines(y) && y.s.rx.Idle? && HarmfulAccept(y, Step(SMSC, Deliver))
    ensures Loose(Granted(y), y.toS[0].c, y.toS[0].seqno, y.s.m.state) && Granted(y).e == y.e
  {
    var c, n := y.toS[0].c, y.toS[0].seqno;
    GrantedIs(y);
    GrantedIsMissed(y.s, c, n);
    GrantIsComing(y.e.pending, Wire(y), Queue(y.s), c, n);
  }

  /** From every state: once the SMSC accepts a bind that the ESME still awaits, with its
      reservation, while the first answer queued to that command is a refusal, some
      continuation binds the ESME and leaves the SMSC connected. */
  lemma HarmfulAcceptCanStrand(y: Sys)
    requires Machines(y) && y.s.rx.Idle? && HarmfulAccept(y, Step(SMSC, Deliver))
    requires Awaits(y.e, y.toS[0].c, y.toS[0].seqno)
    ensures CanStrand(Next(y, Step(SMSC, Deliver)), y.toS[0].c, y.s.m.state)
  {
    var c, n, st := y.toS[0].c, y.toS[0].seqno, y.s.m.state;
    HarmfulAcceptLoosens(y);
    TrappedStrands(Granted(y), c, n, st);
    StrandLater(Next(y, Step(SMSC, Deliver)), Step(SMSC, Reply(true)), c, st);
  }
}
