/** A run from the start in which a stale accept breaks the bind agreement. */
module StaleBindRun {
  import opened Bytes
  import opened Lifecycle
  import opened TwoParty
  import opened BindFlow
  import opened BindAgreements
  import opened StaleBinds

  lemma {:induction false} RunSnoc(y: Sys, ts: seq<Step>, t: Step)
    requires IsRun(y, ts) && Enabled(RunTo(y, ts), t)
    ensures IsRun(y, ts + [t]) && RunTo(y, ts + [t]) == Next(RunTo(y, ts), t)
    decreases |ts|
  {
    if ts == [] {
      assert (ts + [t])[1..] == [];
    } else {
      assert (ts + [t])[1..] == ts[1..] + [t];
      RunSnoc(Next(y, ts[0]), ts[1..], t);
    }
  }

  /** Some run leads from y to z. */
  ghost predicate Reaches(y: Sys, z: Sys)
  {
    exists ts: seq<Step> :: IsRun(y, ts) && RunTo(y, ts) == z
  }

  lemma ReachStep(y: Sys, z: Sys, t: Step)
    requires Reaches(y, z) && Enabled(z, t)
    ensures Reaches(y, Next(z, t))
  {
    var ts: seq<Step> :| IsRun(y, ts) && RunTo(y, ts) == z;
    RunSnoc(y, ts, t);
  }

  const BTX := BindTransmitter

  /** An ESME that waits for the answer to bind_transmitter number n. */
  function Waiting(n: nat): (x: Side)
  {
    Fresh(ESME).(m := Opened(ESME).(localBind := Some(BTX)), pending := map[n := BTX])
  }

  lemma ReserveBind(y0: Sys, y: Sys, n: nat)
    requires Reaches(y0, y) && y.e == Fresh(ESME)
    ensures Reaches(y0, y.(e := Waiting(n).(unsent := {(BTX, n)})))
  {
    var m := Opened(ESME).(localBind := Some(BTX));
    ReachStep(y0, y, Step(ESME, Begin(BTX)));
    var y1 := y.(e := Fresh(ESME).(m := m, reserving := multiset{BTX}));
    ReachStep(y0, y1, Step(ESME, Insert(BTX, n)));
    assert Next(y1, Step(ESME, Insert(BTX, n))) == y.(e := Waiting(n).(unsent := {(BTX, n)}));
  }

  /** The ESME sends bind_transmitter number n. */
  lemma SendBind(y0: Sys, y: Sys, n: nat)
    requires Reaches(y0, y) && y.e == Fresh(ESME)
    ensures Reaches(y0, y.(e := Waiting(n), toS := y.toS + [Req(BTX, n)]))
  {
    ReserveBind(y0, y, n);
    var y2 := y.(e := Waiting(n).(unsent := {(BTX, n)}));
    ReachStep(y0, y2, Step(ESME, Enqueue(BTX, n)));
    assert Next(y2, Step(ESME, Enqueue(BTX, n))) == y.(e := Waiting(n).(txq := [Request(BTX, n)]));
    TransmitBind(y0, y, n);
  }

  lemma TransmitBind(y0: Sys, y: Sys, n: nat)
    requires Reaches(y0, y.(e := Waiting(n).(txq := [Request(BTX, n)])))
    ensures Reaches(y0, y.(e := Waiting(n), toS := y.toS + [Req(BTX, n)]))
  {
    var i := Request(BTX, n);
    var y3 := y.(e := Waiting(n).(txq := [i]));
    ReachStep(y0, y3, Step(ESME, Dequeue));
    var y4 := y.(e := Waiting(n).(batch := [i]));
    assert Next(y3, Step(ESME, Dequeue)) == y4;
    ReachStep(y0, y4, Step(ESME, Commit));
    var y5 := y.(e := Waiting(n).(ready := [i]));
    assert Next(y4, Step(ESME, Commit)) == y5;
    ReachStep(y0, y5, Step(ESME, Write));
    assert Next(y5, Step(ESME, Write)) == y.(e := Waiting(n), toS := y.toS + [Req(BTX, n)]);
  }

  /** The ESME gives up waiting. */
  lemma AbandonBind(y0: Sys, y: Sys, n: nat)
    requires Reaches(y0, y) && y.e == Waiting(n)
    ensures Reaches(y0, y.(e := Fresh(ESME)))
  {
    ReachStep(y0, y, Step(ESME, Withdraw(n)));
    var y1 := y.(e := Waiting(n).(pending := map[], cancelling := multiset{BTX}));
    assert Next(y, Step(ESME, Withdraw(n))) == y1;
    ReachStep(y0, y1, Step(ESME, FinishCancel(BTX)));
    assert Next(y1, Step(ESME, FinishCancel(BTX))) == y.(e := Fresh(ESME));
  }

  /** An SMSC with a bind reservation of its peer, or without. */
  function Serving(reserved: bool, txq: seq<Item>, batch: seq<Item>, ready: seq<Item>): (x: Side)
  {
    Fresh(SMSC).(m := Opened(SMSC).(peerBind := if reserved then Some(BTX) else None),
                 txq := txq, batch := batch, ready := ready)
  }

  function Taking(n: nat, accepted: bool, txq: seq<Item>, batch: seq<Item>, ready: seq<Item>): (x: Side)
  {
    Serving(true, txq, batch, ready).(rx := Replying(BTX, n, accepted))
  }

  lemma TakeBind(y0: Sys, y: Sys, n: nat, reserved: bool, txq: seq<Item>, batch: seq<Item>, ready: seq<Item>)
    requires Reaches(y0, y) && y.toS == [Req(BTX, n)] && y.s == Serving(reserved, txq, batch, ready)
    ensures Reaches(y0, y.(toS := [], s := Taking(n, !reserved, txq, batch, ready)))
  {
    ReachStep(y0, y, Step(SMSC, Deliver));
    assert Next(y, Step(SMSC, Deliver)) == y.(toS := [], s := Taking(n, !reserved, txq, batch, ready));
  }

  /** The SMSC takes bind_transmitter number n and answers it. */
  lemma ServeBind(y0: Sys, y: Sys, n: nat, reserved: bool, txq: seq<Item>, batch: seq<Item>, ready: seq<Item>,
                  ok: bool)
    requires Reaches(y0, y) && y.toS == [Req(BTX, n)] && y.s == Serving(reserved, txq, batch, ready)
    requires reserved ==> !ok
    ensures Reaches(y0, y.(toS := [], s := Serving(true, txq + [Response(BTX, n, ok)], batch, ready)))
  {
    TakeBind(y0, y, n, reserved, txq, batch, ready);
    var y1 := y.(toS := [], s := Taking(n, !reserved, txq, batch, ready));
    ReachStep(y0, y1, Step(SMSC, Reply(ok)));
    assert Next(y1, Step(SMSC, Reply(ok))) ==
           y.(toS := [], s := Serving(true, txq + [Response(BTX, n, ok)], batch, ready));
  }

  const R1 := Response(BTX, 1, false)
  const R2 := Response(BTX, 2, false)

  lemma FirstAttempt()
    ensures Reaches(Init(), Sys(Waiting(1), Serving(false, [], [], []), [Req(BTX, 1)], []))
  {
    var y0 := Init();
    assert IsRun(y0, []) && RunTo(y0, []) == y0;
    assert Serving(false, [], [], []) == Fresh(SMSC);
    SendBind(y0, y0, 1);
  }

  lemma FirstRefusalIsQueued()
    ensures Reaches(Init(), Sys(Waiting(1), Serving(true, [R1], [], []), [], []))
  {
    FirstAttempt();
    var y1 := Sys(Waiting(1), Serving(false, [], [], []), [Req(BTX, 1)], []);
    ServeBind(Init(), y1, 1, false, [], [], [], false);
  }

  lemma FirstRefusalIsDequeued()
    ensures Reaches(Init(), Sys(Waiting(1), Serving(true, [], [R1], []), [], []))
  {
    FirstRefusalIsQueued();
    var y2 := Sys(Waiting(1), Serving(true, [R1], [], []), [], []);
    ReachStep(Init(), y2, Step(SMSC, Dequeue));
    assert Next(y2, Step(SMSC, Dequeue)) == Sys(Waiting(1), Serving(true, [], [R1], []), [], []);
  }

  lemma FirstRefusal()
    ensures Reaches(Init(), Sys(Fresh(ESME), Serving(true, [], [R1], []), [], []))
  {
    FirstRefusalIsDequeued();
    AbandonBind(Init(), Sys(Waiting(1), Serving(true, [], [R1], []), [], []), 1);
  }

  lemma SecondAttempt()
    ensures Reaches(Init(), Sys(Waiting(2), Serving(true, [], [R1], []), [Req(BTX, 2)], []))
  {
    FirstRefusal();
    SendBind(Init(), Sys(Fresh(ESME), Serving(true, [], [R1], []), [], []), 2);
  }

  lemma SecondRefusalIsQueued()
    ensures Reaches(Init(), Sys(Waiting(2), Serving(true, [R2], [R1], []), [], []))
  {
    SecondAttempt();
    ServeBind(Init(), Sys(Waiting(2), Serving(true, [], [R1], []), [Req(BTX, 2)], []), 2, true, [], [R1], [], false);
  }

  /** The first refusal is dequeued; before it is committed, a retry of the same bind
      is refused too, and that second refusal waits in the queue. */
  lemma TwoRefusals()
    ensures Reaches(Init(), Sys(Waiting(2), Serving(false, [R2], [], [R1]), [], []))
  {
    SecondRefusalIsQueued();
    var y6 := Sys(Waiting(2), Serving(true, [R2], [R1], []), [], []);
    ReachStep(Init(), y6, Step(SMSC, Commit));
    assert Next(y6, Step(SMSC, Commit)) == Sys(Waiting(2), Serving(false, [R2], [], [R1]), [], []);
  }

  /** A third attempt is on its way while the second refusal is still queued. */
  function ThirdAttempt(): (y: Sys)
  {
    Sys(Waiting(3), Serving(false, [R2], [], [R1]), [Req(BTX, 3)], [])
  }

  lemma ThirdAttemptIsReached()
    ensures Reaches(Init(), ThirdAttempt())
  {
    TwoRefusals();
    var y7 := Sys(Waiting(2), Serving(false, [R2], [], [R1]), [], []);
    AbandonBind(Init(), y7, 2);
    var y8 := y7.(e := Fresh(ESME));
    SendBind(Init(), y8, 3);
  }

  lemma OneMessage(p: Pending, w: Msg, c: Command)
    ensures AfterAll(p, [w]) == After(p, w)
    ensures Answers(w, c) ==> FirstAnswer([w], c) == Some(w.ok)
  {
    assert [w][1..] == [];
  }

  lemma ThirdAttemptIsHarmful()
    ensures Machines(ThirdAttempt()) && HarmfulAccept(ThirdAttempt(), Step(SMSC, Deliver))
    ensures Awaits(ThirdAttempt().e, BTX, 3)
  {
    var y := ThirdAttempt();
    var w1, w2 := MsgOf(R1), MsgOf(R2);
    assert Queue(y.s) == [w2] && Wire(y) == [w1];
    OneMessage(y.e.pending, w1, BTX);
    OneMessage(y.e.pending, w2, BTX);
  }

  lemma {:induction false} StrandBack(y: Sys, ts: seq<Step>, c: Command, st: State)
    requires IsRun(y, ts) && CanStrand(RunTo(y, ts), c, st)
    ensures CanStrand(y, c, st)
    decreases |ts|
  {
    if ts == [] {
    } else {
      StrandBack(Next(y, ts[0]), ts[1..], c, st);
      StrandLater(y, ts[0], c, st);
    }
  }

  /** Without the condition the agreement is false: some run from the start, in which
      three attempts of the same bind are made, the first refused and the second
      abandoned, binds the ESME as a transmitter to an SMSC that is still Open. */
  lemma StaleAcceptBreaksAgreement()
    ensures CanStrand(Init(), BindTransmitter, Open)
    ensures exists ts: seq<Step> :: IsRun(Init(), ts) && !Agreement(RunTo(Init(), ts))
  {
    var y := ThirdAttempt();
    ThirdAttemptIsHarmful();
    HarmfulAcceptCanStrand(y);
    StrandLater(y, Step(SMSC, Deliver), BTX, Open);
    ThirdAttemptIsReached();
    var ts: seq<Step> :| IsRun(Init(), ts) && RunTo(Init(), ts) == y;
    StrandBack(Init(), ts, BTX, Open);
    var us: seq<Step> :| IsRun(Init(), us) && Stranded(RunTo(Init(), us), BTX, Open);
    StrandedDisagrees(RunTo(Init(), us), BTX, Open);
  }
}
