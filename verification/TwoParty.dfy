/** An ESME and an SMSC session over two FIFO channels: bind agreement.

    Each step is one locked region or one channel operation of session/session.go,
    session/tx.go, session/rx.go or session/liveness.go. */
module TwoParty {
  import opened Lifecycle

  /** Messages on the wire; a response names the request command it answers, and
      every generic_nack this code queues has a non-zero status. */
  datatype Msg = Req(c: Command, seqno: nat) | Resp(c: Command, seqno: nat, ok: bool) | Nack(seqno: nat)

  datatype Item =
    | Request(c: Command, seqno: nat)
    | OneWay(c: Command, seqno: nat)
    | Response(c: Command, seqno: nat, ok: bool)
    | NackItem(seqno: nat)

  /** What the receive loop is in the middle of. */
  datatype Rx = Idle | Completing(c: Command, ok: bool) | Replying(c: Command, seqno: nat, accepted: bool)

  datatype Side = Side(
    m: Machine,
    reserving: multiset<Command>,         // callers past BeginOutbound, not yet in the table
    unsent: set<(Command, nat)>,          // callers in the table, not yet queued
    pending: map<nat, Command>,           // the correlation table
    cancelling: multiset<Command>,        // parties that left the table and still owe CancelOutbound
    rx: Rx,
    txq: seq<Item>,                       // the transmit queue
    batch: seq<Item>,                     // dequeued, lifecycle not yet committed
    ready: seq<Item>)                     // committed, not yet written

  datatype Sys = Sys(e: Side, s: Side, toS: seq<Msg>, toE: seq<Msg>)

  function Fresh(role: Role): (x: Side)
  {
    Side(Opened(role), multiset{}, {}, map[], multiset{}, Idle, [], [], [])
  }

  function Init(): (y: Sys)
  {
    Sys(Fresh(ESME), Fresh(SMSC), [], [])
  }

  datatype Act =
    | Begin(c: Command)                          // BeginOutbound accepted
    | Insert(c: Command, seqno: nat)             // pending.insert
    | Enqueue(c: Command, seqno: nat)            // tx <- item
    | EnqueueOneWay(c: Command, seqno: nat)
    | AbortReserved(c: Command)                  // gives up before the table
    | AbortUnsent(c: Command, seqno: nat)        // encode error or cancellation before the queue
    | Withdraw(seqno: nat)                       // timeout or cancellation wins the table entry
    | FinishCancel(c: Command)                   // its CancelOutbound
    | Dequeue | Commit | Write
    | Deliver                                    // receive loop takes the next message
    | FinishComplete                             // its CompleteOutbound
    | Reply(ok: bool) | ReplyFails
    | RejectGarbage(seqno: nat)                  // an undecodable PDU is answered generic_nack
    | Shut

  /** Steps that touch one side only. */
  predicate LocalEnabled(x: Side, a: Act)
  {
    match a
    case Begin(c) => AcceptsOutbound(x.m, c)
    case Insert(c, n) => c in x.reserving && !IsOneWay(c) && n !in x.pending
    case Enqueue(c, n) => (c, n) in x.unsent
    case EnqueueOneWay(c, n) => c in x.reserving && IsOneWay(c)
    case AbortReserved(c) => c in x.reserving
    case AbortUnsent(c, n) => (c, n) in x.unsent
    case Withdraw(n) => n in x.pending
    case FinishCancel(c) => c in x.cancelling
    case Dequeue => x.ready == [] && x.txq != []
    case Commit => x.batch != []
    case FinishComplete => x.rx.Completing?
    case Reply(ok) => x.rx.Replying? && (!x.rx.accepted ==> !ok) && (x.rx.accepted && x.rx.c.Unbind? ==> ok)
    case ReplyFails => x.rx.Replying?
    case RejectGarbage(_) => x.rx.Idle?
    case Shut => true
    case Write => false
    case Deliver => false
  }

  function CommitItem(m: Machine, i: Item): (n: Machine)
  {
    if i.Response? then CompleteInbound(m, i.c, i.ok) else m
  }

  predicate Active(x: Side, i: Item) { i.Request? ==> i.seqno in x.pending }

  function LocalNext(x: Side, a: Act): (y: Side)
    requires LocalEnabled(x, a)
  {
    match a
    case Begin(c) => x.(m := BeginOutbound(x.m, c), reserving := x.reserving + multiset{c})
    case Insert(c, n) =>
      x.(reserving := x.reserving - multiset{c}, unsent := x.unsent + {(c, n)}, pending := x.pending[n := c])
    case Enqueue(c, n) => x.(unsent := x.unsent - {(c, n)}, txq := x.txq + [Request(c, n)])
    case EnqueueOneWay(c, n) => x.(reserving := x.reserving - multiset{c}, txq := x.txq + [OneWay(c, n)])
    case AbortReserved(c) => x.(m := CancelOutbound(x.m, c), reserving := x.reserving - multiset{c})
    case AbortUnsent(c, n) =>
      x.(unsent := x.unsent - {(c, n)}, pending := x.pending - {n}, cancelling := x.cancelling + multiset{c})
    case Withdraw(n) => x.(pending := x.pending - {n}, cancelling := x.cancelling + multiset{x.pending[n]})
    case FinishCancel(c) => x.(m := CancelOutbound(x.m, c), cancelling := x.cancelling - multiset{c})
    case Dequeue =>
      x.(txq := x.txq[1..], batch := if Active(x, x.txq[0]) then x.batch + [x.txq[0]] else x.batch)
    case Commit =>
      x.(m := CommitItem(x.m, x.batch[0]), batch := x.batch[1..], ready := x.ready + [x.batch[0]])
    case FinishComplete => x.(m := CompleteOutbound(x.m, x.rx.c, x.rx.ok), rx := Idle)
    case Reply(ok) =>
      x.(rx := Idle,
         txq := if !IsOneWay(x.rx.c) then x.txq + [Response(x.rx.c, x.rx.seqno, ok)]
                else if x.rx.accepted then x.txq else x.txq + [NackItem(x.rx.seqno)])
    case ReplyFails => x.(rx := Idle, m := if x.rx.accepted then CancelInbound(x.m, x.rx.c) else x.m)
    case RejectGarbage(n) => x.(txq := x.txq + [NackItem(n)])
    case Shut => x.(m := Close(x.m), pending := map[])
  }

  function MsgOf(i: Item): (w: Msg)
  {
    match i
    case Request(c, n) => Req(c, n)
    case OneWay(c, n) => Req(c, n)
    case Response(c, n, ok) => Resp(c, n, ok)
    case NackItem(n) => Nack(n)
  }

  /** Every frame of a batch is committed before any of them is written. */
  predicate CanWrite(x: Side) { x.batch == [] && x.ready != [] }

  /** The receive loop takes a message. */
  function Receive(x: Side, w: Msg): (y: Side)
    requires x.rx.Idle?
  {
    match w
    case Resp(c, n, ok) =>
      if n in x.pending && x.pending[n] == c then x.(pending := x.pending - {n}, rx := Completing(c, ok)) else x
    case Nack(n) =>
      if n in x.pending then x.(pending := x.pending - {n}, rx := Completing(x.pending[n], false)) else x
    case Req(c, n) =>
      x.(m := BeginInbound(x.m, c), rx := Replying(c, n, AcceptsInbound(x.m, c)))
  }

  datatype Step = Step(who: Role, act: Act)

  predicate Enabled(y: Sys, t: Step)
  {
    match t.act
    case Write => CanWrite(if t.who.ESME? then y.e else y.s)
    case Deliver => if t.who.ESME? then y.e.rx.Idle? && y.toE != [] else y.s.rx.Idle? && y.toS != []
    case _ => LocalEnabled(if t.who.ESME? then y.e else y.s, t.act)
  }

  function Next(y: Sys, t: Step): (z: Sys)
    requires Enabled(y, t)
  {
    match (t.who, t.act)
    case (ESME, Write) => y.(toS := y.toS + [MsgOf(y.e.ready[0])], e := y.e.(ready := y.e.ready[1..]))
    case (SMSC, Write) => y.(toE := y.toE + [MsgOf(y.s.ready[0])], s := y.s.(ready := y.s.ready[1..]))
    case (ESME, Deliver) => y.(toE := y.toE[1..], e := Receive(y.e, y.toE[0]))
    case (SMSC, Deliver) => y.(toS := y.toS[1..], s := Receive(y.s, y.toS[0]))
    case (ESME, a) => y.(e := LocalNext(y.e, a))
    case (SMSC, a) => y.(s := LocalNext(y.s, a))
  }

  lemma LocalStepIs(y: Sys, a: Act)
    ensures LocalEnabled(y.e, a) ==> Enabled(y, Step(ESME, a)) && Next(y, Step(ESME, a)) == y.(e := LocalNext(y.e, a))
    ensures LocalEnabled(y.s, a) ==> Enabled(y, Step(SMSC, a)) && Next(y, Step(SMSC, a)) == y.(s := LocalNext(y.s, a))
  {
  }

  // ----- Runs and the agreement -----

  /** A run: every step enabled where it is taken. */
  predicate IsRun(y: Sys, ts: seq<Step>)
    decreases |ts|
  {
    ts == [] || (Enabled(y, ts[0]) && IsRun(Next(y, ts[0]), ts[1..]))
  }

  function RunTo(y: Sys, ts: seq<Step>): (z: Sys)
    requires IsRun(y, ts)
    decreases |ts|
  {
    if ts == [] then y else RunTo(Next(y, ts[0]), ts[1..])
  }

  /** The SMSC is bound in mode x, unbinding from it, or closed. */
  predicate AgreesWith(m: Machine, x: State)
  {
    m.state.Closed? || (Phase(m.state) == 1 && Mode(m) == x)
  }

  /** Whenever the ESME is bound in a mode, or unbinding from it, the SMSC agrees. */
  predicate Agreement(y: Sys)
  {
    Phase(y.e.m.state) == 1 ==> AgreesWith(y.s.m, Mode(y.e.m))
  }

  predicate Machines(y: Sys)
  {
    Inv(y.e.m) && y.e.m.role.ESME? && Inv(y.s.m) && y.s.m.role.SMSC?
  }

  // ----- What a step does to the machine -----

  /** The machine only moved forward. */
  predicate Forward(m: Machine, n: Machine)
  {
    && Inv(n) && n.role == m.role && Phase(m.state) <= Phase(n.state)
    && (Phase(m.state) == 1 == Phase(n.state) ==> Mode(n) == Mode(m))
  }

  /** The steps that call the machine. */
  predicate Calls(x: Side, a: Act)
  {
    match a
    case Begin(_) | AbortReserved(_) | FinishCancel(_) | FinishComplete | Shut => true
    case Commit => x.batch != [] && x.batch[0].Response?
    case ReplyFails => x.rx.Replying? && x.rx.accepted
    case _ => false
  }

  function LocalOp(x: Side, a: Act): (op: Op)
    requires LocalEnabled(x, a) && Calls(x, a)
  {
    match a
    case Begin(c) => DoBeginOutbound(c)
    case AbortReserved(c) => DoCancelOutbound(c)
    case FinishCancel(c) => DoCancelOutbound(c)
    case Commit => DoCompleteInbound(x.batch[0].c, x.batch[0].ok)
    case FinishComplete => DoCompleteOutbound(x.rx.c, x.rx.ok)
    case ReplyFails => DoCancelInbound(x.rx.c)
    case Shut => DoClose
  }

  lemma LocalOpIsCall(x: Side, a: Act)
    requires LocalEnabled(x, a) && Calls(x, a)
    ensures LocalNext(x, a).m == Apply(x.m, LocalOp(x, a))
  {
  }

  lemma OtherStepsKeepMachine(x: Side, a: Act)
    requires LocalEnabled(x, a) && !Calls(x, a)
    ensures LocalNext(x, a).m == x.m
  {
  }

  lemma CallKeepsRole(m: Machine, op: Op)
    ensures Apply(m, op).role == m.role
  {
  }

  lemma CallGoesForward(m: Machine, op: Op)
    requires Inv(m)
    ensures Forward(m, Apply(m, op))
  {
    InvStep(m, op);
    PhaseStep(m, op);
    CallKeepsRole(m, op);
  }

  /** Every local step acts on the machine by at most one of its calls. */
  lemma LocalMachine(x: Side, a: Act)
    requires LocalEnabled(x, a) && Inv(x.m)
    ensures Forward(x.m, LocalNext(x, a).m)
  {
    if Calls(x, a) {
      LocalOpIsCall(x, a);
      CallGoesForward(x.m, LocalOp(x, a));
    } else {
      OtherStepsKeepMachine(x, a);
    }
  }

  lemma AgreesKept(m: Machine, n: Machine, x: State)
    requires AgreesWith(m, x) && Forward(m, n)
    ensures AgreesWith(n, x)
  {
  }

  lemma ReceiveMachine(x: Side, w: Msg)
    requires x.rx.Idle? && Inv(x.m)
    ensures Forward(x.m, Receive(x, w).m)
  {
    if w.Req? {
      CallGoesForward(x.m, DoBeginInbound(w.c));
    }
  }

  lemma StepMachines(y: Sys, t: Step)
    requires Machines(y) && Enabled(y, t)
    ensures Machines(Next(y, t)) && Forward(y.e.m, Next(y, t).e.m) && Forward(y.s.m, Next(y, t).s.m)
  {
    if t.act.Deliver? {
      if t.who.ESME? {
        ReceiveMachine(y.e, y.toE[0]);
      } else {
        ReceiveMachine(y.s, y.toS[0]);
      }
    } else if !t.act.Write? {
      LocalStepIs(y, t.act);
      LocalMachine(if t.who.ESME? then y.e else y.s, t.act);
    }
  }

  /** The ESME becomes bound only by a grant it has received. */
  lemma EsmeBindsByGrant(x: Side, a: Act)
    requires LocalEnabled(x, a) && Inv(x.m) && x.m.role.ESME?
    requires Phase(x.m.state) == 0 && Phase(LocalNext(x, a).m.state) == 1
    ensures x.rx.Completing? && x.rx.ok && IsBind(x.rx.c) && Mode(LocalNext(x, a).m) == BoundState(x.rx.c)
  {
    if Calls(x, a) {
      LocalOpIsCall(x, a);
      BecomesBound(x.m, LocalOp(x, a));
    } else {
      OtherStepsKeepMachine(x, a);
    }
  }
}
