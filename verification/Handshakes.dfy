/** The exchanges that the protocol is for, between two quiet sides: whoever may issue a
    request can have it answered, and what the answer leaves on both sides. */
module Handshakes {
  import opened Lifecycle
  import opened TwoParty
  import opened StaleBindRun

  /** A side with nothing under way but its pending table. */
  function Resting(m: Machine, p: map<nat, Command>): (x: Side)
  {
    Side(m, multiset{}, {}, p, multiset{}, Idle, [], [], [])
  }

  /** Side x in the role `who`, its peer z, and the messages to and from the peer. */
  function Pair(who: Role, x: Side, z: Side, out: seq<Msg>, back: seq<Msg>): (y: Sys)
  {
    if who.ESME? then Sys(x, z, out, back) else Sys(z, x, back, out)
  }

  lemma Turned(who: Role, x: Side, z: Side, out: seq<Msg>, back: seq<Msg>)
    ensures Pair(who, x, z, out, back) == Pair(who.Peer(), z, x, back, out)
  {
  }

  lemma LocalReach(y0: Sys, who: Role, x: Side, z: Side, out: seq<Msg>, back: seq<Msg>, a: Act, w: Side)
    requires Reaches(y0, Pair(who, x, z, out, back)) && LocalEnabled(x, a) && LocalNext(x, a) == w
    ensures Reaches(y0, Pair(who, w, z, out, back))
  {
    var y := Pair(who, x, z, out, back);
    LocalStepIs(y, a);
    ReachStep(y0, y, Step(who, a));
  }

  lemma WriteReach(y0: Sys, who: Role, x: Side, z: Side, out: seq<Msg>, back: seq<Msg>)
    requires Reaches(y0, Pair(who, x, z, out, back)) && CanWrite(x)
    ensures Reaches(y0, Pair(who, x.(ready := x.ready[1..]), z, out + [MsgOf(x.ready[0])], back))
  {
    ReachStep(y0, Pair(who, x, z, out, back), Step(who, Write));
  }

  lemma DeliverReach(y0: Sys, who: Role, x: Side, z: Side, out: seq<Msg>, back: seq<Msg>)
    requires Reaches(y0, Pair(who, x, z, out, back)) && x.rx.Idle? && back != []
    ensures Reaches(y0, Pair(who, Receive(x, back[0]), z, out, back[1..]))
  {
    ReachStep(y0, Pair(who, x, z, out, back), Step(who, Deliver));
  }

  /** The transmit loop takes its one item from the queue to the wire. */
  lemma Transmit(y0: Sys, who: Role, m: Machine, p: map<nat, Command>, rx: Rx, i: Item, z: Side, back: seq<Msg>)
    requires var x := Resting(m, p).(rx := rx, txq := [i]);
             Reaches(y0, Pair(who, x, z, [], back)) && Active(x, i)
    ensures var x := Resting(CommitItem(m, i), p).(rx := rx);
            Reaches(y0, Pair(who, x, z, [MsgOf(i)], back))
  {
    var x := Resting(m, p).(rx := rx);
    LocalReach(y0, who, x.(txq := [i]), z, [], back, Dequeue, x.(batch := [i]));
    LocalReach(y0, who, x.(batch := [i]), z, [], back, Commit, x.(m := CommitItem(m, i), ready := [i]));
    WriteReach(y0, who, x.(m := CommitItem(m, i), ready := [i]), z, [], back);
    assert [] + [MsgOf(i)] == [MsgOf(i)];
  }

  /** A request that may be issued gets to the peer's end of the wire. */
  lemma Ask(y0: Sys, who: Role, m: Machine, p: map<nat, Command>, z: Side, c: Command, n: nat)
    requires Reaches(y0, Pair(who, Resting(m, p), z, [], [])) && AcceptsOutbound(m, c) && !IsOneWay(c) && n !in p
    ensures Reaches(y0, Pair(who, Resting(BeginOutbound(m, c), p[n := c]), z, [Req(c, n)], []))
  {
    var x := Resting(BeginOutbound(m, c), p);
    LocalReach(y0, who, Resting(m, p), z, [], [], Begin(c), x.(reserving := multiset{c}));
    var listed := Resting(BeginOutbound(m, c), p[n := c]);
    LocalReach(y0, who, x.(reserving := multiset{c}), z, [], [], Insert(c, n), listed.(unsent := {(c, n)}));
    LocalReach(y0, who, listed.(unsent := {(c, n)}), z, [], [], Enqueue(c, n), listed.(txq := [Request(c, n)]));
    Transmit(y0, who, listed.m, listed.pending, Idle, Request(c, n), z, []);
  }

  /** An accepted request is answered. */
  lemma Answer(y0: Sys, who: Role, w: Machine, k: map<nat, Command>, z: Side, c: Command, n: nat, ok: bool)
    requires Reaches(y0, Pair(who, Resting(w, k), z, [], [Req(c, n)]))
    requires AcceptsInbound(w, c) && !IsOneWay(c) && (c.Unbind? ==> ok)
    ensures Reaches(y0, Pair(who, Resting(CompleteInbound(BeginInbound(w, c), c, ok), k), z, [Resp(c, n, ok)], []))
  {
    var x := Resting(BeginInbound(w, c), k);
    DeliverReach(y0, who, Resting(w, k), z, [], [Req(c, n)]);
    LocalReach(y0, who, x.(rx := Replying(c, n, true)), z, [], [], Reply(ok), x.(txq := [Response(c, n, ok)]));
    Transmit(y0, who, x.m, k, Idle, Response(c, n, ok), z, []);
  }

  lemma TakesAnswer(m: Machine, p: map<nat, Command>, c: Command, n: nat, ok: bool)
    requires n !in p
    ensures Receive(Resting(m, p[n := c]), Resp(c, n, ok)) == Resting(m, p).(rx := Completing(c, ok))
  {
    assert p[n := c] - {n} == p;
  }

  /** And the answer completes it. */
  lemma Complete(y0: Sys, who: Role, m: Machine, p: map<nat, Command>, z: Side, c: Command, n: nat, ok: bool)
    requires Reaches(y0, Pair(who, Resting(m, p[n := c]), z, [], [Resp(c, n, ok)])) && n !in p
    ensures Reaches(y0, Pair(who, Resting(CompleteOutbound(m, c, ok), p), z, [], []))
  {
    DeliverReach(y0, who, Resting(m, p[n := c]), z, [], [Resp(c, n, ok)]);
    TakesAnswer(m, p, c, n, ok);
    LocalReach(y0, who, Resting(m, p).(rx := Completing(c, ok)), z, [], [], FinishComplete,
               Resting(CompleteOutbound(m, c, ok), p));
  }

  lemma ReachNothing(y: Sys)
    ensures Reaches(y, y)
  {
    assert IsRun(y, []) && RunTo(y, []) == y;
  }

  lemma Exchange(who: Role, m: Machine, p: map<nat, Command>, w: Machine, k: map<nat, Command>, c: Command, n: nat,
                 ok: bool)
    requires AcceptsOutbound(m, c) && AcceptsInbound(w, c) && !IsOneWay(c) && n !in p && (c.Unbind? ==> ok)
    ensures Reaches(Pair(who, Resting(m, p), Resting(w, k), [], []),
                    Pair(who, Resting(CompleteOutbound(BeginOutbound(m, c), c, ok), p),
                         Resting(CompleteInbound(BeginInbound(w, c), c, ok), k), [], []))
  {
    var x, z := Resting(m, p), Resting(w, k);
    var y0 := Pair(who, x, z, [], []);
    ReachNothing(y0);
    Ask(y0, who, m, p, z, c, n);
    var asked := Resting(BeginOutbound(m, c), p[n := c]);
    Turned(who, asked, z, [Req(c, n)], []);
    Answer(y0, who.Peer(), w, k, asked, c, n, ok);
    var answered := Resting(CompleteInbound(BeginInbound(w, c), c, ok), k);
    Turned(who.Peer(), answered, asked, [Resp(c, n, ok)], []);
    Complete(y0, who, BeginOutbound(m, c), p, answered, c, n, ok);
  }

  // ----- What it leaves -----

  /** The bound state that a bind asks for. */
  function ModeOf(c: Command): (s: State)
    requires IsBind(c)
  {
    if c.BindTransmitter? then BoundTX else if c.BindReceiver? then BoundRX else BoundTRX
  }

  /** Whenever both sides are quiet and neither has a bind under way, a bind that the ESME may
      issue can be exchanged: granted, it leaves both sides bound in its mode; refused, it
      leaves both as they were. */
  lemma BindIsExchanged(m: Machine, p: map<nat, Command>, w: Machine, k: map<nat, Command>, c: Command, n: nat,
                        ok: bool)
    requires m.role.ESME? && w.role.SMSC? && m.localBind.None? && w.peerBind.None? && n !in p
    requires m.state == w.state && IsBind(c) && (m.state.Open? || (m.state.Outbound? && c.BindReceiver?))
    ensures var s := if ok then ModeOf(c) else m.state;
            Reaches(Sys(Resting(m, p), Resting(w, k), [], []),
                    Sys(Resting(m.(state := s), p), Resting(w.(state := s), k), [], []))
  {
    Exchange(ESME, m, p, w, k, c, n, ok);
  }

  /** Whichever side unbinds, both are closed afterwards. */
  lemma UnbindIsExchanged(who: Role, m: Machine, p: map<nat, Command>, w: Machine, k: map<nat, Command>, n: nat)
    requires m.role == who && w.role == who.Peer() && IsBound(m.state) && IsBound(w.state) && n !in p
    ensures Reaches(Pair(who, Resting(m, p), Resting(w, k), [], []),
                    Pair(who, Resting(m.(state := Closed, localUnbindFrom := Closed), p),
                         Resting(w.(state := Closed, peerUnbindFrom := Closed), k), [], []))
  {
    Exchange(who, m, p, w, k, Unbind, n, true);
  }

  /** Every other request that may be issued reaches the peer, can be answered either way,
      and the answer completes it; neither side's machine notices. */
  lemma OperationIsExchanged(who: Role, m: Machine, p: map<nat, Command>, w: Machine, k: map<nat, Command>, c: Command,
                             n: nat, ok: bool)
    requires m.role == who && w.role == who.Peer() && m.state == w.state && n !in p
    requires CanIssue(m.state, who, c) && ResponseTo(c).Some? && !IsBind(c) && !c.Unbind?
    ensures var y := Pair(who, Resting(m, p), Resting(w, k), [], []);
            var asked := Pair(who, Resting(m, p[n := c]), Resting(w, k), [Req(c, n)], []);
            var answered := Pair(who, Resting(m, p[n := c]), Resting(w, k), [], [Resp(c, n, ok)]);
            Reaches(y, asked) && Reaches(asked, answered) && Reaches(answered, y)
  {
    var x, z := Resting(m, p), Resting(w, k);
    var listed := Resting(m, p[n := c]);
    var y := Pair(who, x, z, [], []);
    ReachNothing(y);
    Ask(y, who, m, p, z, c, n);
    var asked := Pair(who, listed, z, [Req(c, n)], []);
    ReachNothing(asked);
    Turned(who, listed, z, [Req(c, n)], []);
    Answer(asked, who.Peer(), w, k, listed, c, n, ok);
    Turned(who.Peer(), z, listed, [Resp(c, n, ok)], []);
    var answered := Pair(who, listed, z, [], [Resp(c, n, ok)]);
    ReachNothing(answered);
    Complete(answered, who, m, p, z, c, n, ok);
  }

  /** No bind or unbind of the peer is under way. */
  predicate Unengaged(w: Machine) { w.peerBind.None? && !w.state.Unbound? }

  /** Committing the refusal of a request that was not accepted changes nothing, as no other
      request of the peer is under way. */
  lemma UnacceptedIsNotCommitted(w: Machine, c: Command)
    requires !AcceptsInbound(w, c) && Unengaged(w)
    ensures CompleteInbound(w, c, false) == w
  {
  }

  lemma RefusalUndoesBegin(m: Machine, c: Command)
    requires Inv(m) && AcceptsOutbound(m, c) && !IsOneWay(c)
    ensures CompleteOutbound(BeginOutbound(m, c), c, false) == m
  {
  }

  lemma Refuse(y0: Sys, who: Role, w: Machine, k: map<nat, Command>, z: Side, c: Command, n: nat)
    requires Reaches(y0, Pair(who, Resting(w, k), z, [], [Req(c, n)]))
    requires !AcceptsInbound(w, c) && Unengaged(w) && !IsOneWay(c)
    ensures Reaches(y0, Pair(who, Resting(w, k), z, [Resp(c, n, false)], []))
  {
    var x := Resting(w, k);
    DeliverReach(y0, who, x, z, [], [Req(c, n)]);
    LocalReach(y0, who, x.(rx := Replying(c, n, false)), z, [], [], Reply(false), x.(txq := [Response(c, n, false)]));
    Transmit(y0, who, w, k, Idle, Response(c, n, false), z, []);
    UnacceptedIsNotCommitted(w, c);
  }

  /** A request that the peer does not accept is refused by it, a bind included; afterwards
      both machines are as they were. */
  lemma RefusedIsAnswered(who: Role, m: Machine, p: map<nat, Command>, w: Machine, k: map<nat, Command>, c: Command,
                          n: nat)
    requires Inv(m) && AcceptsOutbound(m, c) && !AcceptsInbound(w, c) && Unengaged(w) && !IsOneWay(c) && n !in p
    ensures var y := Pair(who, Resting(m, p), Resting(w, k), [], []);
            var asked := Pair(who, Resting(BeginOutbound(m, c), p[n := c]), Resting(w, k), [Req(c, n)], []);
            var refused := Pair(who, Resting(BeginOutbound(m, c), p[n := c]), Resting(w, k), [], [Resp(c, n, false)]);
            Reaches(y, asked) && Reaches(asked, refused) && Reaches(refused, y)
  {
    var x, z := Resting(m, p), Resting(w, k);
    var listed := Resting(BeginOutbound(m, c), p[n := c]);
    var y, asked := Pair(who, x, z, [], []), Pair(who, listed, z, [Req(c, n)], []);
    var refused := Pair(who, listed, z, [], [Resp(c, n, false)]);
    ReachNothing(y);
    ReachNothing(asked);
    ReachNothing(refused);
    Ask(y, who, m, p, z, c, n);
    Turned(who, listed, z, [Req(c, n)], []);
    Refuse(asked, who.Peer(), w, k, listed, c, n);
    Turned(who.Peer(), z, listed, [Resp(c, n, false)], []);
    Complete(refused, who, listed.m, p, z, c, n, false);
    RefusalUndoesBegin(m, c);
  }

  /** A generic_nack completes the pending request with its number as refused. */
  lemma NackCompletes(who: Role, m: Machine, p: map<nat, Command>, z: Side, c: Command, n: nat)
    requires n !in p
    ensures Reaches(Pair(who, Resting(m, p[n := c]), z, [], [Nack(n)]),
                    Pair(who, Resting(CompleteOutbound(m, c, false), p), z, [], []))
  {
    var y0 := Pair(who, Resting(m, p[n := c]), z, [], [Nack(n)]);
    ReachNothing(y0);
    DeliverReach(y0, who, Resting(m, p[n := c]), z, [], [Nack(n)]);
    assert p[n := c] - {n} == p;
    LocalReach(y0, who, Resting(m, p).(rx := Completing(c, false)), z, [], [], FinishComplete,
               Resting(CompleteOutbound(m, c, false), p));
  }

  /** A request that times out or is cancelled while it waits leaves its side as before it
      was begun. */
  lemma WithdrawnIsUndone(who: Role, m: Machine, p: map<nat, Command>, z: Side, c: Command, n: nat, out: seq<Msg>,
                          back: seq<Msg>)
    requires Inv(m) && AcceptsOutbound(m, c) && n !in p
    ensures Reaches(Pair(who, Resting(BeginOutbound(m, c), p[n := c]), z, out, back),
                    Pair(who, Resting(m, p), z, out, back))
  {
    var x := Resting(BeginOutbound(m, c), p);
    var y0 := Pair(who, x.(pending := p[n := c]), z, out, back);
    ReachNothing(y0);
    assert p[n := c] - {n} == p;
    LocalReach(y0, who, x.(pending := p[n := c]), z, out, back, Withdraw(n), x.(cancelling := multiset{c}));
    CancelUndoesBegin(m, c);
    LocalReach(y0, who, x.(cancelling := multiset{c}), z, out, back, FinishCancel(c), Resting(m, p));
  }

  /** A request that was accepted but whose answer cannot be queued leaves its side as before
      it came. */
  lemma UnansweredIsUndone(who: Role, w: Machine, k: map<nat, Command>, z: Side, c: Command, n: nat)
    requires Inv(w) && AcceptsInbound(w, c) && !c.Outbind?
    ensures Reaches(Pair(who, Resting(w, k), z, [], [Req(c, n)]), Pair(who, Resting(w, k), z, [], []))
  {
    var y0 := Pair(who, Resting(w, k), z, [], [Req(c, n)]);
    ReachNothing(y0);
    DeliverReach(y0, who, Resting(w, k), z, [], [Req(c, n)]);
    CancelUndoesBegin(w, c);
    LocalReach(y0, who, Resting(BeginInbound(w, c), k).(rx := Replying(c, n, true)), z, [], [], ReplyFails,
               Resting(w, k));
  }

  /** An outbind takes both sides to Outbound, from where BindIsExchanged takes a
      bind_receiver on. */
  lemma OutbindIsExchanged(m: Machine, p: map<nat, Command>, w: Machine, k: map<nat, Command>, n: nat)
    requires m.role.ESME? && w.role.SMSC? && m.state.Open? && w.state.Open?
    ensures Reaches(Sys(Resting(m, p), Resting(w, k), [], []),
                    Sys(Resting(m.(state := Outbound), p), Resting(w.(state := Outbound), k), [], []))
  {
    var x, z, i := Resting(m, p), Resting(w.(state := Outbound), k), OneWay(Outbind, n);
    var y0 := Pair(SMSC, Resting(w, k), x, [], []);
    ReachNothing(y0);
    LocalReach(y0, SMSC, Resting(w, k), x, [], [], Begin(Outbind), z.(reserving := multiset{Outbind}));
    LocalReach(y0, SMSC, z.(reserving := multiset{Outbind}), x, [], [], EnqueueOneWay(Outbind, n), z.(txq := [i]));
    Transmit(y0, SMSC, z.m, k, Idle, i, x, []);
    Turned(SMSC, z, x, [Req(Outbind, n)], []);
    DeliverReach(y0, ESME, x, z, [], [Req(Outbind, n)]);
    var taken := Resting(m.(state := Outbound), p);
    LocalReach(y0, ESME, taken.(rx := Replying(Outbind, n, true)), z, [], [], Reply(true), taken);
  }
}
