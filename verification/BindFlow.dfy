/** Bind agreement of an ESME and an SMSC: what the answers in flight to the ESME must
    satisfy, and that every step but one kind keeps it. */
module BindFlow {
  import opened Bytes
  import opened Lifecycle
  import opened TwoParty

  type Pending = map<nat, Command>

  // ----- What the ESME's table is after the messages in flight have arrived -----

  predicate Held(p: Pending, c: Command, n: nat) { n in p && p[n] == c }

  /** What receiving a message does to the table. */
  function After(p: Pending, w: Msg): (r: Pending)
  {
    match w
    case Resp(c, n, _) => if Held(p, c, n) then p - {n} else p
    case Nack(n) => if n in p then p - {n} else p
    case Req(_, _) => p
  }

  function AfterAll(p: Pending, q: seq<Msg>): (r: Pending)
    decreases |q|
  {
    if q == [] then p else AfterAll(After(p, q[0]), q[1..])
  }

  predicate IsGrant(w: Msg) { w.Resp? && w.ok && IsBind(w.c) }

  /** The ESME would accept the grant. With `all` set every grant counts, whatever the
      table says. */
  predicate Live(all: bool, p: Pending, w: Msg) { IsGrant(w) && (all || Held(p, w.c, w.seqno)) }

  function LiveHere(all: bool, p: Pending, w: Msg): (r: set<Command>)
  {
    if Live(all, p, w) then {w.c} else {}
  }

  /** The bind commands of the grants among q that the ESME would accept, each with the
      table as it is once everything before it has arrived. */
  function LiveGrants(all: bool, p: Pending, q: seq<Msg>): (r: set<Command>)
    decreases |q|
  {
    if q == [] then {} else LiveHere(all, p, q[0]) + LiveGrants(all, After(p, q[0]), q[1..])
  }

  lemma {:induction false} LiveAppend(all: bool, p: Pending, q: seq<Msg>, w: Msg)
    ensures AfterAll(p, q + [w]) == After(AfterAll(p, q), w)
    ensures LiveGrants(all, p, q + [w]) == LiveGrants(all, p, q) + LiveHere(all, AfterAll(p, q), w)
    decreases |q|
  {
    if q == [] {
      assert (q + [w])[1..] == [];
      assert LiveGrants(all, After(p, w), []) == {};
    } else {
      assert (q + [w])[0] == q[0] && (q + [w])[1..] == q[1..] + [w];
      LiveAppend(all, After(p, q[0]), q[1..], w);
    }
  }

  /** A request in flight settles nothing. */
  lemma {:induction false} LiveDrop(all: bool, p: Pending, a: seq<Msg>, w: Msg, b: seq<Msg>)
    requires w.Req?
    ensures AfterAll(p, a + [w] + b) == AfterAll(p, a + b)
    ensures LiveGrants(all, p, a + [w] + b) == LiveGrants(all, p, a + b)
    decreases |a|
  {
    if a == [] {
      assert (a + [w] + b)[1..] == b && a + b == b;
    } else {
      assert (a + [w] + b)[0] == a[0] && (a + [w] + b)[1..] == a[1..] + [w] + b;
      assert (a + b)[0] == a[0] && (a + b)[1..] == a[1..] + b;
      LiveDrop(all, After(p, a[0]), a[1..], w, b);
    }
  }

  predicate Within(r: Pending, p: Pending) { forall n | n in r :: Held(p, r[n], n) }

  /** Giving up requests only makes fewer grants live. */
  lemma {:induction false} LiveShrink(all: bool, r: Pending, p: Pending, q: seq<Msg>)
    requires Within(r, p)
    ensures Within(AfterAll(r, q), AfterAll(p, q))
    ensures LiveGrants(all, r, q) <= LiveGrants(all, p, q)
    decreases |q|
  {
    if q == [] {
    } else {
      LiveShrink(all, After(r, q[0]), After(p, q[0]), q[1..]);
    }
  }

  ghost predicate SameBut(r: Pending, p: Pending, n: nat)
  {
    forall k | k != n :: (k in r <==> k in p) && (k in r ==> r[k] == p[k])
  }

  predicate Unanswered(q: seq<Msg>, n: nat) { forall i | 0 <= i < |q| && q[i].Resp? :: q[i].seqno != n }

  /** A number that no answer in flight carries makes no difference to them. */
  lemma {:induction false} LiveInsert(all: bool, r: Pending, p: Pending, n: nat, q: seq<Msg>)
    requires SameBut(r, p, n) && Unanswered(q, n)
    ensures SameBut(AfterAll(r, q), AfterAll(p, q), n)
    ensures LiveGrants(all, r, q) == LiveGrants(all, p, q)
    decreases |q|
  {
    if q == [] {
    } else {
      assert q[0].Resp? ==> q[0].seqno != n;
      LiveInsert(all, After(r, q[0]), After(p, q[0]), n, q[1..]);
    }
  }

  // ----- What the answers still queued will do to the SMSC -----

  predicate Answers(w: Msg, c: Command) { w.Resp? && w.c == c }

  /** Whether the first queued answer to command c is a success. */
  function FirstAnswer(q: seq<Msg>, c: Command): (r: Option<bool>)
    decreases |q|
  {
    if q == [] then None else if Answers(q[0], c) then Some(q[0].ok) else FirstAnswer(q[1..], c)
  }

  predicate FirstIsGrant(q: seq<Msg>, c: Command) { FirstAnswer(q, c).Some? && FirstAnswer(q, c).value }

  predicate FirstIsRefusal(q: seq<Msg>, c: Command) { FirstAnswer(q, c).Some? && !FirstAnswer(q, c).value }

  lemma {:induction false} FirstAnswerAppend(q: seq<Msg>, w: Msg, c: Command)
    ensures FirstAnswer(q + [w], c) ==
            if FirstAnswer(q, c).Some? then FirstAnswer(q, c) else if Answers(w, c) then Some(w.ok) else None
    decreases |q|
  {
    if q == [] {
      assert (q + [w])[1..] == [];
    } else {
      assert (q + [w])[0] == q[0] && (q + [w])[1..] == q[1..] + [w];
      FirstAnswerAppend(q[1..], w, c);
    }
  }

  lemma {:induction false} FirstAnswerDrop(a: seq<Msg>, w: Msg, b: seq<Msg>, c: Command)
    requires w.Req?
    ensures FirstAnswer(a + [w] + b, c) == FirstAnswer(a + b, c)
    decreases |a|
  {
    if a == [] {
      assert (a + [w] + b)[1..] == b && a + b == b;
    } else {
      assert (a + [w] + b)[0] == a[0] && (a + [w] + b)[1..] == a[1..] + [w] + b;
      assert (a + b)[0] == a[0] && (a + b)[1..] == a[1..] + b;
      FirstAnswerDrop(a[1..], w, b, c);
    }
  }

  function CommitMsg(m: Machine, w: Msg): (n: Machine)
  {
    if w.Resp? then CompleteInbound(m, w.c, w.ok) else m
  }

  /** The machine after the lifecycle commits of a queue, in order. */
  function CommitAll(m: Machine, q: seq<Msg>): (n: Machine)
    decreases |q|
  {
    if q == [] then m else CommitAll(CommitMsg(m, q[0]), q[1..])
  }

  lemma {:induction false} CommitAllWithoutReservation(m: Machine, q: seq<Msg>)
    requires IsConnected(m.state) && m.peerBind.None?
    ensures CommitAll(m, q) == m
    decreases |q|
  {
    if q == [] {
    } else {
      CommitAllWithoutReservation(m, q[1..]);
    }
  }

  lemma {:induction false} CommitAllBound(m: Machine, q: seq<Msg>)
    requires IsBound(m.state) && m.peerBind.None?
    ensures CommitAll(m, q) == m
    decreases |q|
  {
    if q == [] {
    } else {
      CommitAllBound(m, q[1..]);
    }
  }

  /** Whatever is queued in front of it, the bind that holds the reservation is settled
      by the first queued answer to its command: the SMSC ends bound if and only if that
      answer is a success. Every other answer to that command, grant or refusal, goes
      out without effect. */
  lemma {:induction false} FirstAnswerDecides(m: Machine, c: Command, q: seq<Msg>)
    requires IsBind(c) && IsConnected(m.state) && m.peerBind == Some(c)
    ensures CommitAll(m, q) ==
            match FirstAnswer(q, c)
            case None => m
            case Some(ok) => m.(peerBind := None, state := if ok then BoundState(c) else m.state)
    decreases |q|
  {
    if q == [] {
    } else if Answers(q[0], c) {
      if q[0].ok {
        CommitAllBound(CommitMsg(m, q[0]), q[1..]);
      } else {
        CommitAllWithoutReservation(CommitMsg(m, q[0]), q[1..]);
      }
    } else {
      FirstAnswerDecides(m, c, q[1..]);
    }
  }

  /** A grant of c behind the queue q finds the SMSC bound in its mode, or binds it. */
  predicate Binds(m: Machine, q: seq<Msg>, c: Command)
  {
    AgreesWith(m, BoundState(c)) || (m.peerBind == Some(c) && FirstIsGrant(q, c))
  }

  /** The same of a grant that is about to be queued. */
  predicate WouldBind(m: Machine, q: seq<Msg>, c: Command)
  {
    AgreesWith(m, BoundState(c)) || (m.peerBind == Some(c) && !FirstIsRefusal(q, c))
  }

  lemma BindsCommit(m: Machine, q: seq<Msg>, c: Command)
    requires Inv(m) && q != [] && IsBind(c) && Binds(m, q, c)
    ensures Binds(CommitMsg(m, q[0]), q[1..], c)
    ensures Answers(q[0], c) ==> AgreesWith(CommitMsg(m, q[0]), BoundState(c))
  {
    if AgreesWith(m, BoundState(c)) && q[0].Resp? {
      CallGoesForward(m, DoCompleteInbound(q[0].c, q[0].ok));
      AgreesKept(m, CommitMsg(m, q[0]), BoundState(c));
    }
  }

  lemma WouldBindCommit(m: Machine, q: seq<Msg>, c: Command)
    requires Inv(m) && q != [] && IsBind(c) && WouldBind(m, q, c)
    ensures WouldBind(CommitMsg(m, q[0]), q[1..], c)
  {
    if AgreesWith(m, BoundState(c)) && q[0].Resp? {
      CallGoesForward(m, DoCompleteInbound(q[0].c, q[0].ok));
      AgreesKept(m, CommitMsg(m, q[0]), BoundState(c));
    }
  }

  // ----- The invariant on everything in flight to the ESME -----

  /** The SMSC's receive loop has accepted a bind and not answered it yet. */
  predicate Granting(rx: Rx) { rx.Replying? && rx.accepted && IsBind(rx.c) }

  /** p is the ESME's table, wire what is committed and not yet received, q what is
      queued and not yet committed, m and rx the SMSC's. */
  predicate FlowOk(all: bool, p: Pending, wire: seq<Msg>, q: seq<Msg>, m: Machine, rx: Rx)
  {
    && (forall c | c in LiveGrants(all, p, wire) :: IsBind(c) && AgreesWith(m, BoundState(c)))
    && (forall c | c in LiveGrants(all, AfterAll(p, wire), q) :: IsBind(c) && Binds(m, q, c))
    && (Granting(rx) ==>
          && (all || Held(AfterAll(AfterAll(p, wire), q), rx.c, rx.seqno) ==> WouldBind(m, q, rx.c))
          && (m.state.Closed? || LiveGrants(all, AfterAll(p, wire), q) == {}))
  }

  /** A queued item that answers nothing, or answers nothing positively. */
  lemma FlowEnqueue(all: bool, p: Pending, wire: seq<Msg>, q: seq<Msg>, m: Machine, rx: Rx, w: Msg)
    requires FlowOk(all, p, wire, q, m, rx) && !w.Resp?
    ensures FlowOk(all, p, wire, q + [w], m, rx)
  {
    var t := AfterAll(p, wire);
    LiveAppend(all, t, q, w);
    forall c ensures FirstAnswer(q + [w], c) == FirstAnswer(q, c) {
      FirstAnswerAppend(q, w, c);
    }
  }

  lemma FlowRxDone(all: bool, p: Pending, wire: seq<Msg>, q: seq<Msg>, m: Machine, rx: Rx, r: Rx)
    requires FlowOk(all, p, wire, q, m, rx) && !Granting(r)
    ensures FlowOk(all, p, wire, q, m, r)
  {
  }

  lemma FlowReply(all: bool, p: Pending, wire: seq<Msg>, q: seq<Msg>, m: Machine, rx: Rx, ok: bool)
    requires FlowOk(all, p, wire, q, m, rx) && rx.Replying? && (ok ==> rx.accepted)
    ensures FlowOk(all, p, wire, q + [Resp(rx.c, rx.seqno, ok)], m, Idle)
  {
    var t, w := AfterAll(p, wire), Resp(rx.c, rx.seqno, ok);
    LiveAppend(all, t, q, w);
    forall c | c in LiveGrants(all, t, q + [w]) ensures IsBind(c) && Binds(m, q + [w], c) {
      FirstAnswerAppend(q, w, c);
    }
  }

  lemma FlowCommit(all: bool, p: Pending, wire: seq<Msg>, q: seq<Msg>, m: Machine, rx: Rx)
    requires FlowOk(all, p, wire, q, m, rx) && Inv(m) && q != []
    ensures FlowOk(all, p, wire + [q[0]], q[1..], CommitMsg(m, q[0]), rx)
  {
    var t, n := AfterAll(p, wire), CommitMsg(m, q[0]);
    LiveAppend(all, p, wire, q[0]);
    if q[0].Resp? {
      CallGoesForward(m, DoCompleteInbound(q[0].c, q[0].ok));
    }
    forall c | c in LiveGrants(all, p, wire + [q[0]]) ensures IsBind(c) && AgreesWith(n, BoundState(c)) {
      if c in LiveGrants(all, p, wire) {
        AgreesKept(m, n, BoundState(c));
      } else {
        BindsCommit(m, q, c);
      }
    }
    forall c | c in LiveGrants(all, After(t, q[0]), q[1..]) ensures IsBind(c) && Binds(n, q[1..], c) {
      BindsCommit(m, q, c);
    }
    if Granting(rx) && (all || Held(AfterAll(t, q), rx.c, rx.seqno)) {
      WouldBindCommit(m, q, rx.c);
    }
  }

  /** The machine moved, and the peer's bind reservation stayed. */
  lemma FlowMachine(all: bool, p: Pending, wire: seq<Msg>, q: seq<Msg>, m: Machine, n: Machine, rx: Rx)
    requires FlowOk(all, p, wire, q, m, rx) && Forward(m, n)
    requires m.peerBind.Some? ==> n.peerBind == m.peerBind || n.state.Closed?
    ensures FlowOk(all, p, wire, q, n, rx)
  {
    forall c | AgreesWith(m, BoundState(c)) ensures AgreesWith(n, BoundState(c)) {
      AgreesKept(m, n, BoundState(c));
    }
  }

  /** An accepted bind whose answer cannot be made gives its reservation back. */
  lemma FlowReplyFails(all: bool, p: Pending, wire: seq<Msg>, q: seq<Msg>, m: Machine, n: Machine, rx: Rx)
    requires FlowOk(all, p, wire, q, m, rx) && Forward(m, n) && Granting(rx)
    ensures FlowOk(all, p, wire, q, n, Idle)
  {
    forall c | AgreesWith(m, BoundState(c)) ensures AgreesWith(n, BoundState(c)) {
      AgreesKept(m, n, BoundState(c));
    }
    assert m.state.Closed? ==> n.state.Closed?;
  }

  /** A request whose entry is gone is not dequeued. */
  lemma FlowDrop(all: bool, p: Pending, wire: seq<Msg>, a: seq<Msg>, w: Msg, b: seq<Msg>, m: Machine, rx: Rx)
    requires FlowOk(all, p, wire, a + [w] + b, m, rx) && w.Req?
    ensures FlowOk(all, p, wire, a + b, m, rx)
  {
    LiveDrop(all, AfterAll(p, wire), a, w, b);
    forall c ensures FirstAnswer(a + [w] + b, c) == FirstAnswer(a + b, c) {
      FirstAnswerDrop(a, w, b, c);
    }
  }

  lemma FlowShrink(all: bool, r: Pending, p: Pending, wire: seq<Msg>, q: seq<Msg>, m: Machine, rx: Rx)
    requires FlowOk(all, p, wire, q, m, rx) && Within(r, p)
    ensures FlowOk(all, r, wire, q, m, rx)
  {
    LiveShrink(all, r, p, wire);
    LiveShrink(all, AfterAll(r, wire), AfterAll(p, wire), q);
  }

  lemma FlowInsert(all: bool, p: Pending, wire: seq<Msg>, q: seq<Msg>, m: Machine, rx: Rx, c: Command, n: nat)
    requires FlowOk(all, p, wire, q, m, rx)
    requires all || (Unanswered(wire, n) && Unanswered(q, n) && (Granting(rx) ==> rx.seqno != n))
    ensures FlowOk(all, p[n := c], wire, q, m, rx)
  {
    if all {
      LiveGrantsAll(p[n := c], p, wire);
      LiveGrantsAll(AfterAll(p[n := c], wire), AfterAll(p, wire), q);
    } else {
      LiveInsert(all, p[n := c], p, n, wire);
      LiveInsert(all, AfterAll(p[n := c], wire), AfterAll(p, wire), n, q);
    }
  }

  lemma {:induction false} LiveGrantsAll(r: Pending, p: Pending, q: seq<Msg>)
    ensures LiveGrants(true, r, q) == LiveGrants(true, p, q)
    decreases |q|
  {
    if q == [] {
    } else {
      LiveGrantsAll(After(r, q[0]), After(p, q[0]), q[1..]);
    }
  }

  /** The ESME receives the first message. */
  lemma FlowReceive(all: bool, p: Pending, wire: seq<Msg>, q: seq<Msg>, m: Machine, rx: Rx)
    requires FlowOk(all, p, wire, q, m, rx) && wire != []
    ensures FlowOk(all, After(p, wire[0]), wire[1..], q, m, rx)
    ensures Live(all, p, wire[0]) ==> AgreesWith(m, BoundState(wire[0].c))
  {
    assert Live(all, p, wire[0]) ==> wire[0].c in LiveGrants(all, p, wire);
  }

  lemma NoLiveGrantQueued(all: bool, p: Pending, wire: seq<Msg>, q: seq<Msg>, m: Machine, rx: Rx)
    requires FlowOk(all, p, wire, q, m, rx) && IsConnected(m.state) && m.peerBind.None?
    ensures LiveGrants(all, AfterAll(p, wire), q) == {}
  {
    assert forall c :: !Binds(m, q, c);
  }

  /** The SMSC accepts or refuses a request: harmless unless it is a bind that is
      accepted while a refusal of the same command is the first answer in the queue. */
  lemma FlowAccept(all: bool, p: Pending, wire: seq<Msg>, q: seq<Msg>, m: Machine, c: Command, n: nat)
    requires FlowOk(all, p, wire, q, m, Idle) && Inv(m)
    requires IsBind(c) && AcceptsInbound(m, c) && (all || Held(AfterAll(AfterAll(p, wire), q), c, n)) ==>
               !FirstIsRefusal(q, c)
    ensures FlowOk(all, p, wire, q, BeginInbound(m, c), Replying(c, n, AcceptsInbound(m, c)))
  {
    CallGoesForward(m, DoBeginInbound(c));
    FlowMachine(all, p, wire, q, m, BeginInbound(m, c), Idle);
    if IsBind(c) && AcceptsInbound(m, c) {
      NoLiveGrantQueued(all, p, wire, q, m, Idle);
    }
  }
}
