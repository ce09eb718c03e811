/** The session state machine (session/state.go, session/state_cancel.go): who may
    issue what in which state, and the reservations of bind and unbind. */
module Lifecycle {
  import opened Bytes

  datatype Role = ESME | SMSC {
    function Peer(): (r: Role) { if ESME? then SMSC else ESME }
  }

  datatype State = Closed | Open | Outbound | BoundTX | BoundRX | BoundTRX | Unbound

  datatype Command =
    | GenericNack
    | BindTransmitter | BindReceiver | BindTransceiver
    | BindTransmitterResp | BindReceiverResp | BindTransceiverResp
    | Outbind | Unbind | UnbindResp | EnquireLink | EnquireLinkResp
    | SubmitSM | SubmitMulti | QuerySM | CancelSM | ReplaceSM | BroadcastSM | QueryBroadcastSM | CancelBroadcastSM
    | SubmitSMResp | SubmitMultiResp | QuerySMResp | CancelSMResp | ReplaceSMResp
    | BroadcastSMResp | QueryBroadcastSMResp | CancelBroadcastSMResp
    | DeliverSM | DeliverSMResp | DataSM | DataSMResp | AlertNotification
    | Unknown(id: int)

  predicate IsBound(s: State) { s.BoundTX? || s.BoundRX? || s.BoundTRX? }

  predicate IsConnected(s: State) { s.Open? || s.Outbound? }

  predicate IsBind(c: Command) { c.BindTransmitter? || c.BindReceiver? || c.BindTransceiver? }

  function BoundState(c: Command): (s: State)
  {
    match c
    case BindTransmitter => BoundTX
    case BindReceiver => BoundRX
    case BindTransceiver => BoundTRX
    case _ => Open
  }

  datatype Rule = Rule(actor: Option<Role>, states: set<State>)

  const OPEN_ONLY := {Open}
  const OPEN_OR_OUTBOUND := {Open, Outbound}
  const BOUND := {BoundTX, BoundRX, BoundTRX}
  const BOUND_OR_UNBOUND := {BoundTX, BoundRX, BoundTRX, Unbound}
  const BOUND_TX_OR_TRX := {BoundTX, BoundTRX}
  const BOUND_RX_OR_TRX := {BoundRX, BoundTRX}
  const BOUND_TX_ONLY := {BoundTX}

  /** The operation matrix of SMPP 3.4 section 2.3; generic_nack is not in it. */
  function RuleFor(c: Command): (r: Option<Rule>)
  {
    match c
    case BindTransmitter => Some(Rule(Some(ESME), OPEN_ONLY))
    case BindTransceiver => Some(Rule(Some(ESME), OPEN_ONLY))
    case BindReceiver => Some(Rule(Some(ESME), OPEN_OR_OUTBOUND))
    case BindTransmitterResp => Some(Rule(Some(SMSC), OPEN_ONLY))
    case BindTransceiverResp => Some(Rule(Some(SMSC), OPEN_ONLY))
    case BindReceiverResp => Some(Rule(Some(SMSC), OPEN_OR_OUTBOUND))
    case Outbind => Some(Rule(Some(SMSC), OPEN_ONLY))
    case Unbind => Some(Rule(None, BOUND))
    case UnbindResp => Some(Rule(None, BOUND_OR_UNBOUND))
    case EnquireLink => Some(Rule(None, BOUND))
    case EnquireLinkResp => Some(Rule(None, BOUND))
    case SubmitSM => Some(Rule(Some(ESME), BOUND_TX_OR_TRX))
    case SubmitMulti => Some(Rule(Some(ESME), BOUND_TX_OR_TRX))
    case QuerySM => Some(Rule(Some(ESME), BOUND_TX_OR_TRX))
    case CancelSM => Some(Rule(Some(ESME), BOUND_TX_OR_TRX))
    case BroadcastSM => Some(Rule(Some(ESME), BOUND_TX_OR_TRX))
    case QueryBroadcastSM => Some(Rule(Some(ESME), BOUND_TX_OR_TRX))
    case CancelBroadcastSM => Some(Rule(Some(ESME), BOUND_TX_OR_TRX))
    case ReplaceSM => Some(Rule(Some(ESME), BOUND_TX_ONLY))
    case SubmitSMResp => Some(Rule(Some(SMSC), BOUND_TX_OR_TRX))
    case SubmitMultiResp => Some(Rule(Some(SMSC), BOUND_TX_OR_TRX))
    case QuerySMResp => Some(Rule(Some(SMSC), BOUND_TX_OR_TRX))
    case CancelSMResp => Some(Rule(Some(SMSC), BOUND_TX_OR_TRX))
    case BroadcastSMResp => Some(Rule(Some(SMSC), BOUND_TX_OR_TRX))
    case QueryBroadcastSMResp => Some(Rule(Some(SMSC), BOUND_TX_OR_TRX))
    case CancelBroadcastSMResp => Some(Rule(Some(SMSC), BOUND_TX_OR_TRX))
    case ReplaceSMResp => Some(Rule(Some(SMSC), BOUND_TX_ONLY))
    case DeliverSM => Some(Rule(Some(SMSC), BOUND_RX_OR_TRX))
    case DeliverSMResp => Some(Rule(Some(ESME), BOUND_RX_OR_TRX))
    case DataSM => Some(Rule(None, BOUND))
    case DataSMResp => Some(Rule(None, BOUND))
    case AlertNotification => Some(Rule(Some(SMSC), BOUND_RX_OR_TRX))
    case GenericNack => None
    case Unknown(_) => None
  }

  predicate Allows(rule: Rule, s: State, role: Role)
  {
    (rule.actor.None? || rule.actor.value == role) && s in rule.states
  }

  predicate CanIssue(s: State, role: Role, c: Command)
  {
    !s.Closed? && (c.GenericNack? || (RuleFor(c).Some? && Allows(RuleFor(c).value, s, role)))
  }

  /** The response that answers a request. */
  function ResponseTo(c: Command): (r: Option<Command>)
  {
    match c
    case BindTransmitter => Some(BindTransmitterResp)
    case BindReceiver => Some(BindReceiverResp)
    case BindTransceiver => Some(BindTransceiverResp)
    case Unbind => Some(UnbindResp)
    case EnquireLink => Some(EnquireLinkResp)
    case SubmitSM => Some(SubmitSMResp)
    case SubmitMulti => Some(SubmitMultiResp)
    case QuerySM => Some(QuerySMResp)
    case CancelSM => Some(CancelSMResp)
    case ReplaceSM => Some(ReplaceSMResp)
    case BroadcastSM => Some(BroadcastSMResp)
    case QueryBroadcastSM => Some(QueryBroadcastSMResp)
    case CancelBroadcastSM => Some(CancelBroadcastSMResp)
    case DeliverSM => Some(DeliverSMResp)
    case DataSM => Some(DataSMResp)
    case _ => None
  }

  lemma ResponseRule(c: Command)
    requires ResponseTo(c).Some?
    ensures RuleFor(c).Some? && RuleFor(ResponseTo(c).value).Some?
    ensures var q, r := RuleFor(c).value, RuleFor(ResponseTo(c).value).value;
            && (q.actor.None? ==> r.actor.None?)
            && (q.actor.Some? ==> r.actor == Some(q.actor.value.Peer()))
            && r.states == if c.Unbind? then q.states + {Unbound} else q.states
  {
  }

  /** The matrix is closed under answering: whoever may issue a request in a state,
      the other side may issue its response in that state. Only unbind_resp may
      also be issued where its request may not: while unbinding. */
  lemma EveryRequestCanBeAnswered(s: State, role: Role, c: Command)
    requires ResponseTo(c).Some?
    ensures CanIssue(s, role.Peer(), ResponseTo(c).value) <==> CanIssue(s, role, c) || (c.Unbind? && s.Unbound?)
  {
    ResponseRule(c);
    ResponseIsOrdinary(c);
  }

  lemma ResponseIsOrdinary(c: Command)
    requires ResponseTo(c).Some?
    ensures !c.GenericNack? && !ResponseTo(c).value.GenericNack?
    ensures Closed !in RuleFor(c).value.states
  {
  }

  /** Requests that have no response. */
  predicate IsOneWay(c: Command) { c.Outbind? || c.AlertNotification? }

  /** The machine as a value: its state and its four reservation fields. */
  datatype Machine = Machine(
    role: Role,
    state: State,
    localBind: Option<Command>,
    peerBind: Option<Command>,
    localUnbindFrom: State,
    peerUnbindFrom: State)

  function Opened(role: Role): (m: Machine)
  {
    Machine(role, Open, None, None, Closed, Closed)
  }

  predicate AcceptsOutbound(m: Machine, c: Command)
  {
    CanIssue(m.state, m.role, c) && (IsBind(c) ==> m.localBind.None?)
  }

  /** BeginOutbound: unchanged when refused. */
  function BeginOutbound(m: Machine, c: Command): (n: Machine)
  {
    if !AcceptsOutbound(m, c) then m
    else if IsBind(c) then m.(localBind := Some(c))
    else if c.Unbind? then m.(localUnbindFrom := m.state, state := Unbound)
    else if c.Outbind? then m.(state := Outbound)
    else m
  }

  function CancelOutbound(m: Machine, c: Command): (n: Machine)
  {
    if IsBind(c) then
      if m.localBind == Some(c) then m.(localBind := None) else m
    else if c.Unbind? then
      if m.state.Unbound? && !m.localUnbindFrom.Closed?
      then m.(state := m.localUnbindFrom, localUnbindFrom := Closed) else m
    else if c.Outbind? then
      if m.state.Outbound? then m.(state := Open) else m
    else m
  }

  function CompleteOutbound(m: Machine, c: Command, ok: bool): (n: Machine)
  {
    if IsBind(c) then
      if m.localBind != Some(c) then m
      else m.(localBind := None, state := if ok then BoundState(c) else m.state)
    else if c.Unbind? && m.state.Unbound? then
      m.(state := if ok then Closed else if !m.localUnbindFrom.Closed? then m.localUnbindFrom else m.state,
         localUnbindFrom := Closed)
    else m
  }

  predicate AcceptsInbound(m: Machine, c: Command)
  {
    CanIssue(m.state, m.role.Peer(), c) && (IsBind(c) ==> m.peerBind.None?)
  }

  function BeginInbound(m: Machine, c: Command): (n: Machine)
  {
    if !AcceptsInbound(m, c) then m
    else if IsBind(c) then m.(peerBind := Some(c))
    else if c.Unbind? then m.(peerUnbindFrom := m.state, state := Unbound)
    else if c.Outbind? then m.(state := Outbound)
    else m
  }

  function CompleteInbound(m: Machine, c: Command, ok: bool): (n: Machine)
  {
    if IsBind(c) then
      if m.peerBind != Some(c) then m
      else m.(peerBind := None, state := if ok then BoundState(c) else m.state)
    else if c.Unbind? && m.state.Unbound? then
      m.(state := if ok then Closed else if !m.peerUnbindFrom.Closed? then m.peerUnbindFrom else m.state,
         peerUnbindFrom := Closed)
    else m
  }

  function CancelInbound(m: Machine, c: Command): (n: Machine)
  {
    if IsBind(c) then
      if m.peerBind == Some(c) then m.(peerBind := None) else m
    else if c.Unbind? then
      if m.state.Unbound? && !m.peerUnbindFrom.Closed?
      then m.(state := m.peerUnbindFrom, peerUnbindFrom := Closed) else m
    else m
  }

  function Close(m: Machine): (n: Machine)
  {
    Machine(m.role, Closed, None, None, Closed, Closed)
  }

  function MarkOutbound(m: Machine): (n: Machine)
  {
    if m.state.Open? then m.(state := Outbound) else m
  }

  /** Every call that can be made on an opened machine. */
  datatype Op =
    | DoMarkOutbound
    | DoBeginOutbound(c: Command) | DoCancelOutbound(c: Command) | DoCompleteOutbound(c: Command, ok: bool)
    | DoBeginInbound(c: Command) | DoCancelInbound(c: Command) | DoCompleteInbound(c: Command, ok: bool)
    | DoClose

  function Apply(m: Machine, op: Op): (n: Machine)
  {
    match op
    case DoMarkOutbound => MarkOutbound(m)
    case DoBeginOutbound(c) => BeginOutbound(m, c)
    case DoCancelOutbound(c) => CancelOutbound(m, c)
    case DoCompleteOutbound(c, ok) => CompleteOutbound(m, c, ok)
    case DoBeginInbound(c) => BeginInbound(m, c)
    case DoCancelInbound(c) => CancelInbound(m, c)
    case DoCompleteInbound(c, ok) => CompleteInbound(m, c, ok)
    case DoClose => Close(m)
  }

  function Run(m: Machine, ops: seq<Op>): (n: Machine)
    decreases |ops|
  {
    if ops == [] then m else Run(Apply(m, ops[0]), ops[1..])
  }

  predicate Reservation(s: State) { s.Closed? || IsBound(s) }

  /** What every call keeps. */
  predicate Inv(m: Machine)
  {
    && (m.localBind.Some? ==> m.role.ESME? && IsBind(m.localBind.value) && IsConnected(m.state))
    && (m.peerBind.Some? ==> m.role.SMSC? && IsBind(m.peerBind.value) && IsConnected(m.state))
    && Reservation(m.localUnbindFrom) && Reservation(m.peerUnbindFrom)
    && (m.state.Unbound? ==> m.localUnbindFrom.Closed? != m.peerUnbindFrom.Closed?)
    && (IsConnected(m.state) || IsBound(m.state) ==> m.localUnbindFrom.Closed? && m.peerUnbindFrom.Closed?)
  }

  lemma InvStep(m: Machine, op: Op)
    requires Inv(m)
    ensures Inv(Apply(m, op))
  {
  }

  /** The bind mode of a session: kept while it is bound or unbinding. */
  function Mode(m: Machine): (s: State)
  {
    if IsBound(m.state) then m.state
    else if m.state.Unbound? then (if m.localUnbindFrom.Closed? then m.peerUnbindFrom else m.localUnbindFrom)
    else m.state
  }

  function Phase(s: State): (p: nat)
  {
    match s
    case Open => 0
    case Outbound => 0
    case Closed => 2
    case _ => 1
  }

  lemma PhaseStep(m: Machine, op: Op)
    requires Inv(m)
    ensures Phase(m.state) <= Phase(Apply(m, op).state)
    ensures Phase(m.state) == 1 == Phase(Apply(m, op).state) ==> Mode(Apply(m, op)) == Mode(m)
  {
  }

  /** A connected session becomes bound only by a successful answer to the bind that
      holds the reservation: an ESME by receiving it, an SMSC by sending it. */
  lemma BecomesBound(m: Machine, op: Op)
    requires Inv(m) && Phase(m.state) == 0 && Phase(Apply(m, op).state) == 1
    ensures (op.DoCompleteOutbound? && m.role.ESME?) || (op.DoCompleteInbound? && m.role.SMSC?)
    ensures op.ok && IsBind(op.c) && Mode(Apply(m, op)) == BoundState(op.c)
    ensures (if m.role.ESME? then m.localBind else m.peerBind) == Some(op.c)
  {
  }

  /** Over any run of calls, from any reachable machine: the invariant holds, the
      session only moves forward (connected, then bound or unbinding, then closed for
      good), and the bind mode it once took never changes. */
  lemma {:induction false} LifecycleSafety(m: Machine, ops: seq<Op>)
    requires Inv(m)
    ensures Inv(Run(m, ops))
    ensures Phase(m.state) <= Phase(Run(m, ops).state)
    ensures Phase(m.state) == 1 == Phase(Run(m, ops).state) ==> Mode(Run(m, ops)) == Mode(m)
    ensures m.state.Closed? ==> Run(m, ops).state.Closed?
    decreases |ops|
  {
    if ops == [] {
    } else {
      InvStep(m, ops[0]);
      PhaseStep(m, ops[0]);
      LifecycleSafety(Apply(m, ops[0]), ops[1..]);
    }
  }

  /** Calls that end the local bind reservation of c. */
  predicate SettlesLocalBind(op: Op, c: Command)
  {
    op == DoCancelOutbound(c) || (op.DoCompleteOutbound? && op.c == c) || op.DoClose?
  }

  /** At most one bind reservation: until the request that holds it is settled, it
      stays, and every other local bind is refused, whatever else happens. */
  lemma {:induction false} BindReservationPersists(m: Machine, c: Command, ops: seq<Op>)
    requires Inv(m) && m.localBind == Some(c)
    requires forall op | op in ops :: !SettlesLocalBind(op, c)
    ensures Run(m, ops).localBind == Some(c) && IsConnected(Run(m, ops).state)
    ensures forall d :: IsBind(d) ==> !AcceptsOutbound(Run(m, ops), d)
    decreases |ops|
  {
    if ops == [] {
    } else {
      InvStep(m, ops[0]);
      assert ops[0] in ops;
      BindReservationPersists(Apply(m, ops[0]), c, ops[1..]);
    }
  }

  predicate SettlesLocalUnbind(op: Op)
  {
    op == DoCancelOutbound(Unbind) || (op.DoCompleteOutbound? && op.c == Unbind) ||
    op == DoCompleteInbound(Unbind, true) || op.DoClose?
  }

  lemma {:induction false} LocalUnbindPersists(m: Machine, ops: seq<Op>)
    requires Inv(m) && m.state.Unbound? && !m.localUnbindFrom.Closed?
    requires forall op | op in ops :: !SettlesLocalUnbind(op)
    ensures Run(m, ops).state.Unbound? && Run(m, ops).localUnbindFrom == m.localUnbindFrom
    decreases |ops|
  {
    if ops == [] {
    } else {
      InvStep(m, ops[0]);
      assert ops[0] in ops;
      LocalUnbindPersists(Apply(m, ops[0]), ops[1..]);
    }
  }

  /** A local unbind that is cancelled or refused restores exactly the bound state it
      started from, and until then no second unbind is accepted, whatever calls
      happen in between. */
  lemma LocalUnbindRollsBack(m: Machine, ops: seq<Op>)
    requires Inv(m) && AcceptsOutbound(m, Unbind)
    requires forall op | op in ops :: !SettlesLocalUnbind(op)
    ensures var n := Run(BeginOutbound(m, Unbind), ops);
            && n.state.Unbound? && !AcceptsOutbound(n, Unbind) && !AcceptsInbound(n, Unbind)
            && CancelOutbound(n, Unbind).state == m.state
            && CompleteOutbound(n, Unbind, false).state == m.state
            && CompleteOutbound(n, Unbind, true).state == Closed
  {
    InvStep(m, DoBeginOutbound(Unbind));
    LocalUnbindPersists(BeginOutbound(m, Unbind), ops);
  }

  predicate SettlesPeerUnbind(op: Op)
  {
    op == DoCancelInbound(Unbind) || (op.DoCompleteInbound? && op.c == Unbind) ||
    op == DoCompleteOutbound(Unbind, true) || op.DoClose?
  }

  lemma {:induction false} PeerUnbindPersists(m: Machine, ops: seq<Op>)
    requires Inv(m) && m.state.Unbound? && !m.peerUnbindFrom.Closed?
    requires forall op | op in ops :: !SettlesPeerUnbind(op)
    ensures Run(m, ops).state.Unbound? && Run(m, ops).peerUnbindFrom == m.peerUnbindFrom
    decreases |ops|
  {
    if ops == [] {
    } else {
      InvStep(m, ops[0]);
      assert ops[0] in ops;
      PeerUnbindPersists(Apply(m, ops[0]), ops[1..]);
    }
  }

  /** The same for an unbind the peer asked for. */
  lemma PeerUnbindRollsBack(m: Machine, ops: seq<Op>)
    requires Inv(m) && AcceptsInbound(m, Unbind)
    requires forall op | op in ops :: !SettlesPeerUnbind(op)
    ensures var n := Run(BeginInbound(m, Unbind), ops);
            && n.state.Unbound? && !AcceptsOutbound(n, Unbind) && !AcceptsInbound(n, Unbind)
            && CancelInbound(n, Unbind).state == m.state
            && CompleteInbound(n, Unbind, false).state == m.state
            && CompleteInbound(n, Unbind, true).state == Closed
  {
    InvStep(m, DoBeginInbound(Unbind));
    PeerUnbindPersists(BeginInbound(m, Unbind), ops);
  }

  /** Cancelling undoes beginning, whatever the command and whichever side began; only an
      outbind of the peer is not taken back. */
  lemma CancelUndoesBegin(m: Machine, c: Command)
    requires Inv(m)
    ensures AcceptsOutbound(m, c) ==> CancelOutbound(BeginOutbound(m, c), c) == m
    ensures AcceptsInbound(m, c) ==> (CancelInbound(BeginInbound(m, c), c) == m <==> !c.Outbind?)
  {
  }

  /** A session marked as outbound can only be bound as a receiver. */
  lemma MarkedBindsAsReceiver(m: Machine, c: Command)
    requires IsBind(c)
    ensures CanIssue(MarkOutbound(m).state, ESME, c) <==> c.BindReceiver? && IsConnected(m.state)
  {
  }
}
