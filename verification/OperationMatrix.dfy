/** The operations of SMPP 3.4 section 2.3, read the other way round: for each side and each
    state the commands it may issue, and their command_id values (protocol/command.go,
    session/state.go). */
module OperationMatrix {
  import opened Lifecycle
  import opened Formats

  /** What an ESME asks of an SMSC once it may transmit. */
  predicate IsAsked(c: Command)
  {
    || c.SubmitSM? || c.SubmitMulti? || c.QuerySM? || c.CancelSM?
    || c.BroadcastSM? || c.QueryBroadcastSM? || c.CancelBroadcastSM?
  }

  lemma AskedIs(s: State, role: Role, c: Command)
    requires IsAsked(c) || c.ReplaceSM?
    ensures CanIssue(s, role, c) <==> role.ESME? && (s.BoundTX? || (s.BoundTRX? && !c.ReplaceSM?))
  {
  }

  lemma DeliveredIs(s: State, role: Role, c: Command)
    requires c.DeliverSM? || c.AlertNotification?
    ensures CanIssue(s, role, c) <==> role.SMSC? && (s.BoundRX? || s.BoundTRX?)
  {
  }

  lemma EitherIs(s: State, role: Role, c: Command)
    requires c.DataSM? || c.Unbind? || c.EnquireLink?
    ensures CanIssue(s, role, c) <==> IsBound(s)
  {
  }

  lemma BindingIs(s: State, role: Role, c: Command)
    requires IsBind(c) || c.Outbind?
    ensures CanIssue(s, role, c) <==>
            if c.Outbind? then role.SMSC? && s.Open? else role.ESME? && (s.Open? || (s.Outbound? && c.BindReceiver?))
  {
  }

  /** Who may issue which request where. Submitting, querying, cancelling and broadcasting is
      the ESME's, and needs a transmitter or a transceiver; replacing needs a transmitter;
      delivering and alerting is the SMSC's, and needs a receiver or a transceiver; binding
      and the outbind come before. Lifecycle.EveryRequestCanBeAnswered extends this to the
      responses. */
  lemma Directions(s: State, role: Role, c: Command)
    ensures IsAsked(c) ==> (CanIssue(s, role, c) <==> role.ESME? && (s.BoundTX? || s.BoundTRX?))
    ensures c.ReplaceSM? ==> (CanIssue(s, role, c) <==> role.ESME? && s.BoundTX?)
    ensures c.DeliverSM? || c.AlertNotification? ==>
              (CanIssue(s, role, c) <==> role.SMSC? && (s.BoundRX? || s.BoundTRX?))
    ensures c.DataSM? || c.Unbind? || c.EnquireLink? ==> (CanIssue(s, role, c) <==> IsBound(s))
    ensures IsBind(c) ==>
              (CanIssue(s, role, c) <==> role.ESME? && (s.Open? || (s.Outbound? && c.BindReceiver?)))
    ensures c.Outbind? ==> (CanIssue(s, role, c) <==> role.SMSC? && s.Open?)
    ensures c.GenericNack? ==> (CanIssue(s, role, c) <==> !s.Closed?)
    ensures c.Unknown? ==> !CanIssue(s, role, c)
  {
    if IsAsked(c) || c.ReplaceSM? {
      AskedIs(s, role, c);
    } else if c.DeliverSM? || c.AlertNotification? {
      DeliveredIs(s, role, c);
    } else if c.DataSM? || c.Unbind? || c.EnquireLink? {
      EitherIs(s, role, c);
    } else if IsBind(c) || c.Outbind? {
      BindingIs(s, role, c);
    }
  }

  // ----- command_id -----

  function CodeOf(c: Command): (id: int)
  {
    match c
    case GenericNack => 0x8000_0000
    case BindReceiver => 0x01
    case BindReceiverResp => 0x8000_0001
    case BindTransmitter => 0x02
    case BindTransmitterResp => 0x8000_0002
    case QuerySM => 0x03
    case QuerySMResp => 0x8000_0003
    case SubmitSM => 0x04
    case SubmitSMResp => 0x8000_0004
    case DeliverSM => 0x05
    case DeliverSMResp => 0x8000_0005
    case Unbind => 0x06
    case UnbindResp => 0x8000_0006
    case ReplaceSM => 0x07
    case ReplaceSMResp => 0x8000_0007
    case CancelSM => 0x08
    case CancelSMResp => 0x8000_0008
    case BindTransceiver => 0x09
    case BindTransceiverResp => 0x8000_0009
    case Outbind => 0x0B
    case EnquireLink => 0x15
    case EnquireLinkResp => 0x8000_0015
    case SubmitMulti => 0x21
    case SubmitMultiResp => 0x8000_0021
    case AlertNotification => 0x102
    case DataSM => 0x103
    case DataSMResp => 0x8000_0103
    case BroadcastSM => 0x111
    case BroadcastSMResp => 0x8000_0111
    case QueryBroadcastSM => 0x112
    case QueryBroadcastSMResp => 0x8000_0112
    case CancelBroadcastSM => 0x113
    case CancelBroadcastSMResp => 0x8000_0113
    case Unknown(id) => id
  }

  /** A command has a response exactly when it is a request that is not one-way, and the
      response carries the request's id with the response bit set. */
  lemma ResponseHasBit(c: Command)
    requires !c.Unknown?
    ensures ResponseTo(c).Some? <==> CodeOf(c) < 0x8000_0000 && !IsOneWay(c)
    ensures ResponseTo(c).Some? ==> CodeOf(ResponseTo(c).value) == CodeOf(c) + 0x8000_0000
  {
  }

  /** The registry of version 3.4 has a body for every command but the broadcasts. */
  lemma CommandsAreRegistered(c: Command)
    requires !c.Unknown?
    ensures Registered(CodeOf(c)) <==> !(0x111 <= CodeOf(c) % 0x8000_0000 <= 0x113)
  {
  }
}
