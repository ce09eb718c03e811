/** Bodies of the SMPP 3.4 PDUs (codec/smpp34.go, codec/smpp34_extra.go): what a
    body is on the wire, and the parser that reads it back. */
module Bodies {
  import opened Bytes
  import opened Fields

  const STATUS_INVALID_MESSAGE_LENGTH: uint32 := 0x01
  const STATUS_INVALID_COMMAND_LENGTH: uint32 := 0x02
  const STATUS_INVALID_NUMBER_OF_DESTINATIONS: uint32 := 0x33
  const STATUS_INVALID_PARAMETER_LENGTH: uint32 := 0xC2
  const STATUS_INVALID_OPTIONAL_PARAMETER_VALUE: uint32 := 0xC4

  const TAG_SC_INTERFACE_VERSION: uint16 := 0x0210
  const TAG_MESSAGE_PAYLOAD: uint16 := 0x0424

  const MAX_SYSTEM_ID := 16
  const MAX_PASSWORD := 9
  const MAX_SYSTEM_TYPE := 13
  const MAX_ADDRESS_RANGE := 41
  const MAX_SERVICE_TYPE := 6
  const MAX_ADDRESS := 21
  const MAX_DATA_ADDRESS := 65
  const MAX_TIME := 17
  const MAX_MESSAGE_ID := 65
  const MAX_SHORT_MESSAGE := 254

  const FLAG_SME: byte := 1
  const FLAG_DISTRIBUTION_LIST: byte := 2

  /** Type of number, numbering plan and address: always adjacent on the wire. */
  datatype Address = Address(ton: byte, npi: byte, addr: bytes)

  /** The part submit_sm, deliver_sm and submit_multi share after their destinations. */
  datatype Message = Message(
    esmClass: byte, protocolId: byte, priority: byte,
    schedule: bytes, validity: bytes,
    registered: byte, replaceIfPresent: byte, coding: byte, defaultId: byte,
    text: bytes, optional: seq<Tlv>)

  datatype Destination = Destination(flag: byte, ton: byte, npi: byte, name: bytes)

  datatype Unsuccessful = Unsuccessful(address: Address, status: uint32)

  datatype Body =
    | Empty
    | OptionalResp(optional: seq<Tlv>)
    | BindReq(systemId: bytes, password: bytes, systemType: bytes, version: byte, ton: byte, npi: byte,
        addressRange: bytes)
    | BindResp(systemId: bytes, optional: seq<Tlv>)
    | SubmitSM(serviceType: bytes, source: Address, dest: Address, message: Message)
    | DeliverSM(serviceType: bytes, source: Address, dest: Address, message: Message)
    | SubmitSMResp(messageId: bytes, optional: seq<Tlv>)
    | DeliverSMResp(messageId: bytes, optional: seq<Tlv>)
    | DataSM(serviceType: bytes, source: Address, dest: Address, esmClass: byte, registered: byte, coding: byte,
        optional: seq<Tlv>)
    | DataSMResp(messageId: bytes, optional: seq<Tlv>)
    | QuerySM(messageId: bytes, source: Address)
    | QuerySMResp(messageId: bytes, finalDate: bytes, state: byte, errorCode: byte, optional: seq<Tlv>)
    | CancelSM(serviceType: bytes, messageId: bytes, source: Address, dest: Address)
    | ReplaceSM(messageId: bytes, source: Address, schedule: bytes, validity: bytes, registered: byte,
        defaultId: byte, text: bytes)
    | AlertNotification(source: Address, esme: Address, optional: seq<Tlv>)
    | Outbind(systemId: bytes, password: bytes)
    | SubmitMulti(serviceType: bytes, source: Address, dests: seq<Destination>, message: Message)
    | SubmitMultiResp(messageId: bytes, unsuccessful: seq<Unsuccessful>, optional: seq<Tlv>)
    | Raw(octets: bytes)

  /** The decoder/encoder pairs of the registry. */
  datatype Kind =
    | KBind | KBindResp | KSubmit | KDeliver | KSubmitResp | KDeliverResp | KData | KDataResp
    | KQuery | KQueryResp | KCancel | KReplace | KAlert | KOutbind | KMulti | KMultiResp
    | KEmptyReq | KEmptyResp

  predicate IsRequestKind(k: Kind)
  {
    k.KBind? || k.KSubmit? || k.KDeliver? || k.KData? || k.KQuery? || k.KCancel? || k.KReplace? || k.KAlert? ||
    k.KOutbind? || k.KMulti? || k.KEmptyReq?
  }

  /** The body type a decoder/encoder pair is for. */
  predicate TypedFor(k: Kind, b: Body)
  {
    match k
    case KBind => b.BindReq?
    case KBindResp => b.BindResp?
    case KSubmit => b.SubmitSM?
    case KDeliver => b.DeliverSM?
    case KSubmitResp => b.SubmitSMResp?
    case KDeliverResp => b.DeliverSMResp?
    case KData => b.DataSM?
    case KDataResp => b.DataSMResp?
    case KQuery => b.QuerySM?
    case KQueryResp => b.QuerySMResp?
    case KCancel => b.CancelSM?
    case KReplace => b.ReplaceSM?
    case KAlert => b.AlertNotification?
    case KOutbind => b.Outbind?
    case KMulti => b.SubmitMulti?
    case KMultiResp => b.SubmitMultiResp?
    case KEmptyReq => false
    case KEmptyResp => false
  }

  // ----- Addresses -----

  predicate FitsA(a: Address, max: nat) { FitsC(a.addr, max) }

  function PutA(a: Address, rest: bytes): (s: bytes)
  {
    Put8(a.ton, Put8(a.npi, PutC(a.addr, rest)))
  }

  function ReadA(src: bytes, max: nat): (r: Result<(Address, bytes)>)
    ensures r.Ok? ==> FitsA(r.value.0, max)
  {
    var (ton, s) :- Read8(src);
    var (npi, s) :- Read8(s);
    var (addr, s) :- ReadC(s, max);
    Ok((Address(ton, npi, addr), s))
  }

  lemma ReadPutA(a: Address, rest: bytes, max: nat)
    requires FitsA(a, max)
    ensures ReadA(PutA(a, rest), max) == Ok((a, rest))
  {
    ReadPut8(a.ton, Put8(a.npi, PutC(a.addr, rest)));
    ReadPut8(a.npi, PutC(a.addr, rest));
    ReadPutC(a.addr, rest, max);
  }

  lemma ReadASound(src: bytes, max: nat)
    requires ReadA(src, max).Ok?
    ensures src == PutA(ReadA(src, max).value.0, ReadA(src, max).value.1)
  {
    var s1 := Read8(src).value.1;
    Read8Sound(src);
    Read8Sound(s1);
    ReadCSound(Read8(s1).value.1, max);
  }

  // ----- The message part -----

  predicate HasPayload(ts: seq<Tlv>)
  {
    exists t | t in ts :: t.tag == TAG_MESSAGE_PAYLOAD && t.value != []
  }

  predicate FitsMessage(m: Message)
  {
    && FitsC(m.schedule, MAX_TIME) && FitsC(m.validity, MAX_TIME)
    && |m.text| <= MAX_SHORT_MESSAGE && Fits(m.optional)
    && !(HasPayload(m.optional) && m.text != [])
  }

  function PutMessage(m: Message): (s: bytes)
  {
    Put8(m.esmClass, Put8(m.protocolId, Put8(m.priority, PutC(m.schedule, PutC(m.validity,
      Put8(m.registered, Put8(m.replaceIfPresent, Put8(m.coding, Put8(m.defaultId,
        PutText(m.text, PutTlvs(m.optional)))))))))))
  }

  function ReadMessage(src: bytes): (r: Result<Message>)
    ensures r.Ok? ==> FitsMessage(r.value)
  {
    var (esm, s) :- Read8(src);
    var (pid, s) :- Read8(s);
    var (pri, s) :- Read8(s);
    var (sch, s) :- ReadC(s, MAX_TIME);
    var (val, s) :- ReadC(s, MAX_TIME);
    var (reg, s) :- Read8(s);
    var (rep, s) :- Read8(s);
    var (cod, s) :- Read8(s);
    var (def, s) :- Read8(s);
    var (text, s) :- ReadText(s);
    var opt :- ReadTlvs(s);
    if HasPayload(opt) && text != [] then Err(Semantic(STATUS_INVALID_OPTIONAL_PARAMETER_VALUE)) else
    Ok(Message(esm, pid, pri, sch, val, reg, rep, cod, def, text, opt))
  }

  lemma ReadPutMessage(m: Message)
    requires FitsMessage(m)
    ensures ReadMessage(PutMessage(m)) == Ok(m)
  {
    var s9 := PutText(m.text, PutTlvs(m.optional));
    var s8 := Put8(m.defaultId, s9);
    var s7 := Put8(m.coding, s8);
    var s6 := Put8(m.replaceIfPresent, s7);
    var s5 := Put8(m.registered, s6);
    var s4 := PutC(m.validity, s5);
    var s3 := PutC(m.schedule, s4);
    var s2 := Put8(m.priority, s3);
    ReadPut8(m.esmClass, Put8(m.protocolId, s2));
    ReadPut8(m.protocolId, s2);
    ReadPut8(m.priority, s3);
    ReadPutC(m.schedule, s4, MAX_TIME);
    ReadPutC(m.validity, s5, MAX_TIME);
    ReadPut8(m.registered, s6);
    ReadPut8(m.replaceIfPresent, s7);
    ReadPut8(m.coding, s8);
    ReadPut8(m.defaultId, s9);
    ReadPutText(m.text, PutTlvs(m.optional));
    ReadPutTlvs(m.optional);
  }

  lemma ReadMessageSound(src: bytes)
    requires ReadMessage(src).Ok?
    ensures src == PutMessage(ReadMessage(src).value)
  {
    var s1 := Read8(src).value.1;
    var s2 := Read8(s1).value.1;
    var s3 := Read8(s2).value.1;
    var s4 := ReadC(s3, MAX_TIME).value.1;
    var s5 := ReadC(s4, MAX_TIME).value.1;
    var s6 := Read8(s5).value.1;
    var s7 := Read8(s6).value.1;
    var s8 := Read8(s7).value.1;
    var s9 := Read8(s8).value.1;
    Read8Sound(src);
    Read8Sound(s1);
    Read8Sound(s2);
    ReadCSound(s3, MAX_TIME);
    ReadCSound(s4, MAX_TIME);
    Read8Sound(s5);
    Read8Sound(s6);
    Read8Sound(s7);
    Read8Sound(s8);
    ReadTextSound(s9);
    ReadTlvsSound(ReadText(s9).value.1);
  }

  // ----- submit_multi destinations -----

  predicate FitsDest(d: Destination)
  {
    (d.flag == FLAG_SME || d.flag == FLAG_DISTRIBUTION_LIST) && FitsC(d.name, MAX_ADDRESS)
  }

  predicate FitsDests(ds: seq<Destination>) { forall d | d in ds :: FitsDest(d) }

  /** A distribution list has no type of number or numbering plan of its own. */
  predicate NormalDest(d: Destination) { d.flag == FLAG_DISTRIBUTION_LIST ==> d.ton == 0 && d.npi == 0 }

  predicate NormalDests(ds: seq<Destination>) { forall d | d in ds :: NormalDest(d) }

  function PutDest(d: Destination, rest: bytes): (s: bytes)
  {
    if d.flag == FLAG_SME then Put8(d.flag, Put8(d.ton, Put8(d.npi, PutC(d.name, rest))))
    else Put8(d.flag, PutC(d.name, rest))
  }

  function ReadDest(src: bytes, declared: uint32): (r: Result<(Destination, bytes)>)
    ensures r.Ok? ==> FitsDest(r.value.0) && NormalDest(r.value.0)
  {
    var (flag, s) :- Read8(src);
    if flag == FLAG_SME then
      var (ton, s) :- Read8(s);
      var (npi, s) :- Read8(s);
      var (name, s) :- ReadC(s, MAX_ADDRESS);
      Ok((Destination(flag, ton, npi, name), s))
    else if flag == FLAG_DISTRIBUTION_LIST then
      var (name, s) :- ReadC(s, MAX_ADDRESS);
      Ok((Destination(flag, 0, 0, name), s))
    else Err(Fatal(FrameBoundaryLost, declared))
  }

  lemma ReadPutDest(d: Destination, rest: bytes, declared: uint32)
    requires FitsDest(d) && NormalDest(d)
    ensures ReadDest(PutDest(d, rest), declared) == Ok((d, rest))
  {
    var s := PutC(d.name, rest);
    ReadPutC(d.name, rest, MAX_ADDRESS);
    ReadPut8(d.npi, s);
    ReadPut8(d.ton, Put8(d.npi, s));
    ReadPut8(d.flag, Put8(d.ton, Put8(d.npi, s)));
    ReadPut8(d.flag, s);
  }

  lemma ReadDestSound(src: bytes, declared: uint32)
    requires ReadDest(src, declared).Ok?
    ensures src == PutDest(ReadDest(src, declared).value.0, ReadDest(src, declared).value.1)
  {
    var (flag, s) := Read8(src).value;
    Read8Sound(src);
    if flag == FLAG_SME {
      var s2 := Read8(s).value.1;
      Read8Sound(s);
      Read8Sound(s2);
      ReadCSound(Read8(s2).value.1, MAX_ADDRESS);
    } else {
      ReadCSound(s, MAX_ADDRESS);
    }
  }

  function PutDests(ds: seq<Destination>, rest: bytes): (s: bytes)
  {
    PutMany(PutDest, ds, rest)
  }

  function ReadDests(src: bytes, n: nat, declared: uint32): (r: Result<(seq<Destination>, bytes)>)
    ensures r.Ok? ==> |r.value.0| == n
  {
    ReadMany(s => ReadDest(s, declared), src, n)
  }

  lemma ReadPutDests(ds: seq<Destination>, rest: bytes, declared: uint32)
    requires FitsDests(ds) && NormalDests(ds)
    ensures ReadDests(PutDests(ds, rest), |ds|, declared) == Ok((ds, rest))
  {
    var read := s => ReadDest(s, declared);
    forall d, s | d in ds ensures read(PutDest(d, s)) == Ok((d, s)) {
      ReadPutDest(d, s, declared);
    }
    ReadPutMany(read, PutDest, ds, rest);
  }

  lemma ReadDestsSound(src: bytes, n: nat, declared: uint32)
    requires ReadDests(src, n, declared).Ok?
    ensures var (ds, rest) := ReadDests(src, n, declared).value;
            src == PutDests(ds, rest) && FitsDests(ds) && NormalDests(ds)
  {
    var read := s => ReadDest(s, declared);
    forall s | read(s).Ok? ensures s == PutDest(read(s).value.0, read(s).value.1) {
      ReadDestSound(s, declared);
    }
    ReadManySound(read, PutDest, d => FitsDest(d) && NormalDest(d), src, n);
  }

  /** number_of_dests and the destinations it announces. */
  function PutDestList(ds: seq<Destination>, rest: bytes): (s: bytes)
  {
    Put8(|ds| % 256, PutDests(ds, rest))
  }

  function ReadDestList(src: bytes, declared: uint32): (r: Result<(seq<Destination>, bytes)>)
    ensures r.Ok? ==> 1 <= |r.value.0| <= 254 && FitsDests(r.value.0) && NormalDests(r.value.0)
  {
    var (count, s) :- Read8(src);
    if count == 0 || count == 255 then Err(Semantic(STATUS_INVALID_NUMBER_OF_DESTINATIONS)) else
    var dests := ReadDests(s, count, declared);
    if dests.Ok? then
      ReadDestsSound(s, count, declared);
      dests
    else dests
  }

  lemma ReadPutDestList(ds: seq<Destination>, rest: bytes, declared: uint32)
    requires 1 <= |ds| <= 254 && FitsDests(ds) && NormalDests(ds)
    ensures ReadDestList(PutDestList(ds, rest), declared) == Ok((ds, rest))
  {
    ReadPut8(|ds|, PutDests(ds, rest));
    ReadPutDests(ds, rest, declared);
  }

  lemma ReadDestListSound(src: bytes, declared: uint32)
    requires ReadDestList(src, declared).Ok?
    ensures src == PutDestList(ReadDestList(src, declared).value.0, ReadDestList(src, declared).value.1)
  {
    var (count, s) := Read8(src).value;
    Read8Sound(src);
    ReadDestsSound(s, count, declared);
  }

  // ----- submit_multi_resp entries -----

  predicate FitsFailures(us: seq<Unsuccessful>) { forall u | u in us :: FitsA(u.address, MAX_ADDRESS) }

  function PutFailure(u: Unsuccessful, rest: bytes): (s: bytes)
  {
    PutA(u.address, Put32(u.status) + rest)
  }

  function ReadFailure(src: bytes): (r: Result<(Unsuccessful, bytes)>)
    ensures r.Ok? ==> FitsA(r.value.0.address, MAX_ADDRESS)
  {
    var (address, s) :- ReadA(src, MAX_ADDRESS);
    var (status, s) :- Read32(s);
    Ok((Unsuccessful(address, status), s))
  }

  lemma ReadPutFailure(u: Unsuccessful, rest: bytes)
    requires FitsA(u.address, MAX_ADDRESS)
    ensures ReadFailure(PutFailure(u, rest)) == Ok((u, rest))
  {
    ReadPutA(u.address, Put32(u.status) + rest, MAX_ADDRESS);
    ReadPut32(u.status, rest);
  }

  lemma ReadFailureSound(src: bytes)
    requires ReadFailure(src).Ok?
    ensures src == PutFailure(ReadFailure(src).value.0, ReadFailure(src).value.1)
  {
    ReadASound(src, MAX_ADDRESS);
    Read32Sound(ReadA(src, MAX_ADDRESS).value.1);
  }

  function PutFailures(us: seq<Unsuccessful>, rest: bytes): (s: bytes)
  {
    PutMany(PutFailure, us, rest)
  }

  function ReadFailures(src: bytes, n: nat): (r: Result<(seq<Unsuccessful>, bytes)>)
    ensures r.Ok? ==> |r.value.0| == n
  {
    ReadMany(s => ReadFailure(s), src, n)
  }

  lemma ReadPutFailures(us: seq<Unsuccessful>, rest: bytes)
    requires FitsFailures(us)
    ensures ReadFailures(PutFailures(us, rest), |us|) == Ok((us, rest))
  {
    var read := s => ReadFailure(s);
    forall u, s | u in us ensures read(PutFailure(u, s)) == Ok((u, s)) {
      ReadPutFailure(u, s);
    }
    ReadPutMany(read, PutFailure, us, rest);
  }

  lemma ReadFailuresSound(src: bytes, n: nat)
    requires ReadFailures(src, n).Ok?
    ensures var (us, rest) := ReadFailures(src, n).value;
            src == PutFailures(us, rest) && FitsFailures(us)
  {
    var read := s => ReadFailure(s);
    forall s | read(s).Ok? ensures s == PutFailure(read(s).value.0, read(s).value.1) {
      ReadFailureSound(s);
    }
    ReadManySound(read, PutFailure, (u: Unsuccessful) => FitsA(u.address, MAX_ADDRESS), src, n);
  }

  /** no_unsuccess and the entries it announces. */
  function PutFailureList(us: seq<Unsuccessful>, rest: bytes): (s: bytes)
  {
    Put8(|us| % 256, PutFailures(us, rest))
  }

  function ReadFailureList(src: bytes): (r: Result<(seq<Unsuccessful>, bytes)>)
    ensures r.Ok? ==> |r.value.0| <= 255 && FitsFailures(r.value.0)
  {
    var (count, s) :- Read8(src);
    var entries := ReadFailures(s, count);
    if entries.Ok? then
      ReadFailuresSound(s, count);
      entries
    else entries
  }

  lemma ReadPutFailureList(us: seq<Unsuccessful>, rest: bytes)
    requires |us| <= 255 && FitsFailures(us)
    ensures ReadFailureList(PutFailureList(us, rest)) == Ok((us, rest))
  {
    ReadPut8(|us|, PutFailures(us, rest));
    ReadPutFailures(us, rest);
  }

  lemma ReadFailureListSound(src: bytes)
    requires ReadFailureList(src).Ok?
    ensures src == PutFailureList(ReadFailureList(src).value.0, ReadFailureList(src).value.1)
  {
    var (count, s) := Read8(src).value;
    Read8Sound(src);
    ReadFailuresSound(s, count);
  }

  /** sm_length and the short message it announces. */
  function PutText(text: bytes, rest: bytes): (s: bytes)
  {
    Put8(|text| % 256, text + rest)
  }

  function ReadText(src: bytes): (r: Result<(bytes, bytes)>)
    ensures r.Ok? ==> |r.value.0| <= MAX_SHORT_MESSAGE
  {
    var (len, s) :- Read8(src);
    if len == 255 then Err(Semantic(STATUS_INVALID_MESSAGE_LENGTH)) else
    ReadOctets(s, len)
  }

  lemma ReadTextSound(src: bytes)
    requires ReadText(src).Ok?
    ensures src == PutText(ReadText(src).value.0, ReadText(src).value.1)
  {
    Read8Sound(src);
    var (len, s) := Read8(src).value;
    assert s == s[..len] + s[len..];
  }

  lemma ReadPutText(text: bytes, rest: bytes)
    requires |text| <= MAX_SHORT_MESSAGE
    ensures ReadText(PutText(text, rest)) == Ok((text, rest))
  {
    ReadPut8(|text|, text + rest);
    ReadPutOctets(text, rest);
  }

  // ----- Whole bodies -----

  /** What the encoder of a typed body accepts. */
  predicate FitsBody(b: Body)
  {
    match b
    case Empty => true
    case Raw(_) => true
    case OptionalResp(o) => Fits(o)
    case BindReq(id, pw, st, _, _, _, range) =>
      FitsC(id, MAX_SYSTEM_ID) && FitsC(pw, MAX_PASSWORD) && FitsC(st, MAX_SYSTEM_TYPE) &&
          FitsC(range, MAX_ADDRESS_RANGE)
    case BindResp(id, o) => FitsC(id, MAX_SYSTEM_ID) && Fits(o)
    case SubmitSM(st, src, dst, m) => FitsC(st, MAX_SERVICE_TYPE) && FitsA(src, MAX_ADDRESS) &&
        FitsA(dst, MAX_ADDRESS) && FitsMessage(m)
    case DeliverSM(st, src, dst, m) => FitsC(st, MAX_SERVICE_TYPE) && FitsA(src, MAX_ADDRESS) &&
        FitsA(dst, MAX_ADDRESS) && FitsMessage(m)
    case SubmitSMResp(id, o) => FitsC(id, MAX_MESSAGE_ID) && Fits(o)
    case DeliverSMResp(id, o) => FitsC(id, MAX_MESSAGE_ID) && Fits(o)
    case DataSM(st, src, dst, _, _, _, o) =>
      FitsC(st, MAX_SERVICE_TYPE) && FitsA(src, MAX_DATA_ADDRESS) && FitsA(dst, MAX_DATA_ADDRESS) && Fits(o)
    case DataSMResp(id, o) => FitsC(id, MAX_MESSAGE_ID) && Fits(o)
    case QuerySM(id, src) => FitsC(id, MAX_MESSAGE_ID) && FitsA(src, MAX_ADDRESS)
    case QuerySMResp(id, date, _, _, o) => FitsC(id, MAX_MESSAGE_ID) && FitsC(date, MAX_TIME) && Fits(o)
    case CancelSM(st, id, src, dst) =>
      FitsC(st, MAX_SERVICE_TYPE) && FitsC(id, MAX_MESSAGE_ID) && FitsA(src, MAX_ADDRESS) && FitsA(dst, MAX_ADDRESS)
    case ReplaceSM(id, src, sched, val, _, _, text) =>
      FitsC(id, MAX_MESSAGE_ID) && FitsA(src, MAX_ADDRESS) && FitsC(sched, MAX_TIME) && FitsC(val, MAX_TIME) &&
          |text| <= MAX_SHORT_MESSAGE
    case AlertNotification(src, esme, o) => FitsA(src, MAX_DATA_ADDRESS) && FitsA(esme, MAX_DATA_ADDRESS) && Fits(o)
    case Outbind(id, pw) => FitsC(id, MAX_SYSTEM_ID) && FitsC(pw, MAX_PASSWORD)
    case SubmitMulti(st, src, ds, m) =>
      FitsC(st, MAX_SERVICE_TYPE) && FitsA(src, MAX_ADDRESS) && 1 <= |ds| <= 254 && FitsDests(ds) && FitsMessage(m)
    case SubmitMultiResp(id, us, o) => FitsC(id, MAX_MESSAGE_ID) && |us| <= 255 && FitsFailures(us) && Fits(o)
  }

  /** The octets of a body. */
  function PutBody(b: Body): (s: bytes)
  {
    match b
    case Empty => []
    case Raw(octets) => octets
    case OptionalResp(o) => PutTlvs(o)
    case BindReq(id, pw, st, version, ton, npi, range) =>
      PutC(id, PutC(pw, PutC(st, Put8(version, PutA(Address(ton, npi, range), [])))))
    case BindResp(id, o) => PutC(id, PutTlvs(o))
    case SubmitSM(st, src, dst, m) => PutC(st, PutA(src, PutA(dst, PutMessage(m))))
    case DeliverSM(st, src, dst, m) => PutC(st, PutA(src, PutA(dst, PutMessage(m))))
    case SubmitSMResp(id, o) => PutC(id, PutTlvs(o))
    case DeliverSMResp(id, o) => PutC(id, PutTlvs(o))
    case DataSM(st, src, dst, esm, reg, cod, o) =>
      PutC(st, PutA(src, PutA(dst, Put8(esm, Put8(reg, Put8(cod, PutTlvs(o)))))))
    case DataSMResp(id, o) => PutC(id, PutTlvs(o))
    case QuerySM(id, src) => PutC(id, PutA(src, []))
    case QuerySMResp(id, date, state, code, o) => PutC(id, PutC(date, Put8(state, Put8(code, PutTlvs(o)))))
    case CancelSM(st, id, src, dst) => PutC(st, PutC(id, PutA(src, PutA(dst, []))))
    case ReplaceSM(id, src, sched, val, reg, def, text) =>
      PutC(id, PutA(src, PutC(sched, PutC(val, Put8(reg, Put8(def, PutText(text, [])))))))
    case AlertNotification(src, esme, o) => PutA(src, PutA(esme, PutTlvs(o)))
    case Outbind(id, pw) => PutC(id, PutC(pw, []))
    case SubmitMulti(st, src, ds, m) => PutC(st, PutA(src, PutDestList(ds, PutMessage(m))))
    case SubmitMultiResp(id, us, o) => PutC(id, PutFailureList(us, PutTlvs(o)))
  }

  function Done<T>(v: T, rest: bytes): (r: Result<T>)
  {
    if rest == [] then Ok(v) else Err(Semantic(STATUS_INVALID_COMMAND_LENGTH))
  }

  function ReadBind(src: bytes): (r: Result<Body>)
    ensures r.Ok? ==> r.value.BindReq?
  {
    var (id, s) :- ReadC(src, MAX_SYSTEM_ID);
    var (pw, s) :- ReadC(s, MAX_PASSWORD);
    var (st, s) :- ReadC(s, MAX_SYSTEM_TYPE);
    var (version, s) :- Read8(s);
    var (a, s) :- ReadA(s, MAX_ADDRESS_RANGE);
    Done(BindReq(id, pw, st, version, a.ton, a.npi, a.addr), s)
  }

  /** A C-Octet String followed by optional parameters: every *_resp with an id. */
  function ReadIdAndTlvs(src: bytes, max: nat): (r: Result<(bytes, seq<Tlv>)>)
  {
    var (id, s) :- ReadC(src, max);
    var o :- ReadTlvs(s);
    Ok((id, o))
  }

  predicate VersionsHaveOneOctet(o: seq<Tlv>)
  {
    forall t | t in o :: t.tag == TAG_SC_INTERFACE_VERSION ==> |t.value| == 1
  }

  function ReadBindResp(src: bytes): (r: Result<Body>)
    ensures r.Ok? ==> r.value.BindResp?
  {
    var (id, o) :- ReadIdAndTlvs(src, MAX_SYSTEM_ID);
    if VersionsHaveOneOctet(o) then Ok(BindResp(id, o)) else Err(Semantic(STATUS_INVALID_PARAMETER_LENGTH))
  }

  function ReadShort(src: bytes): (r: Result<(bytes, Address, Address, Message)>)
  {
    var (st, s) :- ReadC(src, MAX_SERVICE_TYPE);
    var (source, s) :- ReadA(s, MAX_ADDRESS);
    var (dest, s) :- ReadA(s, MAX_ADDRESS);
    var m :- ReadMessage(s);
    Ok((st, source, dest, m))
  }

  function ReadData(src: bytes): (r: Result<Body>)
    ensures r.Ok? ==> r.value.DataSM?
  {
    var (st, s) :- ReadC(src, MAX_SERVICE_TYPE);
    var (source, s) :- ReadA(s, MAX_DATA_ADDRESS);
    var (dest, s) :- ReadA(s, MAX_DATA_ADDRESS);
    var (esm, s) :- Read8(s);
    var (reg, s) :- Read8(s);
    var (cod, s) :- Read8(s);
    var o :- ReadTlvs(s);
    Ok(DataSM(st, source, dest, esm, reg, cod, o))
  }

  function ReadQuery(src: bytes): (r: Result<Body>)
    ensures r.Ok? ==> r.value.QuerySM?
  {
    var (id, s) :- ReadC(src, MAX_MESSAGE_ID);
    var (source, s) :- ReadA(s, MAX_ADDRESS);
    Done(QuerySM(id, source), s)
  }

  function ReadQueryResp(src: bytes): (r: Result<Body>)
    ensures r.Ok? ==> r.value.QuerySMResp?
  {
    var (id, s) :- ReadC(src, MAX_MESSAGE_ID);
    var (date, s) :- ReadC(s, MAX_TIME);
    var (state, s) :- Read8(s);
    var (code, s) :- Read8(s);
    var o :- ReadTlvs(s);
    Ok(QuerySMResp(id, date, state, code, o))
  }

  function ReadCancel(src: bytes): (r: Result<Body>)
    ensures r.Ok? ==> r.value.CancelSM?
  {
    var (st, s) :- ReadC(src, MAX_SERVICE_TYPE);
    var (id, s) :- ReadC(s, MAX_MESSAGE_ID);
    var (source, s) :- ReadA(s, MAX_ADDRESS);
    var (dest, s) :- ReadA(s, MAX_ADDRESS);
    Done(CancelSM(st, id, source, dest), s)
  }

  function ReadReplace(src: bytes): (r: Result<Body>)
    ensures r.Ok? ==> r.value.ReplaceSM?
  {
    var (id, s) :- ReadC(src, MAX_MESSAGE_ID);
    var (source, s) :- ReadA(s, MAX_ADDRESS);
    var (sched, s) :- ReadC(s, MAX_TIME);
    var (val, s) :- ReadC(s, MAX_TIME);
    var (reg, s) :- Read8(s);
    var (def, s) :- Read8(s);
    var (text, s) :- ReadText(s);
    Done(ReplaceSM(id, source, sched, val, reg, def, text), s)
  }

  function ReadAlert(src: bytes): (r: Result<Body>)
    ensures r.Ok? ==> r.value.AlertNotification?
  {
    var (source, s) :- ReadA(src, MAX_DATA_ADDRESS);
    var (esme, s) :- ReadA(s, MAX_DATA_ADDRESS);
    var o :- ReadTlvs(s);
    Ok(AlertNotification(source, esme, o))
  }

  function ReadOutbind(src: bytes): (r: Result<Body>)
    ensures r.Ok? ==> r.value.Outbind?
  {
    var (id, s) :- ReadC(src, MAX_SYSTEM_ID);
    var (pw, s) :- ReadC(s, MAX_PASSWORD);
    Done(Outbind(id, pw), s)
  }

  function ReadMulti(src: bytes, declared: uint32): (r: Result<Body>)
    ensures r.Ok? ==> r.value.SubmitMulti?
  {
    var (st, s) :- ReadC(src, MAX_SERVICE_TYPE);
    var (source, s) :- ReadA(s, MAX_ADDRESS);
    var (ds, s) :- ReadDestList(s, declared);
    var m :- ReadMessage(s);
    Ok(SubmitMulti(st, source, ds, m))
  }

  function ReadMultiResp(src: bytes): (r: Result<Body>)
    ensures r.Ok? ==> r.value.SubmitMultiResp?
  {
    var (id, s) :- ReadC(src, MAX_MESSAGE_ID);
    var (us, s) :- ReadFailureList(s);
    var o :- ReadTlvs(s);
    Ok(SubmitMultiResp(id, us, o))
  }

  /** The parser of a request body, or of a successful response body. */
  function ReadBody(k: Kind, src: bytes, declared: uint32): (r: Result<Body>)
    requires !k.KEmptyReq? && !k.KEmptyResp?
    ensures r.Ok? ==> TypedFor(k, r.value)
  {
    match k
    case KBind => ReadBind(src)
    case KBindResp => ReadBindResp(src)
    case KSubmit => var (st, source, dest, m) :- ReadShort(src); Ok(SubmitSM(st, source, dest, m))
    case KDeliver => var (st, source, dest, m) :- ReadShort(src); Ok(DeliverSM(st, source, dest, m))
    case KSubmitResp => var (id, o) :- ReadIdAndTlvs(src, MAX_MESSAGE_ID); Ok(SubmitSMResp(id, o))
    case KDeliverResp => var (id, o) :- ReadIdAndTlvs(src, MAX_MESSAGE_ID); Ok(DeliverSMResp(id, o))
    case KDataResp => var (id, o) :- ReadIdAndTlvs(src, MAX_MESSAGE_ID); Ok(DataSMResp(id, o))
    case KData => ReadData(src)
    case KQuery => ReadQuery(src)
    case KQueryResp => ReadQueryResp(src)
    case KCancel => ReadCancel(src)
    case KReplace => ReadReplace(src)
    case KAlert => ReadAlert(src)
    case KOutbind => ReadOutbind(src)
    case KMulti => ReadMulti(src, declared)
    case KMultiResp => ReadMultiResp(src)
  }
}
