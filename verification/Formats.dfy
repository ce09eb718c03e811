/** The PDU formats of SMPP 3.4 sections 4 and 5.1.2.1 as tables: which command_id
    carries which body, and in which order, with which limits, its fields are on the wire.
    The codec is proved to read and write exactly these. */
module Formats {
  import opened Bytes
  import opened Fields
  import opened Bodies
  import opened BodyLaws
  import opened Pdu

  // ----- Fields -----

  /** A field with its value; the limit of a text counts its NUL. */
  datatype Field = Text(v: bytes, max: nat) | Octet(b: byte) | Word(n: uint32) | Octets(v: bytes) | Param(t: Tlv)

  datatype Layout = End | On(f: Field, next: Layout)

  /** Integers are most significant octet first. */
  function Octets4(n: uint32): (s: bytes)
  {
    [n / 0x100_0000, n / 0x1_0000 % 256, n / 256 % 256, n % 256]
  }

  function WireOf(f: Field): (s: bytes)
  {
    match f
    case Text(v, _) => v + [0]
    case Octet(b) => [b]
    case Word(n) => Octets4(n)
    case Octets(v) => v
    case Param(t) => [t.tag / 256, t.tag % 256, |t.value| / 256 % 256, |t.value| % 256] + t.value
  }

  function OctetsOf(l: Layout): (s: bytes)
  {
    match l
    case End => []
    case On(f, next) => WireOf(f) + OctetsOf(next)
  }

  predicate FieldFits(f: Field)
  {
    match f
    case Text(v, max) => 0 !in v && |v| + 1 <= max
    case Param(t) => |t.value| <= 65535
    case _ => true
  }

  predicate LayoutFits(l: Layout)
  {
    l.On? ==> FieldFits(l.f) && LayoutFits(l.next)
  }

  // ----- Bodies -----

  function AddressOn(a: Address, max: nat, next: Layout): (l: Layout)
  {
    On(Octet(a.ton), On(Octet(a.npi), On(Text(a.addr, max), next)))
  }

  function ParamsOn(ts: seq<Tlv>): (l: Layout)
  {
    if ts == [] then End else On(Param(ts[0]), ParamsOn(ts[1..]))
  }

  /** sm_length and short_message. */
  function ShortOn(text: bytes, next: Layout): (l: Layout)
  {
    On(Octet(|text| % 256), On(Octets(text), next))
  }

  /** esm_class to short_message of submit_sm, deliver_sm and submit_multi. */
  function MessageOn(m: Message): (l: Layout)
  {
    On(Octet(m.esmClass), On(Octet(m.protocolId), On(Octet(m.priority),
    On(Text(m.schedule, 17), On(Text(m.validity, 17),
    On(Octet(m.registered), On(Octet(m.replaceIfPresent), On(Octet(m.coding), On(Octet(m.defaultId),
    ShortOn(m.text, ParamsOn(m.optional)))))))))))
  }

  /** dest_flag 1 is an SME address, 2 the name of a distribution list. */
  function DestsOn(ds: seq<Destination>, next: Layout): (l: Layout)
  {
    if ds == [] then next
    else if ds[0].flag == 1 then
      On(Octet(1), On(Octet(ds[0].ton), On(Octet(ds[0].npi), On(Text(ds[0].name, 21), DestsOn(ds[1..], next)))))
    else On(Octet(ds[0].flag), On(Text(ds[0].name, 21), DestsOn(ds[1..], next)))
  }

  function EntriesOn(us: seq<Unsuccessful>, next: Layout): (l: Layout)
  {
    if us == [] then next else AddressOn(us[0].address, 21, On(Word(us[0].status), EntriesOn(us[1..], next)))
  }

  /** The fields of a typed body, in the order of section 4. */
  function LayoutOf(b: Body): (l: Layout)
  {
    match b
    case BindReq(id, pw, st, version, ton, npi, range) =>
      On(Text(id, 16), On(Text(pw, 9), On(Text(st, 13), On(Octet(version),
      AddressOn(Address(ton, npi, range), 41, End)))))
    case BindResp(id, o) => On(Text(id, 16), ParamsOn(o))
    case Outbind(id, pw) => On(Text(id, 16), On(Text(pw, 9), End))
    case SubmitSM(st, src, dst, m) => On(Text(st, 6), AddressOn(src, 21, AddressOn(dst, 21, MessageOn(m))))
    case DeliverSM(st, src, dst, m) => On(Text(st, 6), AddressOn(src, 21, AddressOn(dst, 21, MessageOn(m))))
    case SubmitMulti(st, src, ds, m) =>
      On(Text(st, 6), AddressOn(src, 21, On(Octet(|ds| % 256), DestsOn(ds, MessageOn(m)))))
    case DataSM(st, src, dst, esm, reg, cod, o) =>
      On(Text(st, 6), AddressOn(src, 65, AddressOn(dst, 65,
      On(Octet(esm), On(Octet(reg), On(Octet(cod), ParamsOn(o)))))))
    case SubmitSMResp(id, o) => On(Text(id, 65), ParamsOn(o))
    case DeliverSMResp(id, o) => On(Text(id, 65), ParamsOn(o))
    case DataSMResp(id, o) => On(Text(id, 65), ParamsOn(o))
    case SubmitMultiResp(id, us, o) => On(Text(id, 65), On(Octet(|us| % 256), EntriesOn(us, ParamsOn(o))))
    case QuerySM(id, src) => On(Text(id, 65), AddressOn(src, 21, End))
    case QuerySMResp(id, date, state, code, o) =>
      On(Text(id, 65), On(Text(date, 17), On(Octet(state), On(Octet(code), ParamsOn(o)))))
    case CancelSM(st, id, src, dst) =>
      On(Text(st, 6), On(Text(id, 65), AddressOn(src, 21, AddressOn(dst, 21, End))))
    case ReplaceSM(id, src, sched, val, reg, def, text) =>
      On(Text(id, 65), AddressOn(src, 21, On(Text(sched, 17), On(Text(val, 17),
      On(Octet(reg), On(Octet(def), ShortOn(text, End)))))))
    case AlertNotification(src, esme, o) => AddressOn(src, 65, AddressOn(esme, 65, ParamsOn(o)))
    case OptionalResp(o) => ParamsOn(o)
    case Raw(octets) => On(Octets(octets), End)
    case Empty => End
  }

  /** What a layout does not say: the limits of counts, and the payload that excludes a
      short message. */
  predicate CountsFit(b: Body)
  {
    match b
    case SubmitSM(_, _, _, m) => OneText(m)
    case DeliverSM(_, _, _, m) => OneText(m)
    case SubmitMulti(_, _, ds, m) =>
      1 <= |ds| <= 254 && (forall d | d in ds :: d.flag == 1 || d.flag == 2) && OneText(m)
    case SubmitMultiResp(_, us, _) => |us| <= 255
    case ReplaceSM(_, _, _, _, _, _, text) => |text| <= 254
    case _ => true
  }

  predicate OneText(m: Message)
  {
    |m.text| <= 254 && (m.text == [] || forall t | t in m.optional :: t.tag != 0x0424 || t.value == [])
  }

  // ----- The writers write the layout -----

  lemma Put16Is(n: uint16)
    ensures Put16(n) == [n / 256, n % 256]
  {
  }

  lemma Digits(a: byte, b: byte, c: byte, d: byte)
    ensures var n := a * 0x100_0000 + b * 0x1_0000 + c * 256 + d;
            && n / 0x100_0000 == a && n / 0x1_0000 == a * 256 + b && n / 256 == a * 0x1_0000 + b * 256 + c
            && n % 256 == d && n % 0x1_0000 == c * 256 + d
  {
  }

  lemma DigitsOf(n: uint32) returns (a: byte, b: byte, c: byte, d: byte)
    ensures n == a * 0x100_0000 + b * 0x1_0000 + c * 256 + d
  {
    var q1 := n / 256;
    var q2 := q1 / 256;
    a, b, c, d := q2 / 256, q2 % 256, q1 % 256, n % 256;
  }

  lemma Put32Digits(a: byte, b: byte, c: byte, d: byte)
    ensures Put32(a * 0x100_0000 + b * 0x1_0000 + c * 256 + d) == [a, b, c, d]
  {
    var n := a * 0x100_0000 + b * 0x1_0000 + c * 256 + d;
    Digits(a, b, c, d);
    assert Put16(a * 256 + b) == [a, b] && Put16(c * 256 + d) == [c, d];
    assert Put32(n) == Put16(a * 256 + b) + Put16(c * 256 + d);
  }

  lemma Octets4Digits(a: byte, b: byte, c: byte, d: byte)
    ensures Octets4(a * 0x100_0000 + b * 0x1_0000 + c * 256 + d) == [a, b, c, d]
  {
    Digits(a, b, c, d);
    assert (a * 256 + b) % 256 == b && (a * 0x1_0000 + b * 256 + c) % 256 == c;
  }

  lemma Put32Is(n: uint32)
    ensures Put32(n) == Octets4(n)
  {
    var a, b, c, d := DigitsOf(n);
    Put32Digits(a, b, c, d);
    Octets4Digits(a, b, c, d);
  }

  lemma LengthDigits(n: nat)
    ensures n % 0x1_0000 / 256 == n / 256 % 256 && n % 0x1_0000 % 256 == n % 256
  {
    var q, r := n / 0x1_0000, n % 0x1_0000;
    assert n == q * 0x1_0000 + r;
    assert n / 256 == q * 256 + r / 256;
  }

  lemma PutTlvIs(t: Tlv, rest: bytes)
    ensures PutTlv(t, rest) == WireOf(Param(t)) + rest
  {
    LengthDigits(|t.value|);
    Put16Is(t.tag);
    Put16Is(|t.value| % 0x1_0000);
    var a, b := Put16(t.tag), Put16(|t.value| % 0x1_0000);
    assert a + b == [a[0], a[1], b[0], b[1]];
  }

  lemma {:induction false} PutTlvsIs(ts: seq<Tlv>)
    ensures PutTlvs(ts) == OctetsOf(ParamsOn(ts))
  {
    if ts == [] {
    } else {
      PutTlvsIs(ts[1..]);
      PutTlvIs(ts[0], PutTlvs(ts[1..]));
    }
  }

  lemma Steps()
    ensures forall f, l :: OctetsOf(On(f, l)) == WireOf(f) + OctetsOf(l)
  {
  }

  lemma PutAIs(a: Address, max: nat, l: Layout)
    ensures PutA(a, OctetsOf(l)) == OctetsOf(AddressOn(a, max, l))
  {
    Steps();
  }

  lemma PutTextIs(text: bytes, l: Layout)
    ensures PutText(text, OctetsOf(l)) == OctetsOf(ShortOn(text, l))
  {
    Steps();
  }

  lemma PutMessageIs(m: Message)
    ensures PutMessage(m) == OctetsOf(MessageOn(m))
  {
    Steps();
    PutTlvsIs(m.optional);
    PutTextIs(m.text, ParamsOn(m.optional));
  }

  lemma {:induction false} PutDestsIs(ds: seq<Destination>, l: Layout)
    ensures PutDests(ds, OctetsOf(l)) == OctetsOf(DestsOn(ds, l))
  {
    if ds == [] {
    } else {
      Steps();
      PutDestsIs(ds[1..], l);
      assert PutDests(ds, OctetsOf(l)) == PutDest(ds[0], PutDests(ds[1..], OctetsOf(l)));
    }
  }

  lemma {:induction false} PutFailuresIs(us: seq<Unsuccessful>, l: Layout)
    ensures PutFailures(us, OctetsOf(l)) == OctetsOf(EntriesOn(us, l))
  {
    if us == [] {
    } else {
      Steps();
      PutFailuresIs(us[1..], l);
      Put32Is(us[0].status);
      PutAIs(us[0].address, 21, On(Word(us[0].status), EntriesOn(us[1..], l)));
      assert PutFailures(us, OctetsOf(l)) == PutFailure(us[0], PutFailures(us[1..], OctetsOf(l)));
    }
  }

  lemma ShortBodyIs(st: bytes, src: Address, dst: Address, m: Message)
    ensures PutC(st, PutA(src, PutA(dst, PutMessage(m)))) ==
            OctetsOf(On(Text(st, 6), AddressOn(src, 21, AddressOn(dst, 21, MessageOn(m)))))
  {
    Steps();
    PutMessageIs(m);
    PutAIs(dst, 21, MessageOn(m));
    PutAIs(src, 21, AddressOn(dst, 21, MessageOn(m)));
  }

  lemma MultiBodyIs(st: bytes, src: Address, ds: seq<Destination>, m: Message)
    ensures PutC(st, PutA(src, PutDestList(ds, PutMessage(m)))) ==
            OctetsOf(On(Text(st, 6), AddressOn(src, 21, On(Octet(|ds| % 256), DestsOn(ds, MessageOn(m))))))
  {
    var l := On(Octet(|ds| % 256), DestsOn(ds, MessageOn(m)));
    Steps();
    PutMessageIs(m);
    PutDestsIs(ds, MessageOn(m));
    assert PutDestList(ds, PutMessage(m)) == OctetsOf(l);
    PutAIs(src, 21, l);
  }

  lemma MultiRespBodyIs(id: bytes, us: seq<Unsuccessful>, o: seq<Tlv>)
    ensures PutC(id, PutFailureList(us, PutTlvs(o))) ==
            OctetsOf(On(Text(id, 65), On(Octet(|us| % 256), EntriesOn(us, ParamsOn(o)))))
  {
    Steps();
    PutTlvsIs(o);
    PutFailuresIs(us, ParamsOn(o));
  }

  lemma DataBodyIs(b: Body)
    requires b.DataSM?
    ensures PutBody(b) == OctetsOf(LayoutOf(b))
  {
    var l := On(Octet(b.esmClass), On(Octet(b.registered), On(Octet(b.coding), ParamsOn(b.optional))));
    Steps();
    PutTlvsIs(b.optional);
    PutAIs(b.dest, 65, l);
    PutAIs(b.source, 65, AddressOn(b.dest, 65, l));
  }

  lemma AlertBodyIs(src: Address, esme: Address, o: seq<Tlv>)
    ensures PutA(src, PutA(esme, PutTlvs(o))) == OctetsOf(AddressOn(src, 65, AddressOn(esme, 65, ParamsOn(o))))
  {
    PutTlvsIs(o);
    PutAIs(esme, 65, ParamsOn(o));
    PutAIs(src, 65, AddressOn(esme, 65, ParamsOn(o)));
  }

  lemma IdBodyIs(id: bytes, o: seq<Tlv>, max: nat)
    ensures PutC(id, PutTlvs(o)) == OctetsOf(On(Text(id, max), ParamsOn(o)))
  {
    Steps();
    PutTlvsIs(o);
  }

  lemma QueryRespBodyIs(b: Body)
    requires b.QuerySMResp?
    ensures PutBody(b) == OctetsOf(LayoutOf(b))
  {
    Steps();
    PutTlvsIs(b.optional);
  }

  lemma BindBodyIs(b: Body)
    requires b.BindReq?
    ensures PutBody(b) == OctetsOf(LayoutOf(b))
  {
    Steps();
    PutAIs(Address(b.ton, b.npi, b.addressRange), 41, End);
  }

  lemma CancelBodyIs(st: bytes, id: bytes, src: Address, dst: Address)
    ensures PutC(st, PutC(id, PutA(src, PutA(dst, [])))) ==
            OctetsOf(On(Text(st, 6), On(Text(id, 65), AddressOn(src, 21, AddressOn(dst, 21, End)))))
  {
    Steps();
    PutAIs(dst, 21, End);
    PutAIs(src, 21, AddressOn(dst, 21, End));
  }

  lemma QueryBodyIs(id: bytes, src: Address)
    ensures PutC(id, PutA(src, [])) == OctetsOf(On(Text(id, 65), AddressOn(src, 21, End)))
  {
    Steps();
    PutAIs(src, 21, End);
  }

  lemma OutbindBodyIs(id: bytes, pw: bytes)
    ensures PutC(id, PutC(pw, [])) == OctetsOf(On(Text(id, 16), On(Text(pw, 9), End)))
  {
    Steps();
  }

  lemma ReplaceBodyIs(b: Body)
    requires b.ReplaceSM?
    ensures PutBody(b) == OctetsOf(LayoutOf(b))
  {
    Steps();
    var l := On(Octet(b.registered), On(Octet(b.defaultId), ShortOn(b.text, End)));
    PutTextIs(b.text, End);
    PutAIs(b.source, 21, On(Text(b.schedule, 17), On(Text(b.validity, 17), l)));
  }

  lemma RequestIsLayout(b: Body)
    requires b.BindReq? || b.ReplaceSM? || b.DataSM? || b.AlertNotification?
    ensures PutBody(b) == OctetsOf(LayoutOf(b))
  {
    match b
    case BindReq(_, _, _, _, _, _, _) => BindBodyIs(b);
    case ReplaceSM(_, _, _, _, _, _, _) => ReplaceBodyIs(b);
    case AlertNotification(src, esme, o) => AlertBodyIs(src, esme, o);
    case DataSM(_, _, _, _, _, _, _) => DataBodyIs(b);
  }

  lemma SmallRequestIsLayout(b: Body)
    requires b.Outbind? || b.QuerySM? || b.CancelSM?
    ensures PutBody(b) == OctetsOf(LayoutOf(b))
  {
    match b
    case Outbind(id, pw) => OutbindBodyIs(id, pw);
    case QuerySM(id, src) => QueryBodyIs(id, src);
    case CancelSM(st, id, src, dst) => CancelBodyIs(st, id, src, dst);
  }

  lemma CarrierIsLayout(b: Body)
    requires b.SubmitSM? || b.DeliverSM? || b.SubmitMulti?
    ensures PutBody(b) == OctetsOf(LayoutOf(b))
  {
    match b
    case SubmitSM(st, src, dst, m) => ShortBodyIs(st, src, dst, m);
    case DeliverSM(st, src, dst, m) => ShortBodyIs(st, src, dst, m);
    case SubmitMulti(st, src, ds, m) => MultiBodyIs(st, src, ds, m);
  }

  lemma PlainIsLayout(b: Body)
    requires b.Raw? || b.Empty? || b.OptionalResp?
    ensures PutBody(b) == OctetsOf(LayoutOf(b))
  {
    match b
    case Raw(octets) =>
      Steps();
      assert octets + [] == octets;
    case OptionalResp(o) => PutTlvsIs(o);
    case Empty =>
  }

  predicate HasOneId(b: Body) { b.BindResp? || b.SubmitSMResp? || b.DeliverSMResp? || b.DataSMResp? }

  lemma ResponseIsLayout(b: Body)
    requires HasOneId(b)
    ensures PutBody(b) == OctetsOf(LayoutOf(b))
  {
    match b
    case BindResp(id, o) => IdBodyIs(id, o, 16);
    case SubmitSMResp(id, o) => IdBodyIs(id, o, 65);
    case DeliverSMResp(id, o) => IdBodyIs(id, o, 65);
    case DataSMResp(id, o) => IdBodyIs(id, o, 65);
  }

  /** Every body is written as its fields in the order of the standard. */
  lemma PutBodyIsLayout(b: Body)
    ensures PutBody(b) == OctetsOf(LayoutOf(b))
  {
    if b.SubmitSM? || b.DeliverSM? || b.SubmitMulti? {
      CarrierIsLayout(b);
    } else if b.BindReq? || b.ReplaceSM? || b.AlertNotification? || b.DataSM? {
      RequestIsLayout(b);
    } else if b.Outbind? || b.QuerySM? || b.CancelSM? {
      SmallRequestIsLayout(b);
    } else if HasOneId(b) {
      ResponseIsLayout(b);
    } else if b.QuerySMResp? {
      QueryRespBodyIs(b);
    } else if b.SubmitMultiResp? {
      MultiRespBodyIs(b.messageId, b.unsuccessful, b.optional);
    } else {
      PlainIsLayout(b);
    }
  }

  // ----- The writers accept what fits the layout -----

  lemma FitSteps()
    ensures forall f, l :: LayoutFits(On(f, l)) <==> FieldFits(f) && LayoutFits(l)
  {
  }

  lemma {:induction false} ParamsFit(ts: seq<Tlv>)
    ensures LayoutFits(ParamsOn(ts)) <==> Fits(ts)
  {
    if ts == [] {
    } else {
      ParamsFit(ts[1..]);
      assert ts == [ts[0]] + ts[1..];
    }
  }

  lemma AddressFits(a: Address, max: nat, l: Layout)
    ensures LayoutFits(AddressOn(a, max, l)) <==> FitsA(a, max) && LayoutFits(l)
  {
    FitSteps();
  }

  lemma MessageFits(m: Message)
    ensures FitsMessage(m) <==> LayoutFits(MessageOn(m)) && OneText(m)
  {
    FitSteps();
    ParamsFit(m.optional);
  }

  lemma {:induction false} DestsFit(ds: seq<Destination>, l: Layout)
    requires forall d | d in ds :: d.flag == 1 || d.flag == 2
    ensures LayoutFits(DestsOn(ds, l)) <==> FitsDests(ds) && LayoutFits(l)
  {
    if ds == [] {
    } else {
      FitSteps();
      assert ds[0] in ds && forall d | d in ds[1..] :: d in ds;
      DestsFit(ds[1..], l);
      assert FitsDests(ds) <==> FitsDest(ds[0]) && FitsDests(ds[1..]) by { assert ds == [ds[0]] + ds[1..]; }
    }
  }

  lemma {:induction false} EntriesFit(us: seq<Unsuccessful>, l: Layout)
    ensures LayoutFits(EntriesOn(us, l)) <==> FitsFailures(us) && LayoutFits(l)
  {
    if us == [] {
    } else {
      FitSteps();
      EntriesFit(us[1..], l);
      AddressFits(us[0].address, 21, On(Word(us[0].status), EntriesOn(us[1..], l)));
      assert us == [us[0]] + us[1..];
    }
  }

  lemma ShortFits(b: Body)
    requires b.SubmitSM? || b.DeliverSM?
    ensures FitsBody(b) <==> LayoutFits(LayoutOf(b)) && CountsFit(b)
  {
    FitSteps();
    MessageFits(b.message);
    AddressFits(b.dest, 21, MessageOn(b.message));
    AddressFits(b.source, 21, AddressOn(b.dest, 21, MessageOn(b.message)));
  }

  lemma MultiFits(b: Body)
    requires b.SubmitMulti?
    ensures FitsBody(b) <==> LayoutFits(LayoutOf(b)) && CountsFit(b)
  {
    FitSteps();
    MessageFits(b.message);
    if forall d | d in b.dests :: d.flag == 1 || d.flag == 2 {
      DestsFit(b.dests, MessageOn(b.message));
      AddressFits(b.source, 21, On(Octet(|b.dests| % 256), DestsOn(b.dests, MessageOn(b.message))));
    }
  }

  lemma MultiRespFits(b: Body)
    requires b.SubmitMultiResp?
    ensures FitsBody(b) <==> LayoutFits(LayoutOf(b)) && CountsFit(b)
  {
    FitSteps();
    ParamsFit(b.optional);
    EntriesFit(b.unsuccessful, ParamsOn(b.optional));
  }

  lemma DataFits(b: Body)
    requires b.DataSM? || b.AlertNotification?
    ensures FitsBody(b) <==> LayoutFits(LayoutOf(b)) && CountsFit(b)
  {
    FitSteps();
    ParamsFit(b.optional);
  }

  lemma IdFits(b: Body)
    requires b.BindResp? || b.SubmitSMResp? || b.DeliverSMResp? || b.DataSMResp? || b.QuerySMResp? || b.OptionalResp?
    ensures FitsBody(b) <==> LayoutFits(LayoutOf(b)) && CountsFit(b)
  {
    FitSteps();
    ParamsFit(b.optional);
  }

  lemma FixedFits(b: Body)
    requires b.BindReq? || b.Outbind? || b.QuerySM? || b.CancelSM? || b.ReplaceSM? || b.Raw? || b.Empty?
    ensures FitsBody(b) <==> LayoutFits(LayoutOf(b)) && CountsFit(b)
  {
    FitSteps();
  }

  /** A body is accepted exactly when every field is within the limit of the standard, with
      the counts and the payload rule. */
  lemma FitsBodyIsLayout(b: Body)
    ensures FitsBody(b) <==> LayoutFits(LayoutOf(b)) && CountsFit(b)
  {
    if b.SubmitSM? || b.DeliverSM? {
      ShortFits(b);
    } else if b.SubmitMulti? {
      MultiFits(b);
    } else if b.SubmitMultiResp? {
      MultiRespFits(b);
    } else if b.DataSM? || b.AlertNotification? {
      DataFits(b);
    } else if b.BindReq? || b.Outbind? || b.QuerySM? || b.CancelSM? || b.ReplaceSM? || b.Raw? || b.Empty? {
      FixedFits(b);
    } else {
      IdFits(b);
    }
  }

  // ----- Commands -----

  /** The command_id values of section 5.1.2.1 under which a typed body travels. */
  predicate CarriedBy(b: Body, id: uint32)
  {
    match b
    case BindReq(_, _, _, _, _, _, _) => id == 0x01 || id == 0x02 || id == 0x09
    case BindResp(_, _) => id == 0x8000_0001 || id == 0x8000_0002 || id == 0x8000_0009
    case QuerySM(_, _) => id == 0x03
    case QuerySMResp(_, _, _, _, _) => id == 0x8000_0003
    case SubmitSM(_, _, _, _) => id == 0x04
    case SubmitSMResp(_, _) => id == 0x8000_0004
    case DeliverSM(_, _, _, _) => id == 0x05
    case DeliverSMResp(_, _) => id == 0x8000_0005
    case ReplaceSM(_, _, _, _, _, _, _) => id == 0x07
    case CancelSM(_, _, _, _) => id == 0x08
    case Outbind(_, _) => id == 0x0B
    case SubmitMulti(_, _, _, _) => id == 0x21
    case SubmitMultiResp(_, _, _) => id == 0x8000_0021
    case AlertNotification(_, _, _) => id == 0x102
    case DataSM(_, _, _, _, _, _, _) => id == 0x103
    case DataSMResp(_, _) => id == 0x8000_0103
    case _ => false
  }

  predicate Typed(b: Body) { !b.Empty? && !b.OptionalResp? && !b.Raw? }

  /** unbind and enquire_link; generic_nack and the responses without a field. */
  predicate WithoutBody(id: uint32)
  {
    || id == 0x06 || id == 0x15 || id == 0x8000_0000 || id == 0x8000_0006 || id == 0x8000_0007
    || id == 0x8000_0008 || id == 0x8000_0015
  }

  lemma KindIsFor(id: uint32, b: Body)
    requires Typed(b)
    ensures KindOf(id).Some? && TypedFor(KindOf(id).value, b) <==> CarriedBy(b, id)
  {
  }

  lemma KindIsEmpty(id: uint32)
    ensures KindOf(id).Some? && (KindOf(id).value.KEmptyReq? || KindOf(id).value.KEmptyResp?) <==> WithoutBody(id)
  {
  }

  /** The commands of the registry. */
  predicate Registered(id: uint32)
  {
    || WithoutBody(id)
    || (0x01 <= id <= 0x05) || (0x07 <= id <= 0x09) || id == 0x0B || id == 0x21 || id == 0x102 || id == 0x103
    || (0x8000_0001 <= id <= 0x8000_0005) || id == 0x8000_0009 || id == 0x8000_0021 || id == 0x8000_0103
  }

  lemma KindIsRegistered(id: uint32)
    ensures KindOf(id).Some? <==> Registered(id)
  {
  }

  /** A request has its response registered under its own id with the response bit, unless it
      is an outbind or an alert_notification, which have none; and every response but the
      generic_nack is that of a registered request. */
  lemma ResponsesAreRegistered(id: uint32)
    requires id < 0x8000_0000
    ensures Registered(id) && id != 0x0B && id != 0x102 <==> Registered(id + 0x8000_0000) && id != 0
  {
  }

  // ----- Frames -----

  /** A frame with this header and this body, as the standard lays it out. */
  function FrameOf(h: Header, b: Body): (f: bytes)
  {
    Octets4(h.length) + Octets4(h.id) + Octets4(h.status) + Octets4(h.sequence) + OctetsOf(LayoutOf(b))
  }

  lemma PutHeaderIs(h: Header)
    ensures PutHeader(h) == Octets4(h.length) + Octets4(h.id) + Octets4(h.status) + Octets4(h.sequence)
  {
    Put32Is(h.length);
    Put32Is(h.id);
    Put32Is(h.status);
    Put32Is(h.sequence);
  }

  /** Rules of the decoders that neither the layout nor the counts say: a distribution list
      has no type of number, and sc_interface_version has one octet. */
  predicate ValuesFit(b: Body)
  {
    match b
    case SubmitMulti(_, _, ds, _) => forall d | d in ds && d.flag == 2 :: d.ton == 0 && d.npi == 0
    case BindResp(_, o) => forall t | t in o && t.tag == 0x0210 :: |t.value| == 1
    case _ => true
  }

  lemma ReadableIs(b: Body)
    ensures Readable(b) <==> ValuesFit(b)
  {
  }

  /** A well-formed PDU of status 0 with a typed body. */
  predicate WellFormed(h: Header, b: Body)
  {
    Typed(b) && h.status == 0 && CarriedBy(b, h.id) && LayoutFits(LayoutOf(b)) && CountsFit(b) && ValuesFit(b)
  }

  lemma CanonicalIsWellFormed(strict: bool, h: Header, b: Body)
    requires Typed(b) && h.status == 0
    ensures CanonicalPDU(strict, h, b) <==> WellFormed(h, b)
  {
    KindIsFor(h.id, b);
    FitsBodyIsLayout(b);
    ReadableIs(b);
  }

  lemma EncodedIsFrame(strict: bool, h: Header, b: Body)
    requires WellFormed(h, b) && |FrameOf(h, b)| < 0x1_0000_0000
    ensures EncodePDU(strict, h, b) == Ok(FrameOf(h.(length := |FrameOf(h, b)|), b))
  {
    CanonicalIsWellFormed(strict, h, b);
    KindIsFor(h.id, b);
    FitsBodyIsLayout(b);
    PutBodyIsLayout(b);
    PutHeaderIs(h.(length := |FrameOf(h, b)|));
    AssembledIs(h, PutBody(b));
  }

  lemma WellFormedDecodes(strict: bool, f: bytes, h: Header, b: Body)
    requires WellFormed(h, b) && h.length == |f| && f == FrameOf(h, b)
    ensures DecodePDU(strict, f) == Ok((h, b))
  {
    CanonicalIsWellFormed(strict, h, b);
    EncodedIsFrame(strict, h, b);
    DecodeEncodePDU(strict, h, b);
  }

  lemma DecodedIsWellFormed(strict: bool, f: bytes, h: Header, b: Body)
    requires Typed(b) && h.status == 0 && !(h.id == 0x8000_0005 && |f| == 16) && DecodePDU(strict, f) == Ok((h, b))
    ensures WellFormed(h, b) && h.length == |f| && f == FrameOf(h, b)
  {
    EncodeDecodePDU(strict, f, h, b);
    CanonicalIsWellFormed(strict, h, b);
    DecodedFrame(strict, f, h, b);
  }

  /** The decoder is the standard: for every frame, header with status 0 and typed body, the
      frame decodes to them if and only if the body's command_id is the header's, its fields
      are within their limits, and the frame is the four header words and then the fields in
      their order; the one exception is the successful deliver_sm_resp without its
      message_id, which is accepted. */
  lemma DecodesIffWellFormed(strict: bool, f: bytes, h: Header, b: Body)
    requires Typed(b) && h.status == 0 && !(h.id == 0x8000_0005 && |f| == 16)
    ensures DecodePDU(strict, f) == Ok((h, b)) <==> WellFormed(h, b) && h.length == |f| && f == FrameOf(h, b)
  {
    if DecodePDU(strict, f) == Ok((h, b)) {
      DecodedIsWellFormed(strict, f, h, b);
    }
    if WellFormed(h, b) && h.length == |f| && f == FrameOf(h, b) {
      WellFormedDecodes(strict, f, h, b);
    }
  }

  lemma DecodedFrame(strict: bool, f: bytes, h: Header, b: Body)
    requires WellFormed(h, b) && h.length == |f| < 0x1_0000_0000 && EncodePDU(strict, h, b) == Ok(f)
    ensures f == FrameOf(h, b)
  {
    KindIsFor(h.id, b);
    FitsBodyIsLayout(b);
    PutBodyIsLayout(b);
    PutHeaderIs(h);
    AssembledIs(h, PutBody(b));
  }

  // ----- The other frames -----

  /** The body of an error response that has none: every field empty or zero. */
  predicate ZeroBody(b: Body, id: uint32)
  {
    if WithoutBody(id) then b.Empty?
    else
      && CarriedBy(b, id)
      && match b
         case BindResp(i, o) => i == [] && o == []
         case SubmitSMResp(i, o) => i == [] && o == []
         case DeliverSMResp(i, o) => i == [] && o == []
         case DataSMResp(i, o) => i == [] && o == []
         case QuerySMResp(i, date, state, code, o) => i == [] && date == [] && state == 0 && code == 0 && o == []
         case SubmitMultiResp(i, us, o) => i == [] && us == [] && o == []
         case _ => false
  }

  /** What a response decodes to when it is refused, or has no field of its own. */
  predicate BareOrParams(f: bytes, h: Header, b: Body)
  {
    || (|f| == 16 && ZeroBody(b, h.id))
    || (b.OptionalResp? && b.optional != [] && LayoutFits(ParamsOn(b.optional)) && f == FrameOf(h, b))
  }

  lemma ZeroRespIs(k: Kind, id: uint32, b: Body)
    requires KindOf(id) == Some(k) && !IsRequestKind(k)
    ensures ZeroBody(b, id) <==> b == if k.KEmptyResp? then Empty else ZeroResp(k)
  {
  }

  lemma ParamsAre(src: bytes, b: Body)
    requires src != []
    ensures ReadOptionalResp(src) == Ok(b) <==>
            b.OptionalResp? && b.optional != [] && LayoutFits(ParamsOn(b.optional)) &&
                src == OctetsOf(ParamsOn(b.optional))
  {
    if b.OptionalResp? {
      ParamsFit(b.optional);
      PutTlvsIs(b.optional);
      if Fits(b.optional) {
        ReadPutTlvs(b.optional);
      }
    }
    if ReadTlvs(src).Ok? {
      ReadTlvsSound(src);
    }
  }

  lemma HeaderIs(f: bytes, h: Header)
    requires |f| >= 16
    ensures HeaderOf(f) == h <==> f[..16] == Octets4(h.length) + Octets4(h.id) + Octets4(h.status) + Octets4(h.sequence)
  {
    PutHeaderIs(h);
    PutHeaderOf(f);
    if f[..16] == PutHeader(h) {
      HeaderOfPut(h, f[16..]);
      assert f == PutHeader(h) + f[16..];
    }
  }

  lemma FrameOfSplits(f: bytes, h: Header, b: Body)
    requires |f| >= 16 && HeaderOf(f) == h
    ensures f == FrameOf(h, b) <==> f[16..] == OctetsOf(LayoutOf(b))
  {
    HeaderIs(f, h);
    assert f == f[..16] + f[16..];
  }

  /** A refused response, at any status but 0, and a response without fields at any status,
      decodes exactly to its zero body when the frame is a header alone, and otherwise
      exactly to the optional parameters that follow the header. */
  lemma RefusedDecodesIff(strict: bool, f: bytes, h: Header, b: Body)
    requires |f| >= 16 && HeaderOf(f) == h && h.length == |f| && h.id >= 0x8000_0000 && Registered(h.id)
    requires h.status != 0 || WithoutBody(h.id)
    ensures DecodePDU(strict, f) == Ok((h, b)) <==> BareOrParams(f, h, b)
  {
    KindIsRegistered(h.id);
    KindIsEmpty(h.id);
    var k := KindOf(h.id).value;
    ZeroRespIs(k, h.id, b);
    FrameOfSplits(f, h, b);
    if f[16..] != [] {
      ParamsAre(f[16..], b);
    }
  }

  /** What is wrong with a frame before its body is read; unknown commands pass as raw octets
      unless the registry is strict. */
  lemma FrameFaults(strict: bool, f: bytes)
    ensures |f| < 16 ==> DecodePDU(strict, f) == Err(Fatal(TruncatedFrame, 0))
    ensures |f| >= 16 ==>
              var h := HeaderOf(f);
              && (h.length < 16 ==> DecodePDU(strict, f) == Err(Fatal(InvalidCommandLength, h.length)))
              && (16 <= h.length && |f| < h.length ==> DecodePDU(strict, f) == Err(Fatal(TruncatedFrame, h.length)))
              && (16 <= h.length < |f| ==> DecodePDU(strict, f) == Err(Semantic(0x02)))
              && (h.length == |f| && !Registered(h.id) ==>
                    DecodePDU(strict, f) == if strict then Err(Rejected) else Ok((h, Raw(f[16..]))))
              && (h.length == |f| && Registered(h.id) && h.id < 0x8000_0000 && h.status != 0 ==>
                    DecodePDU(strict, f) == Err(Semantic(0x01)))
              && (h.length == |f| && (h.id == 0x06 || h.id == 0x15) && h.status == 0 ==>
                    DecodePDU(strict, f) == if |f| == 16 then Ok((h, Empty)) else Err(Semantic(0x02)))
  {
    if |f| >= 16 {
      KindIsRegistered(HeaderOf(f).id);
      KindIsEmpty(HeaderOf(f).id);
    }
  }
}
