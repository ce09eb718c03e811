/** Whole PDUs (codec/header.go, codec/pdu.go, codec/error_response.go): header,
    dispatch on command and status, and the two inverse laws. */
module Pdu {
  import opened Bytes
  import opened Fields
  import opened Bodies
  import opened BodyLaws

  const HEADER_SIZE := 16
  const RESPONSE_BIT: uint32 := 0x8000_0000

  datatype Header = Header(length: uint32, id: uint32, status: uint32, sequence: uint32)

  predicate IsResponse(id: uint32) { id >= RESPONSE_BIT }

  /** The SMPP 3.4 registry: which decoder/encoder pair serves a command. */
  function KindOf(id: uint32): (k: Option<Kind>)
    ensures k.Some? ==> (IsResponse(id) <==> !IsRequestKind(k.value))
  {
    if IsResponse(id) then
      var request := id - RESPONSE_BIT;
      if request in {0x00, 0x06, 0x07, 0x08, 0x15} then Some(KEmptyResp)
      else if request in {0x01, 0x02, 0x09} then Some(KBindResp)
      else if request == 0x03 then Some(KQueryResp)
      else if request == 0x04 then Some(KSubmitResp)
      else if request == 0x05 then Some(KDeliverResp)
      else if request == 0x21 then Some(KMultiResp)
      else if request == 0x103 then Some(KDataResp)
      else None
    else
      if id in {0x01, 0x02, 0x09} then Some(KBind)
      else if id == 0x03 then Some(KQuery)
      else if id == 0x04 then Some(KSubmit)
      else if id == 0x05 then Some(KDeliver)
      else if id in {0x06, 0x15} then Some(KEmptyReq)
      else if id == 0x07 then Some(KReplace)
      else if id == 0x08 then Some(KCancel)
      else if id == 0x0B then Some(KOutbind)
      else if id == 0x21 then Some(KMulti)
      else if id == 0x102 then Some(KAlert)
      else if id == 0x103 then Some(KData)
      else None
  }

  // ----- Bodies under a command and a status -----

  /** What the command's own encoder writes. */
  function EncodeBody(k: Kind, b: Body): (r: Result<bytes>)
  {
    if b.Empty? then
      if k.KDeliverResp? then Ok(PutBody(DeliverSMResp([], [])))
      else if k.KEmptyReq? || !IsRequestKind(k) then Ok([])
      else Err(Rejected)
    else if b.OptionalResp? then
      if !IsRequestKind(k) && FitsBody(b) then Ok(PutBody(b)) else Err(Rejected)
    else
      if TypedFor(k, b) && FitsBody(b) then Ok(PutBody(b)) else Err(Rejected)
  }

  /** The optional parameters of a response body. */
  function OptionalOf(b: Body): (o: seq<Tlv>)
  {
    match b
    case OptionalResp(o) => o
    case BindResp(_, o) => o
    case SubmitSMResp(_, o) => o
    case DeliverSMResp(_, o) => o
    case DataSMResp(_, o) => o
    case QuerySMResp(_, _, _, _, o) => o
    case SubmitMultiResp(_, _, o) => o
    case _ => []
  }

  /** A failed response carries its optional parameters and nothing else; its body
      is still validated by the command's encoder. */
  function EncodeUnder(k: Kind, status: uint32, b: Body): (r: Result<bytes>)
  {
    if !IsRequestKind(k) && status != 0 then
      var _ :- EncodeBody(k, b);
      Ok(PutTlvs(OptionalOf(b)))
    else EncodeBody(k, b)
  }

  /** The zero value of a response type. */
  function ZeroResp(k: Kind): (b: Body)
    requires !IsRequestKind(k) && !k.KEmptyResp?
  {
    match k
    case KBindResp => BindResp([], [])
    case KSubmitResp => SubmitSMResp([], [])
    case KDeliverResp => DeliverSMResp([], [])
    case KDataResp => DataSMResp([], [])
    case KQueryResp => QuerySMResp([], [], 0, 0, [])
    case KMultiResp => SubmitMultiResp([], [], [])
  }

  function ReadOptionalResp(src: bytes): (r: Result<Body>)
  {
    var o :- ReadTlvs(src);
    Ok(OptionalResp(o))
  }

  function DecodeUnder(k: Kind, status: uint32, src: bytes, declared: uint32): (r: Result<Body>)
  {
    if IsRequestKind(k) then
      if status != 0 then Err(Semantic(STATUS_INVALID_MESSAGE_LENGTH))
      else if k.KEmptyReq? then Done(Empty, src)
      else ReadBody(k, src, declared)
    else if k.KEmptyResp? then
      if src == [] then Ok(Empty) else ReadOptionalResp(src)
    else if status != 0 then
      if src == [] then Ok(ZeroResp(k)) else ReadOptionalResp(src)
    else if k.KDeliverResp? && src == [] then Ok(ZeroResp(k))
    else ReadBody(k, src, declared)
  }

  /** Response bodies that carry optional parameters only. */
  predicate OnlyOptional(b: Body)
  {
    b.OptionalResp? && b.optional != [] && Fits(b.optional)
  }

  /** The bodies a decoder can produce under a command and a status: the typed body
      of a request or of a success, and nothing but optional parameters otherwise. */
  predicate Canonical(k: Kind, status: uint32, b: Body)
  {
    if IsRequestKind(k) then
      status == 0 && if k.KEmptyReq? then b.Empty? else TypedFor(k, b) && FitsBody(b) && Readable(b)
    else if k.KEmptyResp? then b.Empty? || OnlyOptional(b)
    else if status != 0 then b == ZeroResp(k) || OnlyOptional(b)
    else TypedFor(k, b) && FitsBody(b) && Readable(b)
  }

  /** The one body that is accepted but never written: a successful deliver_sm_resp
      without its NUL message_id. */
  predicate BareDeliverResp(k: Kind, status: uint32, src: bytes)
  {
    k.KDeliverResp? && status == 0 && src == []
  }

  lemma EncodeZeroResp(k: Kind, status: uint32)
    requires !IsRequestKind(k) && !k.KEmptyResp? && status != 0
    ensures EncodeUnder(k, status, ZeroResp(k)) == Ok([])
  {
  }

  lemma EncodeOnlyOptional(k: Kind, status: uint32, b: Body)
    requires !IsRequestKind(k) && OnlyOptional(b)
    ensures EncodeUnder(k, status, b) == Ok(PutTlvs(b.optional))
  {
  }

  lemma ReadPutOptionalResp(b: Body)
    requires OnlyOptional(b)
    ensures PutTlvs(b.optional) != [] && ReadOptionalResp(PutTlvs(b.optional)) == Ok(b)
  {
    ReadPutTlvs(b.optional);
  }

  lemma TypedNotEmpty(k: Kind, b: Body)
    requires k.KDeliverResp? && TypedFor(k, b)
    ensures PutBody(b) != []
  {
  }

  lemma DecodeEncodeTyped(k: Kind, status: uint32, b: Body, declared: uint32)
    requires TypedFor(k, b) && FitsBody(b) && Readable(b) && status == 0
    ensures EncodeUnder(k, status, b) == Ok(PutBody(b))
    ensures DecodeUnder(k, status, PutBody(b), declared) == Ok(b)
  {
    ReadPutBody(k, b, declared);
    if k.KDeliverResp? {
      TypedNotEmpty(k, b);
    }
  }

  lemma DecodeEncodeRequest(k: Kind, status: uint32, b: Body, declared: uint32)
    requires Canonical(k, status, b) && IsRequestKind(k)
    ensures EncodeUnder(k, status, b).Ok?
    ensures DecodeUnder(k, status, EncodeUnder(k, status, b).value, declared) == Ok(b)
  {
    if !b.Empty? {
      ReadPutBody(k, b, declared);
    }
  }

  lemma DecodeEncodeResponse(k: Kind, status: uint32, b: Body, declared: uint32)
    requires Canonical(k, status, b) && !IsRequestKind(k)
    ensures EncodeUnder(k, status, b).Ok?
    ensures DecodeUnder(k, status, EncodeUnder(k, status, b).value, declared) == Ok(b)
  {
    if OnlyOptional(b) {
      EncodeOnlyOptional(k, status, b);
      ReadPutOptionalResp(b);
    } else if b.Empty? {
    } else if status != 0 {
      EncodeZeroResp(k, status);
    } else {
      DecodeEncodeTyped(k, status, b, declared);
    }
  }

  /** A canonical body is encoded, and decoding gives it back. */
  lemma DecodeEncodeBody(k: Kind, status: uint32, b: Body, declared: uint32)
    requires Canonical(k, status, b)
    ensures EncodeUnder(k, status, b).Ok?
    ensures DecodeUnder(k, status, EncodeUnder(k, status, b).value, declared) == Ok(b)
  {
    if IsRequestKind(k) {
      DecodeEncodeRequest(k, status, b, declared);
    } else {
      DecodeEncodeResponse(k, status, b, declared);
    }
  }

  /** Whatever is decoded is canonical, and encoding it again gives the same octets,
      except that a bare deliver_sm_resp gains its NUL. */
  lemma EncodeDecodeBody(k: Kind, status: uint32, src: bytes, declared: uint32, b: Body)
    requires DecodeUnder(k, status, src, declared) == Ok(b)
    ensures Canonical(k, status, b)
    ensures EncodeUnder(k, status, b) == Ok(if BareDeliverResp(k, status, src) then [0] else src)
  {
    if !IsRequestKind(k) && src != [] && (k.KEmptyResp? || status != 0) {
      ReadTlvsSound(src);
      EncodeOnlyOptional(k, status, b);
    } else if !IsRequestKind(k) && !k.KEmptyResp? && status != 0 {
      EncodeZeroResp(k, status);
    } else if BareDeliverResp(k, status, src) {
      assert PutBody(b) == [0];
    } else if !k.KEmptyReq? && !k.KEmptyResp? {
      ReadBodySound(k, src, declared, b);
    }
  }

  // ----- Headers and frames -----

  function PutHeader(h: Header): (s: bytes)
    ensures |s| == HEADER_SIZE
  {
    Put32(h.length) + Put32(h.id) + Put32(h.status) + Put32(h.sequence)
  }

  function HeaderOf(src: bytes): (h: Header)
    requires |src| >= HEADER_SIZE
  {
    Header(U32(src[0..4]), U32(src[4..8]), U32(src[8..12]), U32(src[12..16]))
  }

  lemma HeaderOfPut(h: Header, rest: bytes)
    ensures HeaderOf(PutHeader(h) + rest) == h
  {
    var s := PutHeader(h) + rest;
    assert s[0..4] == Put32(h.length) && s[4..8] == Put32(h.id);
    assert s[8..12] == Put32(h.status) && s[12..16] == Put32(h.sequence);
  }

  lemma PutHeaderOf(src: bytes)
    requires |src| >= HEADER_SIZE
    ensures PutHeader(HeaderOf(src)) == src[..HEADER_SIZE]
  {
    Put32Unique(src[0..4]);
    Put32Unique(src[4..8]);
    Put32Unique(src[8..12]);
    Put32Unique(src[12..16]);
    assert src[..16] == src[0..4] + src[4..8] + src[8..12] + src[12..16];
  }

  function DecodeHeader(src: bytes): (r: Result<Header>)
  {
    if |src| < HEADER_SIZE then Err(Fatal(TruncatedFrame, 0))
    else
      var h := HeaderOf(src);
      if h.length < HEADER_SIZE then Err(Fatal(InvalidCommandLength, h.length)) else Ok(h)
  }

  /** command_length of a frame of n octets: a 32-bit field. */
  function WireLength(n: nat): (w: uint32) { n % 0x1_0000_0000 }

  function Assemble(h: Header, body: bytes): (r: Result<bytes>)
  {
    var n := WireLength(HEADER_SIZE + |body|);
    if n < HEADER_SIZE then Err(Rejected) else Ok(PutHeader(h.(length := n)) + body)
  }

  /** One complete PDU; strict refuses commands the registry does not know. */
  function EncodePDU(strict: bool, h: Header, b: Body): (r: Result<bytes>)
  {
    match KindOf(h.id)
    case None => if !strict && b.Raw? then Assemble(h, b.octets) else Err(Rejected)
    case Some(k) =>
      var body :- EncodeUnder(k, h.status, b);
      Assemble(h, body)
  }

  function DecodePDU(strict: bool, frame: bytes): (r: Result<(Header, Body)>)
  {
    var h :- DecodeHeader(frame);
    if |frame| < h.length then Err(Fatal(TruncatedFrame, h.length))
    else if |frame| != h.length then Err(Semantic(STATUS_INVALID_COMMAND_LENGTH))
    else
      match KindOf(h.id)
      case None => if strict then Err(Rejected) else Ok((h, Raw(frame[HEADER_SIZE..])))
      case Some(k) =>
        var b :- DecodeUnder(k, h.status, frame[HEADER_SIZE..], h.length);
        Ok((h, b))
  }

  /** The PDUs the two directions agree on. */
  predicate CanonicalPDU(strict: bool, h: Header, b: Body)
  {
    match KindOf(h.id)
    case None => !strict && b.Raw?
    case Some(k) => Canonical(k, h.status, b)
  }

  lemma AssembledIs(h: Header, body: bytes)
    requires HEADER_SIZE + |body| < 0x1_0000_0000
    ensures Assemble(h, body) == Ok(PutHeader(h.(length := HEADER_SIZE + |body|)) + body)
  {
    assert WireLength(HEADER_SIZE + |body|) == HEADER_SIZE + |body|;
  }

  /** An assembled frame short enough for its length field decodes its own header. */
  lemma DecodeAssembled(strict: bool, h: Header, body: bytes)
    requires HEADER_SIZE + |body| < 0x1_0000_0000
    ensures var h' := h.(length := HEADER_SIZE + |body|);
            && Assemble(h, body) == Ok(PutHeader(h') + body)
            && HeaderOf(PutHeader(h') + body) == h'
            && (PutHeader(h') + body)[HEADER_SIZE..] == body
  {
    AssembledIs(h, body);
    HeaderOfPut(h.(length := HEADER_SIZE + |body|), body);
  }

  /** A PDU that was encoded within the 32-bit length comes back as it was sent,
      with its length filled in, exactly when it is canonical. */
  lemma DecodeEncodePDU(strict: bool, h: Header, b: Body)
    requires EncodePDU(strict, h, b).Ok?
    requires var f := EncodePDU(strict, h, b).value; |f| < 0x1_0000_0000
    ensures var f := EncodePDU(strict, h, b).value;
            DecodePDU(strict, f) == Ok((h.(length := |f|), b)) <==> CanonicalPDU(strict, h, b)
  {
    var f := EncodePDU(strict, h, b).value;
    match KindOf(h.id)
    case None =>
      DecodeAssembled(strict, h, b.octets);
    case Some(k) =>
      var body := EncodeUnder(k, h.status, b).value;
      AssembledLength(h, body);
      DecodeAssembled(strict, h, body);
      if Canonical(k, h.status, b) {
        DecodeEncodeBody(k, h.status, b, |f|);
      } else if DecodeUnder(k, h.status, body, |f|) == Ok(b) {
        EncodeDecodeBody(k, h.status, body, |f|, b);
      }
  }

  lemma AssembledLength(h: Header, body: bytes)
    requires Assemble(h, body).Ok?
    ensures |Assemble(h, body).value| == HEADER_SIZE + |body|
  {
  }

  predicate BareDeliverFrame(h: Header, f: bytes)
  {
    h.id == 0x8000_0005 && h.status == 0 && |f| == HEADER_SIZE
  }

  /** A frame is its decoded header followed by the rest. */
  lemma FrameParts(f: bytes, h: Header)
    requires |f| >= HEADER_SIZE && h == HeaderOf(f) && |f| == h.length
    ensures Assemble(h, f[HEADER_SIZE..]) == Ok(f)
  {
    var body := f[HEADER_SIZE..];
    AssembledIs(h, body);
    assert h.(length := HEADER_SIZE + |body|) == h;
    PutHeaderOf(f);
    assert f == f[..HEADER_SIZE] + body;
  }

  lemma BareDeliverGainsNul(strict: bool, h: Header, b: Body)
    requires h.id == 0x8000_0005 && h.status == 0 && b == DeliverSMResp([], [])
    ensures var g := PutHeader(h.(length := 17)) + [0];
            EncodePDU(strict, h, b) == Ok(g) && DecodePDU(strict, g) == Ok((h.(length := 17), b))
  {
    assert PutBody(b) == [0];
    DecodeEncodePDU(strict, h, b);
  }

  lemma EncodeDecodeKnown(strict: bool, f: bytes, h: Header, b: Body)
    requires DecodePDU(strict, f) == Ok((h, b)) && KindOf(h.id).Some?
    ensures CanonicalPDU(strict, h, b)
    ensures BareDeliverFrame(h, f) ==> b == DeliverSMResp([], [])
    ensures !BareDeliverFrame(h, f) ==> EncodePDU(strict, h, b) == Ok(f)
  {
    FrameParts(f, h);
    EncodeDecodeBody(KindOf(h.id).value, h.status, f[HEADER_SIZE..], h.length, b);
    KindOfDeliverResp(h.id);
  }

  lemma KindOfDeliverResp(id: uint32)
    ensures KindOf(id) == Some(KDeliverResp) <==> id == 0x8000_0005
  {
  }

  /** Every accepted frame re-encodes to itself octet for octet, at every status,
      except the bare successful deliver_sm_resp, which gains its NUL message_id and
      is stable from then on. */
  lemma EncodeDecodePDU(strict: bool, f: bytes, h: Header, b: Body)
    requires DecodePDU(strict, f) == Ok((h, b))
    ensures CanonicalPDU(strict, h, b)
    ensures !BareDeliverFrame(h, f) ==> EncodePDU(strict, h, b) == Ok(f)
    ensures BareDeliverFrame(h, f) ==>
              var g := PutHeader(h.(length := 17)) + [0];
              EncodePDU(strict, h, b) == Ok(g) && DecodePDU(strict, g) == Ok((h.(length := 17), b))
  {
    FrameParts(f, h);
    if KindOf(h.id).Some? {
      EncodeDecodeKnown(strict, f, h, b);
      if BareDeliverFrame(h, f) {
        BareDeliverGainsNul(strict, h, b);
      }
    }
  }

  function ResponseHeader(request: Header, id: uint32, status: uint32): (h: Header)
  {
    Header(0, id, status, request.sequence)
  }

  lemma EncodedHeader(strict: bool, h: Header, b: Body, g: bytes)
    requires EncodePDU(strict, h, b) == Ok(g) && |g| < 0x1_0000_0000
    ensures |g| >= HEADER_SIZE && HeaderOf(g) == h.(length := |g|) && g[12..16] == Put32(h.sequence)
  {
    var body := g[HEADER_SIZE..];
    match KindOf(h.id)
    case None =>
      DecodeAssembled(strict, h, b.octets);
    case Some(k) =>
      var sent := EncodeUnder(k, h.status, b).value;
      AssembledLength(h, sent);
      DecodeAssembled(strict, h, sent);
  }

  /** Of every frame f and every response that is encoded under the header made from
      it: the response carries the same four sequence octets as f, whatever number they
      are, and whoever decodes it finds f's sequence number, the response's command and
      its status, with the body as it was sent if that is canonical. */
  lemma ResponseAnswersRequest(strict: bool, f: bytes, id: uint32, status: uint32, b: Body, g: bytes)
    requires |f| >= HEADER_SIZE && |g| < 0x1_0000_0000
    requires EncodePDU(strict, ResponseHeader(HeaderOf(f), id, status), b) == Ok(g)
    ensures |g| >= HEADER_SIZE && g[12..16] == f[12..16]
    ensures DecodeHeader(g) == Ok(Header(|g|, id, status, HeaderOf(f).sequence))
    ensures DecodePDU(strict, g).Ok? ==> DecodePDU(strict, g).value.0 == Header(|g|, id, status, HeaderOf(f).sequence)
    ensures CanonicalPDU(strict, ResponseHeader(HeaderOf(f), id, status), b) ==>
              DecodePDU(strict, g) == Ok((Header(|g|, id, status, HeaderOf(f).sequence), b))
  {
    var h := ResponseHeader(HeaderOf(f), id, status);
    EncodedHeader(strict, h, b, g);
    Put32Unique(f[12..16]);
    DecodeEncodePDU(strict, h, b);
  }
}
