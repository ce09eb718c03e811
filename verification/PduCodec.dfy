/** DecodePDU and EncodePDU as the source writes them (codec/pdu.go, codec/header.go,
    codec/error_response.go): dispatch to the body coders, a header reserved in front
    of the body and written back once the length is known. */
module PduCodec {
  import opened Bytes
  import opened Fields
  import opened Bodies
  import opened Decoders
  import opened Encoders
  import opened Pdu
  import Spec = Pdu

  // ----- Decoding -----

  method DecodeRequestBody(k: Kind, src: bytes, declared: uint32) returns (r: Result<Body>)
    requires IsRequestKind(k) && !k.KEmptyReq?
    ensures r == ReadBody(k, src, declared)
  {
    match k {
      case KBind => r := DecodeBind(src);
      case KSubmit =>
        var v :- DecodeShort(src);
        r := Ok(SubmitSM(v.0, v.1, v.2, v.3));
      case KDeliver =>
        var v :- DecodeShort(src);
        r := Ok(DeliverSM(v.0, v.1, v.2, v.3));
      case KData => r := DecodeData(src);
      case KQuery => r := DecodeQuery(src);
      case KCancel => r := DecodeCancel(src);
      case KReplace => r := DecodeReplace(src);
      case KAlert => r := DecodeAlert(src);
      case KOutbind => r := DecodeOutbind(src);
      case KMulti => r := DecodeMulti(src, declared);
    }
  }

  method DecodeResponseBody(k: Kind, src: bytes, declared: uint32) returns (r: Result<Body>)
    requires !IsRequestKind(k) && !k.KEmptyResp?
    ensures r == ReadBody(k, src, declared)
  {
    match k {
      case KBindResp => r := DecodeBindResp(src);
      case KSubmitResp =>
        var v :- DecodeIdAndTlvs(src, MAX_MESSAGE_ID);
        r := Ok(SubmitSMResp(v.0, v.1));
      case KDeliverResp =>
        var v :- DecodeIdAndTlvs(src, MAX_MESSAGE_ID);
        r := Ok(DeliverSMResp(v.0, v.1));
      case KDataResp =>
        var v :- DecodeIdAndTlvs(src, MAX_MESSAGE_ID);
        r := Ok(DataSMResp(v.0, v.1));
      case KQueryResp => r := DecodeQueryResp(src);
      case KMultiResp => r := DecodeMultiResp(src);
    }
  }

  method DecodeOptionalResp(src: bytes) returns (r: Result<Body>)
    ensures r == ReadOptionalResp(src)
  {
    var rd := new BodyReader(src);
    var o :- rd.Optional();
    r := Ok(OptionalResp(o));
  }

  method DecodeBody(k: Kind, status: uint32, src: bytes, declared: uint32) returns (r: Result<Body>)
    ensures r == DecodeUnder(k, status, src, declared)
  {
    if IsRequestKind(k) {
      if status != 0 {
        return Err(Semantic(STATUS_INVALID_MESSAGE_LENGTH));
      }
      if k.KEmptyReq? {
        return if src != [] then Err(Semantic(STATUS_INVALID_COMMAND_LENGTH)) else Ok(Empty);
      }
      r := DecodeRequestBody(k, src, declared);
    } else if k.KEmptyResp? {
      if src == [] {
        return Ok(Empty);
      }
      r := DecodeOptionalResp(src);
    } else if status != 0 {
      if src == [] {
        return Ok(ZeroResp(k));
      }
      r := DecodeOptionalResp(src);
    } else {
      if k.KDeliverResp? && src == [] {
        return Ok(ZeroResp(k));
      }
      r := DecodeResponseBody(k, src, declared);
    }
  }

  method ReadHeader(src: bytes) returns (r: Result<Header>)
    ensures r == DecodeHeader(src)
  {
    if |src| < HEADER_SIZE {
      return Err(Fatal(TruncatedFrame, 0));
    }
    var h := Header(U32(src[0..4]), U32(src[4..8]), U32(src[8..12]), U32(src[12..16]));
    if h.length < HEADER_SIZE {
      return Err(Fatal(InvalidCommandLength, h.length));
    }
    r := Ok(h);
  }

  method DecodePDU(strict: bool, frame: bytes) returns (r: Result<(Header, Body)>)
    ensures r == Spec.DecodePDU(strict, frame)
  {
    var h :- ReadHeader(frame);
    if |frame| < h.length {
      return Err(Fatal(TruncatedFrame, h.length));
    }
    if |frame| != h.length {
      return Err(Semantic(STATUS_INVALID_COMMAND_LENGTH));
    }
    var kind := KindOf(h.id);
    if kind.None? {
      return if strict then Err(Rejected) else Ok((h, Raw(frame[HEADER_SIZE..])));
    }
    var b :- DecodeBody(kind.value, h.status, frame[HEADER_SIZE..], h.length);
    r := Ok((h, b));
  }

  // ----- Encoding -----

  method EncodeRequestBody(dst: bytes, b: Body) returns (r: Result<bytes>)
    requires b.BindReq? || b.SubmitSM? || b.DeliverSM? || b.DataSM? || b.QuerySM? || b.CancelSM? || b.ReplaceSM? ||
             b.AlertNotification? || b.Outbind? || b.SubmitMulti?
    ensures r.Ok? <==> FitsBody(b)
    ensures r.Ok? ==> r.value == dst + PutBody(b)
  {
    match b {
      case BindReq(_, _, _, _, _, _, _) => r := EncodeBind(dst, b);
      case SubmitSM(st, source, dest, m) => r := EncodeShort(dst, st, source, dest, m);
      case DeliverSM(st, source, dest, m) => r := EncodeShort(dst, st, source, dest, m);
      case DataSM(_, _, _, _, _, _, _) => r := EncodeData(dst, b);
      case QuerySM(_, _) => r := EncodeQuery(dst, b);
      case CancelSM(_, _, _, _) => r := EncodeCancel(dst, b);
      case ReplaceSM(_, _, _, _, _, _, _) => r := EncodeReplace(dst, b);
      case AlertNotification(_, _, _) => r := EncodeAlert(dst, b);
      case Outbind(_, _) => r := EncodeOutbind(dst, b);
      case SubmitMulti(_, _, _, _) => r := EncodeMulti(dst, b);
    }
  }

  method EncodeResponseBody(dst: bytes, b: Body) returns (r: Result<bytes>)
    requires b.BindResp? || b.SubmitSMResp? || b.DeliverSMResp? || b.DataSMResp? || b.QuerySMResp? || b.SubmitMultiResp?
    ensures r.Ok? <==> FitsBody(b)
    ensures r.Ok? ==> r.value == dst + PutBody(b)
  {
    match b {
      case BindResp(id, o) => r := AppendIdAndTlvs(dst, id, MAX_SYSTEM_ID, o);
      case SubmitSMResp(id, o) => r := AppendIdAndTlvs(dst, id, MAX_MESSAGE_ID, o);
      case DeliverSMResp(id, o) => r := AppendIdAndTlvs(dst, id, MAX_MESSAGE_ID, o);
      case DataSMResp(id, o) => r := AppendIdAndTlvs(dst, id, MAX_MESSAGE_ID, o);
      case QuerySMResp(_, _, _, _, _) => r := EncodeQueryResp(dst, b);
      case SubmitMultiResp(_, _, _) => r := EncodeMultiResp(dst, b);
    }
  }

  method EncodeTyped(dst: bytes, k: Kind, b: Body) returns (r: Result<bytes>)
    requires TypedFor(k, b)
    ensures r.Ok? <==> FitsBody(b)
    ensures r.Ok? ==> r.value == dst + PutBody(b)
  {
    if IsRequestKind(k) {
      r := EncodeRequestBody(dst, b);
    } else {
      r := EncodeResponseBody(dst, b);
    }
  }

  /** The command's own encoder: it accepts its typed body, and for responses the empty
      and the optional-only body. */
  method AppendBody(dst: bytes, k: Kind, b: Body) returns (r: Result<bytes>)
    ensures r.Ok? <==> EncodeBody(k, b).Ok?
    ensures r.Ok? ==> r.value == dst + EncodeBody(k, b).value
  {
    if b.Empty? {
      if k.KDeliverResp? {
        r := EncodeResponseBody(dst, DeliverSMResp([], []));
      } else if k.KEmptyReq? || !IsRequestKind(k) {
        assert dst + [] == dst;
        r := Ok(dst);
      } else {
        r := Err(Rejected);
      }
    } else if b.OptionalResp? {
      if IsRequestKind(k) {
        return Err(Rejected);
      }
      r := AppendOptional(dst, b.optional);
    } else if TypedFor(k, b) {
      r := EncodeTyped(dst, k, b);
    } else {
      r := Err(Rejected);
    }
  }

  lemma OptionalOfFits(k: Kind, b: Body)
    requires EncodeBody(k, b).Ok?
    ensures Fits(OptionalOf(b)) || IsRequestKind(k)
  {
  }

  /** appendErrorResponseBody: validated in full, written as optional parameters only. */
  method AppendErrorBody(dst: bytes, k: Kind, b: Body) returns (r: Result<bytes>)
    requires !IsRequestKind(k)
    ensures r.Ok? <==> EncodeBody(k, b).Ok?
    ensures r.Ok? ==> r.value == dst + PutTlvs(OptionalOf(b))
  {
    var _ :- AppendBody([], k, b);
    OptionalOfFits(k, b);
    r := AppendOptional(dst, OptionalOf(b));
  }

  /** Four octets in place. */
  function Written32(s: bytes, at: nat, n: uint32): (t: bytes)
    requires at + 4 <= |s|
    ensures |t| == |s|
  {
    s[..at] + Put32(n) + s[at + 4..]
  }

  /** The next field of the header, behind those already written. */
  lemma WrittenBehind(dst: bytes, front: bytes, done: bytes, start: nat, n: uint32)
    requires start + |done| + 4 <= |dst| && front == dst[..start]
    ensures |front + done + dst[start + |done|..]| == |dst|
    ensures Written32(front + done + dst[start + |done|..], start + |done|, n) ==
            front + (done + Put32(n)) + dst[start + |done| + 4..]
  {
    var s := front + done + dst[start + |done|..];
    assert s[..start + |done|] == front + done;
    assert s[start + |done| + 4..] == dst[start + |done| + 4..];
  }

  /** EncodeHeader into the octets reserved at `start`. */
  method WriteHeader(dst: bytes, start: nat, h: Header) returns (r: Result<bytes>)
    requires start + HEADER_SIZE <= |dst|
    ensures r.Ok? <==> h.length >= HEADER_SIZE
    ensures r.Ok? ==> r.value == dst[..start] + PutHeader(h) + dst[start + HEADER_SIZE..]
  {
    if h.length < HEADER_SIZE {
      return Err(Rejected);
    }
    var out := Written32(dst, start, h.length);
    WrittenBehind(dst, dst[..start], Put32(h.length), start, h.id);
    out := Written32(out, start + 4, h.id);
    WrittenBehind(dst, dst[..start], Put32(h.length) + Put32(h.id), start, h.status);
    out := Written32(out, start + 8, h.status);
    WrittenBehind(dst, dst[..start], Put32(h.length) + Put32(h.id) + Put32(h.status), start, h.sequence);
    out := Written32(out, start + 12, h.sequence);
    r := Ok(out);
  }

  /** The common end of both encoding paths. */
  method FinishFrame(dst: bytes, start: nat, h: Header, ghost body: bytes) returns (r: Result<bytes>)
    requires start + HEADER_SIZE <= |dst| && dst[start + HEADER_SIZE..] == body
    ensures r.Ok? <==> Assemble(h, body).Ok?
    ensures r.Ok? ==> r.value == dst[..start] + Assemble(h, body).value
  {
    var length := (|dst| - start) % 0x1_0000_0000;
    r := WriteHeader(dst, start, h.(length := length));
    assert |dst| - start == HEADER_SIZE + |body|;
    if r.Ok? {
      assert r.value == dst[..start] + (PutHeader(h.(length := length)) + body);
    }
  }

  /** The body behind its reserved header, under the command and the status. */
  method AppendUnder(dst: bytes, k: Kind, status: uint32, b: Body) returns (r: Result<bytes>)
    ensures r.Ok? <==> EncodeUnder(k, status, b).Ok?
    ensures r.Ok? ==> r.value == dst + EncodeUnder(k, status, b).value
  {
    if !IsRequestKind(k) && status != 0 {
      r := AppendErrorBody(dst, k, b);
    } else {
      r := AppendBody(dst, k, b);
    }
  }

  /** Appends one frame to the buffer; refused exactly when the encoder refuses, and
      what is appended is the frame, whatever was in the buffer. */
  method EncodePDU(strict: bool, dst: bytes, h: Header, b: Body) returns (r: Result<bytes>)
    ensures r.Ok? <==> Spec.EncodePDU(strict, h, b).Ok?
    ensures r.Ok? ==> r.value == dst + Spec.EncodePDU(strict, h, b).value
  {
    var kind := KindOf(h.id);
    var start := |dst|;
    var reserved := dst + seq(HEADER_SIZE, _ => 0);
    if kind.None? {
      if strict || !b.Raw? {
        return Err(Rejected);
      }
      var out := reserved + b.octets;
      assert out[start + HEADER_SIZE..] == b.octets && out[..start] == dst;
      r := FinishFrame(out, start, h, b.octets);
      return;
    }
    var out :- AppendUnder(reserved, kind.value, h.status, b);
    ghost var body := EncodeUnder(kind.value, h.status, b).value;
    assert out[start + HEADER_SIZE..] == body && out[..start] == dst;
    r := FinishFrame(out, start, h, body);
  }
}
