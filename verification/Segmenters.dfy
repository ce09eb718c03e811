/** The segment builders as the source writes them: loops over chunks. */
module Segmenters {
  import opened Bytes
  import opened Septets
  import opened Gsm7
  import opened Unicode
  import opened Splitters
  import opened Concatenation
  import opened Reassembly
  import opened Segmentation
  import opened SegmentLaws

  method SelectEncoding(t: text, allowSurrogates: bool) returns (r: Option<EncodedText>)
    ensures r == SelectText(t, allowSurrogates)
  {
    var septets := EncodeGSM7(t);
    if septets.Ok? {
      return Some(EncodedText(GSM7, septets.value, |septets.value|));
    }
    var ucs2 := EncodeUCS2(t);
    if ucs2.Ok? {
      return Some(EncodedText(UCS2, ucs2.value, |ucs2.value| / 2));
    }
    if !allowSurrogates {
      return None;
    }
    var utf16 := EncodeUTF16BE(t);
    return Some(EncodedText(UTF16BE, utf16, |utf16| / 2));
  }

  /** The content octets of one part. */
  method WireContent(carrier: Carrier, kind: Kind, chunk: bytes, headerOctets: nat) returns (r: Result<bytes>)
    requires kind.GSM7? ==> AreSeptets(chunk)
    ensures r == Ok(Wire(carrier, kind, chunk, headerOctets))
  {
    if kind.GSM7? && !carrier.Udh16? {
      r := PackSeptetsWithFill(chunk, FillBits(headerOctets));
    } else {
      r := Ok(chunk);
    }
  }

  method MakeSegment(carrier: Carrier, kind: Kind, reference: uint16, total: byte, i: nat, chunk: bytes)
      returns (p: Segment)
    requires i < 255 && (kind.GSM7? ==> AreSeptets(chunk))
    ensures p == Part(carrier, kind, reference, total, i, chunk)
  {
    var udh := HeaderFor(carrier, reference, total, i + 1);
    var content := WireContent(carrier, kind, chunk, |udh|);
    p := Segment(if carrier.Udh8? then reference % 256 else reference, total, i + 1, kind,
            CodingOf(kind), UnitsOf(kind, chunk),
                 chunk, udh, udh + content.value, if carrier.Sar? then SarTlvs(reference, total, i + 1) else []);
  }

  /** makeUDHSegments, makeUDH16UnpackedSegments and the SAR loop. */
  method MakeSegments(carrier: Carrier, kind: Kind, reference: uint16, chunks: seq<bytes>)
      returns (r: Result<seq<Segment>>)
    requires kind.GSM7? ==> forall i | 0 <= i < |chunks| :: AreSeptets(chunks[i])
    ensures var ps := Assemble(carrier, kind, reference, Some(chunks));
            r == if ps.Some? then Ok(ps.value) else Err(Rejected)
  {
    if |chunks| == 0 || |chunks| > 255 {
      return Err(Rejected);
    }
    var total: byte := |chunks|;
    var segments: seq<Segment> := [];
    for i := 0 to |chunks|
      invariant |segments| == i
      invariant forall k | 0 <= k < i :: segments[k] == Part(carrier, kind, reference, total, k, chunks[k])
    {
      var p := MakeSegment(carrier, kind, reference, total, i, chunks[i]);
      segments := segments + [p];
    }
    assert segments == Parts(carrier, kind, reference, chunks);
    r := Ok(segments);
  }

  method SplitContent(kind: Kind, data: bytes, room: Room) returns (r: Option<seq<bytes>>)
    requires 0 < room.octets && 0 < room.units
    ensures r == Chunks(kind, data, room)
  {
    match kind {
      case GSM7 =>
        var parts := SplitGSM7(data, room.septets);
        r := Some(parts);
      case UCS2 =>
        var parts := SplitBytesLoop(data, 2 * room.units);
        r := Some(parts);
      case UTF16BE =>
        var parts := SplitUTF16(data, room.units);
        r := if parts.Ok? then Some(parts.value) else None;
      case Binary =>
        var parts := SplitBytesLoop(data, room.octets);
        r := Some(parts);
    }
  }

  lemma ChunksAreSeptets(e: EncodedText, room: Room)
    requires Encoded(e) && e.kind.GSM7? && room.septets >= 2 && room.units > 0 && room.octets > 0
    ensures var cs := Chunks(e.kind, e.data, room).value; forall i | 0 <= i < |cs| :: AreSeptets(cs[i])
  {
    SplitGsmSound(e.data, room.septets);
    SeptetsOfParts(SplitGsm(e.data, room.septets));
  }

  /** SegmentTextUDH, SegmentBinaryUDH and the 16-bit forms, on encoded content. */
  method SegmentWithUDH(carrier: Carrier, e: EncodedText, reference: uint16) returns (r: Result<seq<Segment>>)
    requires Encoded(e) && !carrier.Sar?
    ensures var ps := SegmentUdh(carrier, e, reference);
            r == if ps.Some? then Ok(ps.value) else Err(Rejected)
  {
    if FitsOne(e) {
      var content := WireContent(carrier, e.kind, e.data, 0);
      return Ok([Segment(0, 1, 1, e.kind, CodingOf(e.kind), e.units, e.data, [], content.value, [])]);
    }
    var chunks := SplitContent(e.kind, e.data, MultiRoom(carrier));
    if chunks.None? {
      return Err(Rejected);
    }
    if e.kind.GSM7? { ChunksAreSeptets(e, MultiRoom(carrier)); }
    r := MakeSegments(carrier, e.kind, reference, chunks.value);
  }

  /** SegmentTextSAR and SegmentBinarySAR, on encoded content. */
  method SegmentWithSAR(e: EncodedText, reference: uint16) returns (r: Result<seq<Segment>>)
    requires Encoded(e)
    ensures var ps := SegmentSar(e, reference);
            r == if ps.Some? then Ok(ps.value) else Err(Rejected)
  {
    var chunks := SplitContent(e.kind, e.data, MultiRoom(Sar));
    if chunks.None? {
      return Err(Rejected);
    }
    if |chunks.value| <= 1 {
      r := SegmentWithUDH(Udh8, e, reference % 256);
      return;
    }
    if e.kind.GSM7? { ChunksAreSeptets(e, MultiRoom(Sar)); }
    r := MakeSegments(Sar, e.kind, reference, chunks.value);
  }

  /** SegmentTextUDH, SegmentTextUDH16Unpacked and SegmentTextSAR. */
  method SegmentText(carrier: Carrier, t: text, allowSurrogates: bool, reference: uint16)
      returns (r: Result<seq<Segment>>)
    ensures SelectText(t, allowSurrogates).None? ==> r == Err(Rejected)
    ensures SelectText(t, allowSurrogates).Some? ==>
              var ps := Segmented(carrier, SelectText(t, allowSurrogates).value, reference);
              r == if ps.Some? then Ok(ps.value) else Err(Rejected)
  {
    var e := SelectEncoding(t, allowSurrogates);
    if e.None? {
      return Err(Rejected);
    }
    SelectedIsEncoded(t, allowSurrogates);
    if carrier.Sar? {
      r := SegmentWithSAR(e.value, reference);
    } else {
      r := SegmentWithUDH(carrier, e.value, reference);
    }
  }

  /** SegmentBinaryUDH, SegmentBinaryUDH16 and SegmentBinarySAR. */
  method SegmentBinary(carrier: Carrier, data: bytes, reference: uint16) returns (r: Result<seq<Segment>>)
    ensures var ps := Segmented(carrier, BinaryText(data), reference);
            r == if ps.Some? then Ok(ps.value) else Err(Rejected)
  {
    if carrier.Sar? {
      r := SegmentWithSAR(BinaryText(data), reference);
    } else {
      r := SegmentWithUDH(carrier, BinaryText(data), reference);
    }
  }
}
