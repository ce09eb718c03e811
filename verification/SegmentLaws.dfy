/** Segmentation round trips: on the logical data in any arrival order, and on the wire
    as far as the wire goes. */
module SegmentLaws {
  import opened Bytes
  import opened Septets
  import opened Gsm7
  import opened Unicode
  import opened Splitters
  import opened Concatenation
  import opened Reassembly
  import opened Segmentation

  // ----- Chunks -----

  lemma {:induction false} SeptetsOfParts(parts: seq<bytes>)
    requires AreSeptets(Concat(parts))
    ensures forall i | 0 <= i < |parts| :: AreSeptets(parts[i])
  {
    if parts == [] {
    } else {
      var s := Concat(parts);
      assert s[..|parts[0]|] == parts[0] && s[|parts[0]|..] == Concat(parts[1..]);
      SeptetsOfParts(parts[1..]);
    }
  }

  /** The most octets a chunk holds. */
  function MostOctets(kind: Kind, room: Room): (n: nat)
  {
    match kind
    case GSM7 => room.septets
    case Binary => room.octets
    case UCS2 | UTF16BE => 2 * room.units
  }

  predicate NoLonger(cs: seq<bytes>, n: nat) { forall i | 0 <= i < |cs| :: |cs[i]| <= n }

  lemma PartDecodes(us: units)
    requires Decode16(us).Some?
    ensures DecodeUtf16be(PutUnits(us)).Some?
  {
    GetPutUnits(us);
  }

  lemma PutPartsSound(parts: seq<units>, low: nat, max: nat)
    requires Sized(parts, low, max) && AllDecode(parts)
    ensures NoLonger(PutParts(parts), 2 * max)
    ensures forall i | 0 <= i < |parts| :: DecodeUtf16be(PutParts(parts)[i]).Some?
  {
    forall i | 0 <= i < |parts|
      ensures DecodeUtf16be(PutParts(parts)[i]).Some?
    {
      PartDecodes(parts[i]);
    }
  }

  lemma SplitUtf16Sound(data: bytes, max: nat)
    requires max >= 2 && DecodeUtf16be(data).Some?
    ensures SplitUtf16(data, max).Some?
    ensures var cs := SplitUtf16(data, max).value;
            Concat(cs) == data && NoLonger(cs, 2 * max) && forall i | 0 <= i < |cs| :: DecodeUtf16be(cs[i]).Some?
  {
    SplitUnitsSound(GetUnits(data), max);
    var parts := SplitUnits(GetUnits(data), max).value;
    ConcatPutParts(parts);
    PutGetUnits(data);
    PutPartsSound(parts, max - 1, max);
  }

  /** Splitting encoded content never fails and loses nothing. */
  lemma ChunksSound(e: EncodedText, room: Room)
    requires Encoded(e) && room.septets >= 2 && room.units >= 2 && room.octets > 0
    ensures Chunks(e.kind, e.data, room).Some?
    ensures var cs := Chunks(e.kind, e.data, room).value;
            Concat(cs) == e.data && NoLonger(cs, MostOctets(e.kind, room))
  {
    match e.kind
    case GSM7 => SplitGsmSound(e.data, room.septets);
    case UCS2 => SplitBytesSound(e.data, 2 * room.units);
    case UTF16BE => SplitUtf16Sound(e.data, room.units);
    case Binary => SplitBytesSound(e.data, room.octets);
  }

  // ----- Reassembly of what was segmented -----

  lemma PartMatches(first: Segment, p: Segment, carrier: Carrier, kind: Kind, reference: uint16, total: byte, i: nat,
      c0: bytes, c: bytes)
    requires i < 255 && first == Part(carrier, kind, reference, total, 0, c0) &&
             p == Part(carrier, kind, reference, total, i, c)
    ensures Matches(first, p, i) && p.sequence == i + 1 && p.data == c && p.total == total
  {
  }

  lemma PartsMatch(carrier: Carrier, kind: Kind, reference: uint16, cs: seq<bytes>)
    requires 0 < |cs| <= 255
    ensures var ps := Parts(carrier, kind, reference, cs);
            && Numbered(ps) && ps[0].total == |ps|
            && (forall i | 0 <= i < |ps| :: Matches(ps[0], ps[i], i))
            && Datas(ps) == cs
  {
    var ps := Parts(carrier, kind, reference, cs);
    forall i | 0 <= i < |ps|
      ensures Matches(ps[0], ps[i], i) && ps[i].sequence == i + 1 && ps[i].data == cs[i] && ps[i].total == |cs|
    {
      PartMatches(ps[0], ps[i], carrier, kind, reference, |cs|, i, cs[0], cs[i]);
    }
  }

  lemma PartsReassemble(carrier: Carrier, kind: Kind, reference: uint16, cs: seq<bytes>, arrived: seq<Segment>)
    requires 0 < |cs| <= 255 && multiset(arrived) == multiset(Parts(carrier, kind, reference, cs))
    ensures Reassemble(arrived) == Some(Concat(cs))
  {
    PartsMatch(carrier, kind, reference, cs);
    ReassembleAnyOrder(Parts(carrier, kind, reference, cs), arrived);
  }

  lemma SingleReassembles(carrier: Carrier, e: EncodedText, arrived: seq<Segment>)
    requires multiset(arrived) == multiset([Single(carrier, e)])
    ensures Reassemble(arrived) == Some(e.data)
  {
    var p := [Single(carrier, e)];
    ReassembleAnyOrder(p, arrived);
    assert Datas(p) == [e.data];
    assert Concat([e.data]) == e.data by { assert [e.data][1..] == []; }
  }

  lemma UdhReassembles(carrier: Carrier, e: EncodedText, reference: uint16, arrived: seq<Segment>)
    requires Encoded(e) && !carrier.Sar? && SegmentUdh(carrier, e, reference).Some?
    requires multiset(arrived) == multiset(SegmentUdh(carrier, e, reference).value)
    ensures Reassemble(arrived) == Some(e.data)
  {
    if FitsOne(e) {
      SingleReassembles(carrier, e, arrived);
    } else {
      ChunksSound(e, MultiRoom(carrier));
      PartsReassemble(carrier, e.kind, reference, Chunks(e.kind, e.data, MultiRoom(carrier)).value, arrived);
    }
  }

  /** Whatever was segmented reassembles to its data, in any arrival order. */
  lemma ReassembleSegmented(carrier: Carrier, e: EncodedText, reference: uint16, arrived: seq<Segment>)
    requires Encoded(e) && Segmented(carrier, e, reference).Some?
    requires multiset(arrived) == multiset(Segmented(carrier, e, reference).value)
    ensures Reassemble(arrived) == Some(e.data)
  {
    if carrier.Sar? {
      ChunksSound(e, MultiRoom(Sar));
      var cs := Chunks(e.kind, e.data, MultiRoom(Sar)).value;
      if |cs| <= 1 {
        UdhReassembles(Udh8, e, reference % 256, arrived);
      } else {
        PartsReassemble(Sar, e.kind, reference, cs, arrived);
      }
    } else {
      UdhReassembles(carrier, e, reference, arrived);
    }
  }

  /** Every binary payload that segments comes back. */
  lemma BinaryRoundTrip(carrier: Carrier, data: bytes, reference: uint16, arrived: seq<Segment>)
    requires Segmented(carrier, BinaryText(data), reference).Some?
    requires multiset(arrived) == multiset(Segmented(carrier, BinaryText(data), reference).value)
    ensures Reassemble(arrived) == Some(data)
  {
    ReassembleSegmented(carrier, BinaryText(data), reference, arrived);
  }

  lemma SelectedIsEncoded(t: text, allowSurrogates: bool)
    requires SelectText(t, allowSurrogates).Some?
    ensures Encoded(SelectText(t, allowSurrogates).value)
  {
    DecodeSelected(t, allowSurrogates);
    if Encode(t).Some? { EncodedAreSeptets(t); }
  }

  lemma SameKind(carrier: Carrier, e: EncodedText, reference: uint16)
    requires Segmented(carrier, e, reference).Some?
    ensures var ps := Segmented(carrier, e, reference).value;
            ps != [] && forall i | 0 <= i < |ps| :: ps[i].kind == e.kind
  {
  }

  /** Every text that segments comes back as the same text, in any arrival order. */
  lemma TextRoundTrip(carrier: Carrier, t: text, allowSurrogates: bool, reference: uint16, arrived: seq<Segment>)
    requires SelectText(t, allowSurrogates).Some?
    requires var e := SelectText(t, allowSurrogates).value;
             Segmented(carrier, e, reference).Some? &&
                 multiset(arrived) == multiset(Segmented(carrier, e, reference).value)
    ensures DecodeText(arrived) == Some(t)
  {
    var e := SelectText(t, allowSurrogates).value;
    SelectedIsEncoded(t, allowSurrogates);
    ReassembleSegmented(carrier, e, reference, arrived);
    DecodeSelected(t, allowSurrogates);
    SameKind(carrier, e, reference);
    FirstArrived(arrived, Segmented(carrier, e, reference).value);
  }

  lemma FirstArrived(arrived: seq<Segment>, ps: seq<Segment>)
    requires multiset(arrived) == multiset(ps) && ps != []
    ensures arrived != [] && arrived[0] in ps
  {
    assert ps[0] in multiset(arrived);
    assert arrived != [];
    assert arrived[0] in multiset(ps);
  }

  // ----- The wire -----

  lemma WireFits(carrier: Carrier, kind: Kind, reference: uint16, total: byte, i: nat, chunk: bytes)
    requires i < 255 && |chunk| <= MostOctets(kind, MultiRoom(carrier)) && !(carrier.Udh16? && kind.GSM7?)
    ensures |Part(carrier, kind, reference, total, i, chunk).userData| <= 140
  {
  }

  lemma SingleFits(carrier: Carrier, e: EncodedText)
    requires Encoded(e) && FitsOne(e) && !(carrier.Udh16? && e.kind.GSM7?)
    ensures |Single(carrier, e).userData| <= 140
  {
  }

  lemma UdhFits(carrier: Carrier, e: EncodedText, reference: uint16, i: nat)
    requires Encoded(e) && !carrier.Sar? && SegmentUdh(carrier, e, reference).Some? && !(carrier.Udh16? && e.kind.GSM7?)
    requires i < |SegmentUdh(carrier, e, reference).value|
    ensures |SegmentUdh(carrier, e, reference).value[i].userData| <= 140
  {
    if FitsOne(e) {
      SingleFits(carrier, e);
    } else {
      ChunksSound(e, MultiRoom(carrier));
      var cs := Chunks(e.kind, e.data, MultiRoom(carrier)).value;
      WireFits(carrier, e.kind, reference, |cs|, i, cs[i]);
    }
  }

  /** Every packed, UCS-2, UTF-16 or binary part fits the 140 octets of a short message. */
  lemma EveryPartFits(carrier: Carrier, e: EncodedText, reference: uint16, i: nat)
    requires Encoded(e) && Segmented(carrier, e, reference).Some? && !(carrier.Udh16? && e.kind.GSM7?)
    requires i < |Segmented(carrier, e, reference).value|
    ensures |Segmented(carrier, e, reference).value[i].userData| <= 140
  {
    if carrier.Sar? {
      ChunksSound(e, MultiRoom(Sar));
      var cs := Chunks(e.kind, e.data, MultiRoom(Sar)).value;
      if |cs| <= 1 {
        UdhFits(Udh8, e, reference % 256, i);
      } else {
        WireFits(Sar, e.kind, reference, |cs|, i, cs[i]);
      }
    } else {
      UdhFits(carrier, e, reference, i);
    }
  }

  /** The header of a multipart part is read back from its user data alone. */
  lemma HeaderRecovered(carrier: Carrier, kind: Kind, reference: uint16, total: byte, i: nat, chunk: bytes)
    requires i < 255 && !carrier.Sar?
    ensures var p := Part(carrier, kind, reference, total, i, chunk);
            ParseUdh(p.userData) == Some(Udh(p.reference, p.total, p.sequence, |p.udh|))
  {
    if carrier.Udh8? {
      ParseBuilt8(reference % 256, total, i + 1, Wire(carrier, kind, chunk, 6));
    } else {
      ParseBuilt16(reference, total, i + 1, Wire(carrier, kind, chunk, 7));
    }
  }

  /** The octets after the header that ParseConcatUDH reports. */
  function ContentOf(userData: bytes): (s: bytes)
    requires ParseUdh(userData).Some? && ParseUdh(userData).value.headerLen <= |userData|
  {
    userData[ParseUdh(userData).value.headerLen..]
  }

  lemma ContentIsWire(carrier: Carrier, kind: Kind, reference: uint16, total: byte, i: nat, chunk: bytes)
    requires i < 255 && !carrier.Sar?
    ensures var p := Part(carrier, kind, reference, total, i, chunk);
            && ParseUdh(p.userData).Some? && ParseUdh(p.userData).value.headerLen == |p.udh| <= |p.userData|
            && ContentOf(p.userData) == Wire(carrier, kind, chunk, |p.udh|)
  {
    HeaderRecovered(carrier, kind, reference, total, i, chunk);
    var p := Part(carrier, kind, reference, total, i, chunk);
    assert p.userData[|p.udh|..] == Wire(carrier, kind, chunk, |p.udh|);
  }

  /** Unpacked, UCS-2, UTF-16 and binary content is the octets after the header. */
  lemma PlainContentRecovered(carrier: Carrier, kind: Kind, reference: uint16, total: byte, i: nat, chunk: bytes)
    requires i < 255 && !carrier.Sar? && !(carrier.Udh8? && kind.GSM7?)
    ensures var p := Part(carrier, kind, reference, total, i, chunk);
            ParseUdh(p.userData).Some? && ParseUdh(p.userData).value.headerLen <= |p.userData| &&
            ContentOf(p.userData) == p.data
  {
    ContentIsWire(carrier, kind, reference, total, i, chunk);
  }

  lemma EightBitFill()
    ensures FillBits(6) == 1
  {
  }

  /** What the packed octets of a part with an 8-bit header say about its septets. */
  predicate TellsUnlessMultipleOf8(c: bytes, chunk: bytes)
  {
    && c != [] && 1 + 7 * |chunk| <= 8 * |c|
    && Unpack(c, |chunk|, 1) == chunk
    && (Unpack(c, Capacity(|c|, 1), 1) == chunk <==> |chunk| % 8 != 0)
  }

  lemma PackedTells(chunk: bytes)
    requires AreSeptets(chunk) && chunk != []
    ensures TellsUnlessMultipleOf8(Pack(chunk, 1), chunk)
  {
    UnpackPack(chunk, 1);
    RecoverableIff(chunk, 1);
  }

  lemma PackedPartIs(reference: uint16, total: byte, i: nat, chunk: bytes)
    requires i < 255
    ensures var p := Part(Udh8, GSM7, reference, total, i, chunk);
            p.units == |chunk| && p.data == chunk && |p.udh| == 6 && Wire(Udh8, GSM7, chunk, 6) == Pack(chunk, 1)
  {
    EightBitFill();
  }

  /** Packed content comes back with the septet count; from the user data alone, taking
      as many septets as fit, exactly when the count is not a multiple of eight. */
  lemma PackedContentRecoveredIff(reference: uint16, total: byte, i: nat, chunk: bytes)
    requires i < 255 && AreSeptets(chunk) && chunk != []
    ensures var p := Part(Udh8, GSM7, reference, total, i, chunk);
            && p.units == |chunk| && p.data == chunk
            && ParseUdh(p.userData).Some? && ParseUdh(p.userData).value.headerLen <= |p.userData|
            && TellsUnlessMultipleOf8(ContentOf(p.userData), chunk)
  {
    PackedPartIs(reference, total, i, chunk);
    ContentIsWire(Udh8, GSM7, reference, total, i, chunk);
    PackedTells(chunk);
  }

  /** Then no reader of the user data can tell: a part of 8k septets and the same part
      with one more zero septet have the same octets. */
  lemma PackedContentIsAmbiguous(reference: uint16, total: byte, i: nat, chunk: bytes)
    requires i < 255 && AreSeptets(chunk) && |chunk| % 8 == 0
    ensures Part(Udh8, GSM7, reference, total, i, chunk).userData ==
            Part(Udh8, GSM7, reference, total, i, chunk + [0]).userData
  {
    EightBitFill();
    PhantomSeptet(chunk, 1);
  }

  // ----- Every part decodes alone -----

  lemma {:induction false} DecodePartsAll(parts: seq<bytes>)
    requires DecodeParts(parts).Some?
    ensures forall i | 0 <= i < |parts| :: Decode(parts[i]).Some?
  {
    if parts == [] {
    } else {
      DecodePartsAll(parts[1..]);
    }
  }

  lemma {:induction false} Ucs2PartsDecode(data: bytes, max: nat)
    requires max > 0 && DecodeUcs2(data).Some?
    ensures forall i | 0 <= i < |SplitBytes(data, 2 * max)| :: DecodeUcs2(SplitBytes(data, 2 * max)[i]).Some?
    decreases |data|
  {
    if data == [] {
    } else {
      var n := if |data| < 2 * max then |data| else 2 * max;
      Ucs2Cut(data, n);
      Ucs2PartsDecode(data[n..], max);
    }
  }

  lemma SliceIsUcs2(data: bytes, a: nat, b: nat)
    requires DecodeUcs2(data).Some? && a <= b && 2 * b <= |data|
    ensures DecodeUcs2(data[2 * a..2 * b]).Some?
  {
    SliceUnits(data, a, b);
    GetPutUnits(GetUnits(data)[a..b]);
  }

  lemma Ucs2Cut(data: bytes, n: nat)
    requires DecodeUcs2(data).Some? && n <= |data| && n % 2 == 0
    ensures DecodeUcs2(data[..n]).Some? && DecodeUcs2(data[n..]).Some?
  {
    SliceIsUcs2(data, 0, n / 2);
    SliceIsUcs2(data, n / 2, |data| / 2);
    assert data[0..n] == data[..n] && data[n..|data|] == data[n..];
  }

  /** No chunk of a text separates an escape or a surrogate pair: each one decodes. */
  lemma EveryChunkDecodes(e: EncodedText, room: Room)
    requires Encoded(e) && !e.kind.Binary? && room.septets >= 2 && room.units >= 2 && room.octets > 0
    ensures Chunks(e.kind, e.data, room).Some?
    ensures var cs := Chunks(e.kind, e.data, room).value; forall i | 0 <= i < |cs| :: DecodeAs(e.kind, cs[i]).Some?
  {
    match e.kind
    case GSM7 =>
      SplitGsmDecodes(e.data, room.septets);
      DecodePartsAll(SplitGsm(e.data, room.septets));
    case UCS2 => Ucs2PartsDecode(e.data, room.units);
    case UTF16BE => SplitUtf16Sound(e.data, room.units);
  }
}
