/** What the parts of a message carry beside their content, octet by octet, and which
    octets and parameters are taken for a concatenation (message/message.go; GSM 03.40
    section 9.2.3.24, SMPP 3.4 sections 5.3.2.22 to 5.3.2.24). */
module PartHeaders {
  import opened Bytes
  import opened Fields
  import opened Septets
  import opened Unicode
  import opened Concatenation
  import opened Reassembly
  import opened Segmentation
  import opened SegmentLaws
  import opened PackedNumbers
  import opened PartSizes

  // ----- What is sent -----

  function Coding(kind: Kind): (c: byte)
  {
    match kind
    case GSM7 => 0x00
    case Binary => 0x04
    case UCS2 | UTF16BE => 0x08
  }

  function HeaderOctetsOf(carrier: Carrier, reference: uint16, total: byte, sequence: byte): (h: bytes)
  {
    match carrier
    case Udh8 => [0x05, 0x00, 0x03, reference % 256, total, sequence]
    case Udh16 => [0x06, 0x08, 0x04, reference / 256, reference % 256, total, sequence]
    case Sar => []
  }

  function ParametersOf(carrier: Carrier, reference: uint16, total: byte, sequence: byte): (ts: seq<Tlv>)
  {
    if carrier.Sar? then
      [Tlv(0x020c, [reference / 256, reference % 256]), Tlv(0x020e, [total]), Tlv(0x020f, [sequence])]
    else []
  }

  /** The content after the header: the octets themselves, or the septets packed from the
      next septet boundary on, which is one bit after six octets. */
  predicate Carries(carrier: Carrier, kind: Kind, header: bytes, data: bytes, userData: bytes)
  {
    && header <= userData
    && var content := userData[|header|..];
       if !kind.GSM7? || carrier.Udh16? then content == data
       else if header == [] then
         |content| == (7 * |data| + 7) / 8 && FromOctets(content) == FromSeptets(data)
       else
         |content| == (7 * |data| + 8) / 8 && FromOctets(content) == 2 * FromSeptets(data)
  }

  predicate IsPart(carrier: Carrier, kind: Kind, reference: uint16, total: byte, sequence: byte, p: Segment)
  {
    && p.reference == (if carrier.Udh8? then reference % 256 else reference)
    && p.total == total && p.sequence == sequence && p.kind == kind && p.coding == Coding(kind)
    && p.udh == HeaderOctetsOf(carrier, reference, total, sequence)
    && p.optional == ParametersOf(carrier, reference, total, sequence)
    && |p.data| == (if kind.UCS2? || kind.UTF16BE? then 2 * p.units else p.units)
    && Carries(carrier, kind, p.udh, p.data, p.userData)
  }

  lemma SmallPower(fill: nat, n: nat)
    requires fill <= 1
    ensures Pow2(fill) * n == if fill == 0 then n else 2 * n
  {
    assert Pow2(0) == 1;
  }

  lemma PackedBy(data: bytes, fill: nat)
    requires AreSeptets(data) && fill <= 1
    ensures |Pack(data, fill)| == (fill + 7 * |data| + 7) / 8
    ensures FromOctets(Pack(data, fill)) == if fill == 0 then FromSeptets(data) else 2 * FromSeptets(data)
  {
    PackedNumber(data, fill);
    SmallPower(fill, FromSeptets(data));
  }

  lemma Fills()
    ensures FillBits(0) == 0 && FillBits(6) == 1
  {
  }

  lemma PackedCarries(carrier: Carrier, header: bytes, data: bytes)
    requires !carrier.Udh16? && AreSeptets(data) && (header == [] || |header| == 6)
    ensures Carries(carrier, GSM7, header, data, header + Pack(data, FillBits(|header|)))
  {
    var packed := Pack(data, FillBits(|header|));
    Fills();
    assert (header + packed)[|header|..] == packed;
    PackedBy(data, FillBits(|header|));
  }

  lemma PlainCarries(carrier: Carrier, kind: Kind, header: bytes, data: bytes)
    requires !kind.GSM7? || carrier.Udh16?
    ensures Carries(carrier, kind, header, data, header + data)
  {
  }

  /** Content that is whole in its representation. */
  predicate IsContent(kind: Kind, data: bytes)
  {
    (kind.GSM7? ==> AreSeptets(data)) && (kind.UCS2? || kind.UTF16BE? ==> |data| % 2 == 0)
  }

  lemma PartIs(carrier: Carrier, kind: Kind, reference: uint16, total: byte, i: nat, chunk: bytes)
    requires i < 255 && IsContent(kind, chunk)
    ensures IsPart(carrier, kind, reference, total, i + 1, Part(carrier, kind, reference, total, i, chunk))
  {
    var header := HeaderFor(carrier, reference, total, i + 1);
    if kind.GSM7? && !carrier.Udh16? {
      PackedCarries(carrier, header, chunk);
    } else {
      PlainCarries(carrier, kind, header, chunk);
    }
  }

  lemma DecodedIsContent(kind: Kind, data: bytes)
    requires (kind.UCS2? || kind.UTF16BE?) && DecodeAs(kind, data).Some?
    ensures IsContent(kind, data)
  {
  }

  lemma ChunksAreContent(e: EncodedText, room: Room)
    requires Encoded(e) && room.septets >= 2 && room.units >= 2 && room.octets > 0
    ensures Chunks(e.kind, e.data, room).Some?
    ensures var cs := Chunks(e.kind, e.data, room).value; forall i | 0 <= i < |cs| :: IsContent(e.kind, cs[i])
  {
    ChunksSound(e, room);
    var cs := Chunks(e.kind, e.data, room).value;
    if e.kind.GSM7? {
      SeptetsOfParts(cs);
    } else if !e.kind.Binary? {
      EveryChunkDecodes(e, room);
      forall i | 0 <= i < |cs|
        ensures IsContent(e.kind, cs[i])
      {
        DecodedIsContent(e.kind, cs[i]);
      }
    }
  }

  /** Every part of a long message carries its place, its header or its parameters and its
      share of the content, and the shares are the content; the reference is cut to eight
      bits where the header has no more. */
  lemma EveryPartIs(carrier: Carrier, e: EncodedText, reference: uint16)
    requires Encoded(e) && e.units > Alone(e.kind) && Segmented(carrier, e, reference).Some?
    ensures var ps := Segmented(carrier, e, reference).value;
            && |ps| <= 255 && Concat(Datas(ps)) == e.data
            && forall i | 0 <= i < |ps| :: IsPart(carrier, e.kind, reference, |ps|, i + 1, ps[i])
  {
    var room := MultiRoom(carrier);
    LongIsParts(carrier, e, reference);
    ChunksSound(e, room);
    ChunksAreContent(e, room);
    var cs, ps := Chunks(e.kind, e.data, room).value, Segmented(carrier, e, reference).value;
    assert Datas(ps) == cs;
    forall i | 0 <= i < |ps|
      ensures IsPart(carrier, e.kind, reference, |ps|, i + 1, ps[i])
    {
      PartIs(carrier, e.kind, reference, |ps|, i, cs[i]);
    }
  }

  /** A short message is one part with reference 0 and neither header nor parameters; its
      septets are packed but for the 16-bit carrier. */
  lemma OnlyPartIs(carrier: Carrier, e: EncodedText, reference: uint16)
    requires Encoded(e) && e.units <= Alone(e.kind) && Segmented(carrier, e, reference).Some?
    ensures var ps := Segmented(carrier, e, reference).value;
            && |ps| == 1 && ps[0].reference == 0 && ps[0].total == 1 && ps[0].sequence == 1
            && ps[0].kind == e.kind && ps[0].coding == Coding(e.kind) && ps[0].units == e.units
            && ps[0].data == e.data && ps[0].udh == [] && ps[0].optional == []
            && Carries(carrier, e.kind, [], e.data, ps[0].userData)
  {
    OneChunk(e);
    var c := if carrier.Sar? then Udh8 else carrier;
    if e.kind.GSM7? && !carrier.Udh16? {
      PackedCarries(carrier, [], e.data);
    } else {
      PlainCarries(carrier, e.kind, [], e.data);
    }
    assert [] + Wire(c, e.kind, e.data, 0) == Wire(c, e.kind, e.data, 0);
  }

  // ----- What is read: the user data header -----

  datatype Element = Element(iei: byte, value: bytes)

  predicate IsOther(x: Element) { x.iei != 0x00 && x.iei != 0x08 && |x.value| <= 255 }

  /** An information element that is not a concatenation. */
  type Other = x: Element | IsOther(x) witness Element(0x01, [])

  function OctetsOf(x: Other): (s: bytes)
    ensures |s| == 2 + |x.value|
  {
    var head: bytes := [x.iei, |x.value|];
    head + x.value
  }

  function AllOctets(xs: seq<Other>): (s: bytes)
  {
    if xs == [] then [] else OctetsOf(xs[0]) + AllOctets(xs[1..])
  }

  /** The concatenation element of the header h stands at position k. */
  predicate StandsAt(s: bytes, h: Header, k: nat)
    requires h.headerLen <= |s|
  {
    || (k + 5 <= h.headerLen && h.reference < 256 && s[k..k + 5] == [0x00, 0x03, h.reference, h.total, h.sequence])
    || (k + 6 <= h.headerLen &&
        s[k..k + 6] == [0x08, 0x04, h.reference / 256, h.reference % 256, h.total, h.sequence])
  }

  /** From position off on: other elements, then the concatenation. */
  predicate Located(s: bytes, h: Header, off: nat, xs: seq<Other>)
    requires h.headerLen <= |s|
  {
    var k := off + |AllOctets(xs)|;
    k <= |s| && s[off..k] == AllOctets(xs) && StandsAt(s, h, k)
  }

  lemma LocatedCons(s: bytes, h: Header, off: nat, x: Other, xs: seq<Other>)
    requires h.headerLen <= |s|
    ensures Located(s, h, off, [x] + xs) <==>
            var a := off + |OctetsOf(x)|; a <= |s| && s[off..a] == OctetsOf(x) && Located(s, h, a, xs)
  {
    assert ([x] + xs)[1..] == xs;
    var a, k := off + |OctetsOf(x)|, off + |AllOctets([x] + xs)|;
    if k <= |s| {
      assert s[off..k] == s[off..a] + s[a..k];
      assert s[off..k][..|OctetsOf(x)|] == s[off..a] && s[off..k][|OctetsOf(x)|..] == s[a..k];
    }
  }

  lemma FoundStands(s: bytes, n: nat, off: nat)
    requires n <= |s| && FindElement(s, n, off).Some? && (s[off] == 0x00 || s[off] == 0x08)
    ensures FindElement(s, n, off).value.headerLen == n && StandsAt(s, FindElement(s, n, off).value, off)
  {
    var value := s[off + 2..off + 2 + s[off + 1] as int];
    if s[off] == 0x08 {
      Put16Unique(value[..2]);
    }
  }

  lemma OtherAt(s: bytes, n: nat, off: nat) returns (x: Other)
    requires n <= |s| && FindElement(s, n, off).Some? && s[off] != 0x00 && s[off] != 0x08
    ensures var a := off + |OctetsOf(x)|;
            a <= n && s[off..a] == OctetsOf(x) && FindElement(s, n, off) == FindElement(s, n, a)
  {
    var a := off + 2 + s[off + 1] as int;
    x := Element(s[off], s[off + 2..a]);
    assert s[off..a] == [s[off], s[off + 1]] + s[off + 2..a];
  }

  lemma {:induction false} FoundIsLocated(s: bytes, n: nat, off: nat) returns (xs: seq<Other>)
    requires n <= |s| && FindElement(s, n, off).Some?
    ensures FindElement(s, n, off).value.headerLen == n
    ensures Located(s, FindElement(s, n, off).value, off, xs)
    decreases n - off
  {
    if s[off] == 0x00 || s[off] == 0x08 {
      FoundStands(s, n, off);
      xs := [];
    } else {
      var x := OtherAt(s, n, off);
      var rest := FoundIsLocated(s, n, off + |OctetsOf(x)|);
      LocatedCons(s, FindElement(s, n, off).value, off, x, rest);
      xs := [x] + rest;
    }
  }

  lemma StandingIsFound(s: bytes, h: Header, k: nat)
    requires h.headerLen <= |s| && StandsAt(s, h, k)
    ensures FindElement(s, h.headerLen, k) == Some(h)
  {
    if s[k] == 0x00 {
      var t := s[k..k + 5];
      assert t[0] == s[k] && t[1] == s[k + 1] && t[2] == s[k + 2] && t[3] == s[k + 3] && t[4] == s[k + 4];
    } else {
      var t := s[k..k + 6];
      var v := s[k + 2..k + 6];
      assert t[0] == s[k] && t[1] == s[k + 1];
      assert t[2] == v[0] && t[3] == v[1] && t[4] == v[2] && t[5] == v[3];
      assert v[..2] == [t[2], t[3]] == Put16(h.reference);
    }
  }

  lemma OtherIsSkipped(s: bytes, n: nat, off: nat, x: Other)
    requires n <= |s| && off + |OctetsOf(x)| <= n && s[off..off + |OctetsOf(x)|] == OctetsOf(x)
    ensures FindElement(s, n, off) == FindElement(s, n, off + |OctetsOf(x)|)
  {
    var t := s[off..off + |OctetsOf(x)|];
    assert t[0] == s[off] == x.iei && t[1] == s[off + 1] == |x.value|;
  }

  lemma {:induction false} LocatedIsFound(s: bytes, h: Header, off: nat, xs: seq<Other>)
    requires h.headerLen <= |s| && Located(s, h, off, xs)
    ensures FindElement(s, h.headerLen, off) == Some(h)
    decreases |xs|
  {
    if xs == [] {
      StandingIsFound(s, h, off);
    } else {
      var x, rest := xs[0], xs[1..];
      assert xs == [x] + rest;
      LocatedCons(s, h, off, x, rest);
      LocatedIsFound(s, h, off + |OctetsOf(x)|, rest);
      OtherIsSkipped(s, h.headerLen, off, x);
    }
  }

  /** Octets are read as a concatenation exactly when they start with a header of at least
      six octets in which, after any number of other elements, a concatenation element of
      its exact length follows. */
  lemma ParseUdhIff(s: bytes, h: Header)
    ensures ParseUdh(s) == Some(h) <==>
            6 <= h.headerLen <= |s| && s[0] as int + 1 == h.headerLen && exists xs :: Located(s, h, 1, xs)
  {
    if ParseUdh(s) == Some(h) {
      var xs := FoundIsLocated(s, s[0] as int + 1, 1);
    }
    if 6 <= h.headerLen <= |s| && s[0] as int + 1 == h.headerLen && exists xs :: Located(s, h, 1, xs) {
      var xs :| Located(s, h, 1, xs);
      LocatedIsFound(s, h, 1, xs);
    }
  }

  // ----- What is read: the parameters -----

  /** The value of the last parameter with a tag. */
  function LastOf(ts: seq<Tlv>, tag: uint16): (v: Option<bytes>)
  {
    if ts == [] then None
    else
      var rest := LastOf(ts[1..], tag);
      if rest.None? && ts[0].tag == tag then Some(ts[0].value) else rest
  }

  predicate SarLengths(ts: seq<Tlv>)
  {
    forall i | 0 <= i < |ts| ::
      && (ts[i].tag == 0x020c ==> |ts[i].value| == 2)
      && (ts[i].tag == 0x020e || ts[i].tag == 0x020f ==> |ts[i].value| == 1)
  }

  lemma {:induction false} LastLengths(ts: seq<Tlv>)
    requires SarLengths(ts)
    ensures LastOf(ts, 0x020c).Some? ==> |LastOf(ts, 0x020c).value| == 2
    ensures LastOf(ts, 0x020e).Some? ==> |LastOf(ts, 0x020e).value| == 1
    ensures LastOf(ts, 0x020f).Some? ==> |LastOf(ts, 0x020f).value| == 1
  {
    if ts == [] {
    } else {
      LastLengths(ts[1..]);
    }
  }

  /** What was seen, then overwritten by the last parameter of each kind. */
  function Overwritten(ts: seq<Tlv>, seen: Seen): (x: Seen)
    requires SarLengths(ts)
  {
    LastLengths(ts);
    var r, t, q := LastOf(ts, 0x020c), LastOf(ts, 0x020e), LastOf(ts, 0x020f);
    Seen(if r.Some? then Some(r.value[0] as int * 256 + r.value[1]) else seen.reference,
         if t.Some? then Some(t.value[0]) else seen.total,
         if q.Some? then Some(q.value[0]) else seen.sequence)
  }

  lemma {:induction false} ReadSarIs(ts: seq<Tlv>, seen: Seen)
    ensures ReadSar(ts, seen) == if SarLengths(ts) then Some(Overwritten(ts, seen)) else None
    decreases |ts|
  {
    if ts == [] {
    } else {
      assert SarLengths(ts) ==> SarLengths(ts[1..]);
      var t := ts[0];
      if t.tag == 0x020c {
        if |t.value| == 2 {
          ReadSarIs(ts[1..], seen.(reference := Some(U16(t.value))));
          assert SarLengths(ts[1..]) ==> SarLengths(ts);
        }
      } else if t.tag == 0x020e {
        if |t.value| == 1 {
          ReadSarIs(ts[1..], seen.(total := Some(t.value[0])));
          assert SarLengths(ts[1..]) ==> SarLengths(ts);
        }
      } else if t.tag == 0x020f {
        if |t.value| == 1 {
          ReadSarIs(ts[1..], seen.(sequence := Some(t.value[0])));
          assert SarLengths(ts[1..]) ==> SarLengths(ts);
        }
      } else {
        ReadSarIs(ts[1..], seen);
        assert SarLengths(ts[1..]) ==> SarLengths(ts);
      }
    }
  }

  /** Parameters are read as a concatenation exactly when every sar_ parameter has its
      length, all three are there and the sequence is one of the total; of a repeated one
      the last counts. */
  lemma ParseSarIff(ts: seq<Tlv>, reference: uint16, total: byte, sequence: byte)
    ensures var x := ReadSar(ts, Seen(None, None, None));
            x.Some? && SarComplete(x.value) && x.value == Seen(Some(reference), Some(total), Some(sequence)) <==>
            && SarLengths(ts) && LastOf(ts, 0x020c) == Some([reference / 256, reference % 256])
            && LastOf(ts, 0x020e) == Some([total]) && LastOf(ts, 0x020f) == Some([sequence]) && 1 <= sequence <= total
  {
    ReadSarIs(ts, Seen(None, None, None));
    if SarLengths(ts) {
      LastLengths(ts);
      var r, t, q := LastOf(ts, 0x020c), LastOf(ts, 0x020e), LastOf(ts, 0x020f);
      assert t.Some? ==> t.value == [t.value[0]];
      assert q.Some? ==> q.value == [q.value[0]];
      if r.Some? {
        Put16Unique(r.value);
      }
    }
  }
}
