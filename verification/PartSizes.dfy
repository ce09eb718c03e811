/** How large the parts of a message are: as large as 140 octets allow, cut back only
    before an escape or a surrogate pair, and therefore as few as possible. */
module PartSizes {
  import opened Bytes
  import opened Unicode
  import opened Splitters
  import opened Segmentation
  import opened SegmentLaws
  import opened SegmentCounts

  // ----- What 140 octets hold -----

  /** The octets of a header: an 8-bit or a 16-bit concatenation element, or none. */
  function HeaderOctets(carrier: Carrier): (n: nat)
  {
    match carrier
    case Udh8 => 6
    case Udh16 => 7
    case Sar => 0
  }

  /** The octets that a header and some units of content take, septets packed eight to
      seven octets from the next septet boundary on. */
  function OctetsWith(header: nat, kind: Kind, units: nat): (n: nat)
  {
    match kind
    case GSM7 => ((8 * header + 6) / 7 * 7 + 7 * units + 7) / 8
    case Binary => header + units
    case UCS2 | UTF16BE => header + 2 * units
  }

  /** The room of a part is exactly what 140 octets hold beside its header. */
  lemma RoomIsMaximal(carrier: Carrier, kind: Kind)
    ensures var n := RoomOf(kind, MultiRoom(carrier));
            OctetsWith(HeaderOctets(carrier), kind, n) <= 140 < OctetsWith(HeaderOctets(carrier), kind, n + 1)
  {
  }

  /** The header octets are those that a part really starts with. */
  lemma HeaderOctetsAre(carrier: Carrier, reference: uint16, total: byte, sequence: byte)
    ensures |HeaderFor(carrier, reference, total, sequence)| == HeaderOctets(carrier)
  {
  }

  /** And a packed or plain part takes as many octets as that says. */
  lemma PartOctetsAre(carrier: Carrier, kind: Kind, reference: uint16, total: byte, i: nat, chunk: bytes)
    requires i < 255 && !(carrier.Udh16? && kind.GSM7?) && (kind.UCS2? || kind.UTF16BE? ==> |chunk| % 2 == 0)
    ensures var p := Part(carrier, kind, reference, total, i, chunk);
            |p.userData| == OctetsWith(HeaderOctets(carrier), kind, p.units)
  {
    HeaderOctetsAre(carrier, reference, total, i + 1);
  }

  /** A message goes without a header exactly when its content takes at most 140 octets. */
  lemma FitsOneIff(e: EncodedText)
    ensures FitsOne(e) <==> OctetsWith(0, e.kind, e.units) <= 140
  {
  }

  // ----- Parts are cut back only where they must be -----

  /** The first octet of something that must stay whole: an escape, or a high surrogate. */
  predicate StartsPair(kind: Kind, b: byte)
  {
    match kind
    case GSM7 => b == 0x1b
    case UTF16BE => 0xd8 <= b <= 0xdb
    case UCS2 | Binary => false
  }

  /** Every chunk but the last is full, or one short before a pair that did not fit. */
  predicate Tight(kind: Kind, cs: seq<bytes>, n: nat)
  {
    forall i | 0 <= i < |cs| - 1 ::
      || UnitsOf(kind, cs[i]) == n
      || (UnitsOf(kind, cs[i]) == n - 1 && cs[i + 1] != [] && StartsPair(kind, cs[i + 1][0]))
  }

  lemma {:induction false} GsmIsTight(s: bytes, max: nat)
    requires max >= 2
    ensures Tight(GSM7, SplitGsm(s, max), max)
    decreases |s|
  {
    if s == [] {
    } else {
      var n := CutAt(s, max);
      var rest := SplitGsm(s[n..], max);
      GsmIsTight(s[n..], max);
      assert rest != [] ==> rest[0][0] == s[n];
      var all := [s[..n]] + rest;
      forall i | 0 < i < |all| - 1
        ensures all[i] == rest[i - 1] && all[i + 1] == rest[i]
      {
      }
    }
  }

  /** The same of code units, while they are grown. */
  predicate TightUnits(parts: seq<units>, max: nat)
  {
    forall i | 0 <= i < |parts| - 1 ::
      |parts[i]| == max || (|parts[i]| == max - 1 && parts[i + 1] != [] && IsHigh(parts[i + 1][0]))
  }

  /** The first part starts with the next character. */
  lemma {:induction false} GrowStarts(rest: units, cur: units, max: nat)
    requires Grow(rest, cur, max).Some? && (cur != [] || rest != [])
    ensures var parts := Grow(rest, cur, max).value;
            parts != [] && parts[0] != [] && parts[0][0] == if cur != [] then cur[0] else rest[0]
    decreases |rest|, |cur|
  {
    if rest == [] {
    } else {
      var w := DecodeFirst(rest).value.1;
      if cur != [] && |cur| + w > max {
      } else {
        GrowStarts(rest[w..], cur + rest[..w], max);
      }
    }
  }

  lemma {:induction false} GrowIsTight(rest: units, cur: units, max: nat)
    requires max >= 2 && Grow(rest, cur, max).Some? && |cur| <= max
    ensures TightUnits(Grow(rest, cur, max).value, max)
    decreases |rest|, |cur|
  {
    if rest == [] {
    } else {
      var w := DecodeFirst(rest).value.1;
      if cur != [] && |cur| + w > max {
        var parts := Grow(rest, [], max).value;
        GrowIsTight(rest, [], max);
        GrowStarts(rest, [], max);
        var all := [cur] + parts;
        forall i | 0 < i < |all| - 1
          ensures all[i] == parts[i - 1] && all[i + 1] == parts[i]
        {
        }
      } else {
        GrowIsTight(rest[w..], cur + rest[..w], max);
      }
    }
  }

  lemma HighOctet(us: units)
    requires us != []
    ensures IsHigh(us[0]) <==> 0xd8 <= PutUnits(us)[0] <= 0xdb
  {
  }

  lemma Utf16IsTight(data: bytes, max: nat)
    requires max >= 2 && SplitUtf16(data, max).Some?
    ensures Tight(UTF16BE, SplitUtf16(data, max).value, max)
  {
    var us := GetUnits(data);
    if us == [] {
    } else {
      GrowIsTight(us, [], max);
      var parts := SplitUnits(us, max).value;
      forall i | 0 < i < |parts| && parts[i] != []
        ensures IsHigh(parts[i][0]) <==> StartsPair(UTF16BE, PutParts(parts)[i][0])
      {
        HighOctet(parts[i]);
      }
    }
  }

  /** Greedy splitting wastes nothing: a part that is not the last is as long as 140 octets
      allow, or one unit shorter where the next one starts with an escape or a high
      surrogate. */
  lemma ChunksAreTight(e: EncodedText, room: Room)
    requires Encoded(e) && room.septets >= 2 && room.units >= 2 && room.octets > 0
    ensures Chunks(e.kind, e.data, room).Some?
    ensures Tight(e.kind, Chunks(e.kind, e.data, room).value, RoomOf(e.kind, room))
  {
    ChunksSound(e, room);
    match e.kind
    case GSM7 => GsmIsTight(e.data, room.septets);
    case Binary => SplitBytesSound(e.data, room.octets);
    case UCS2 => SplitBytesSound(e.data, 2 * room.units);
    case UTF16BE => Utf16IsTight(e.data, room.units);
  }

  // ----- How many parts there are -----

  /** Septets, code units or octets that one message holds, and one part of several. */
  function Alone(kind: Kind): (n: nat)
  {
    match kind
    case GSM7 => 160
    case Binary => 140
    case UCS2 | UTF16BE => 70
  }

  function PerPart(carrier: Carrier, kind: Kind): (n: nat)
  {
    match (carrier, kind)
    case (Udh8, GSM7) => 153
    case (Udh8, Binary) => 134
    case (Udh8, _) => 67
    case (Udh16, GSM7) => 152
    case (Udh16, Binary) => 133
    case (Udh16, _) => 66
    case (Sar, _) => Alone(kind)
  }

  lemma RoomIs(carrier: Carrier, kind: Kind)
    ensures RoomOf(kind, MultiRoom(carrier)) == PerPart(carrier, kind) && RoomOf(kind, SINGLE) == Alone(kind)
  {
  }

  /** Content that no part is cut back for. */
  predicate Uncut(e: EncodedText)
  {
    match e.kind
    case GSM7 => 0x1b !in e.data
    case Binary | UCS2 => true
    case UTF16BE => false
  }

  /** p parts of at most `most` units each hold n units, and all but the last at least
      `least` of them: for least == most, p is n divided by most, rounded up. */
  predicate PartsFor(p: nat, n: nat, least: nat, most: nat)
  {
    p > 0 && (p - 1) * least < n <= p * most
  }

  lemma {:induction false} PlainGsmIsBytes(s: bytes, max: nat)
    requires max >= 2 && 0x1b !in s
    ensures SplitGsm(s, max) == SplitBytes(s, max)
    decreases |s|
  {
    if s == [] {
    } else {
      var n := CutAt(s, max);
      assert s[n - 1] in s;
      PlainGsmIsBytes(s[n..], max);
    }
  }

  lemma SizedParts<T>(parts: seq<seq<T>>, low: nat, max: nat)
    requires Sized(parts, low, max) && parts != []
    ensures PartsFor(|parts|, |Concat(parts)|, low, max)
  {
    PartCount(parts, low, max);
    ConcatBound(parts, max);
  }

  lemma BytesParts(data: bytes, max: nat)
    requires max > 0 && data != []
    ensures PartsFor(|SplitBytes(data, max)|, |data|, max, max)
  {
    SplitBytesSound(data, max);
    SizedParts(SplitBytes(data, max), max, max);
  }

  lemma GsmParts(data: bytes, max: nat)
    requires max >= 2 && data != []
    ensures PartsFor(|SplitGsm(data, max)|, |data|, if 0x1b !in data then max else max - 1, max)
  {
    if 0x1b !in data {
      PlainGsmIsBytes(data, max);
      BytesParts(data, max);
    } else {
      SplitGsmSound(data, max);
      SizedParts(SplitGsm(data, max), max - 1, max);
    }
  }

  lemma UnitParts(us: units, max: nat)
    requires max >= 2 && us != [] && Decode16(us).Some?
    ensures SplitUnits(us, max).Some? && PartsFor(|SplitUnits(us, max).value|, |us|, max - 1, max)
  {
    SplitUnitsSound(us, max);
    SizedParts(SplitUnits(us, max).value, max - 1, max);
  }

  lemma HalfParts(p: nat, units: nat, max: nat)
    requires PartsFor(p, 2 * units, 2 * max, 2 * max)
    ensures PartsFor(p, units, max, max)
  {
    assert (p - 1) * (2 * max) == 2 * ((p - 1) * max) && p * (2 * max) == 2 * (p * max);
  }

  lemma ChunkParts(e: EncodedText, room: Room)
    requires Encoded(e) && e.data != [] && room.septets >= 2 && room.units >= 2 && room.octets > 0
    ensures Chunks(e.kind, e.data, room).Some?
    ensures var p, n := |Chunks(e.kind, e.data, room).value|, RoomOf(e.kind, room);
            PartsFor(p, e.units, if Uncut(e) then n else n - 1, n)
  {
    match e.kind
    case GSM7 => GsmParts(e.data, room.septets);
    case Binary => BytesParts(e.data, room.octets);
    case UCS2 =>
      BytesParts(e.data, 2 * room.units);
      HalfParts(|SplitBytes(e.data, 2 * room.units)|, e.units, room.units);
    case UTF16BE =>
      PutGetUnits(e.data);
      UnitParts(GetUnits(e.data), room.units);
  }

  /** Content that fits one part is not cut at all. */
  lemma {:induction false} GrowWhole(rest: units, cur: units, max: nat)
    requires Grow(rest, cur, max).Some? && |cur| + |rest| <= max
    ensures Grow(rest, cur, max).value == [cur + rest]
    decreases |rest|
  {
    if rest == [] {
      assert cur + rest == cur;
    } else {
      var w := DecodeFirst(rest).value.1;
      GrowWhole(rest[w..], cur + rest[..w], max);
      assert cur + rest[..w] + rest[w..] == cur + rest;
    }
  }

  lemma BytesWhole(s: bytes, max: nat)
    requires |s| <= max && max > 0
    ensures |SplitBytes(s, max)| <= 1
  {
    assert SplitBytes(s[|s|..], max) == [];
  }

  lemma OneChunk(e: EncodedText)
    requires Encoded(e) && e.units <= Alone(e.kind)
    ensures Chunks(e.kind, e.data, SINGLE).Some? && |Chunks(e.kind, e.data, SINGLE).value| <= 1
  {
    ChunksSound(e, SINGLE);
    match e.kind
    case GSM7 =>
      if e.data != [] {
        LastPart(e.data, SINGLE.septets);
      }
    case Binary => BytesWhole(e.data, SINGLE.octets);
    case UCS2 => BytesWhole(e.data, 2 * SINGLE.units);
    case UTF16BE =>
      PutGetUnits(e.data);
      var us := GetUnits(e.data);
      if us != [] {
        GrowWhole(us, [], 70);
      }
  }

  /** A long message is assembled from its chunks. */
  lemma LongIsParts(carrier: Carrier, e: EncodedText, reference: uint16)
    requires Encoded(e) && e.units > Alone(e.kind) && Segmented(carrier, e, reference).Some?
    ensures var cs := Chunks(e.kind, e.data, MultiRoom(carrier));
            && cs.Some? && |cs.value| <= 255
            && Segmented(carrier, e, reference).value == Parts(carrier, e.kind, reference, cs.value)
  {
    FewChunksFit(e);
  }

  lemma ManyParts(p: nat, n: nat, least: nat, most: nat)
    requires PartsFor(p, n, least, most) && n > most
    ensures p >= 2
  {
  }

  /** A message of at most 160 septets, 70 code units or 140 octets is one part without a
      header; a longer one is two parts or more, as many as its length needs at 153, 152 or
      160 septets, 67, 66 or 70 code units and 134, 133 or 140 octets a part. The number is
      exact for octets, UCS-2 and septets without escapes. */
  lemma PartNumber(carrier: Carrier, e: EncodedText, reference: uint16)
    requires Encoded(e) && Segmented(carrier, e, reference).Some?
    ensures var ps, n := Segmented(carrier, e, reference).value, PerPart(carrier, e.kind);
            if e.units <= Alone(e.kind) then
              |ps| == 1 && ps[0].udh == [] && ps[0].optional == [] && ps[0].data == e.data
            else
              |ps| >= 2 && PartsFor(|ps|, e.units, if Uncut(e) then n else n - 1, n)
  {
    if e.units <= Alone(e.kind) {
      OneChunk(e);
    } else {
      RoomIs(carrier, e.kind);
      LongIsParts(carrier, e, reference);
      ChunkParts(e, MultiRoom(carrier));
      var n := PerPart(carrier, e.kind);
      ManyParts(|Segmented(carrier, e, reference).value|, e.units, if Uncut(e) then n else n - 1, n);
    }
  }

  /** And only its last part has room left, but for the one unit before an escape or a
      high surrogate. */
  lemma PartsAreTight(carrier: Carrier, e: EncodedText, reference: uint16)
    requires Encoded(e) && Segmented(carrier, e, reference).Some?
    ensures var ps, n := Segmented(carrier, e, reference).value, PerPart(carrier, e.kind);
            forall i | 0 <= i < |ps| - 1 ::
              || ps[i].units == n
              || (ps[i].units == n - 1 && ps[i + 1].data != [] && StartsPair(e.kind, ps[i + 1].data[0]))
  {
    if e.units <= Alone(e.kind) {
      OneChunk(e);
    } else {
      RoomIs(carrier, e.kind);
      LongIsParts(carrier, e, reference);
      ChunksAreTight(e, MultiRoom(carrier));
    }
  }
}
