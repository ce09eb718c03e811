/** When segmentation succeeds, as a condition on the length of the content. */
module SegmentCounts {
  import opened Bytes
  import opened Unicode
  import opened Splitters
  import opened Segmentation
  import opened SegmentLaws

  /** The units of a part's content: septets, code units or octets. */
  function RoomOf(kind: Kind, room: Room): (n: nat)
  {
    match kind
    case GSM7 => room.septets
    case Binary => room.octets
    case UCS2 | UTF16BE => room.units
  }

  /** The units every part but the last is sure to hold: one less than fit where a cut may
      back off before an escape or a surrogate pair. */
  function Least(kind: Kind, room: Room): (n: nat)
    requires room.septets > 0 && room.units > 0
  {
    if kind.GSM7? || kind.UTF16BE? then RoomOf(kind, room) - 1 else RoomOf(kind, room)
  }

  /** Products, kept out of the proofs that use them. */
  lemma {:induction false} Monotone(c: nat, x: nat, b: nat)
    requires c <= x
    ensures c * b <= x * b
    decreases x
  {
    if x == c {
    } else {
      Monotone(c, x - 1, b);
      assert x * b == (x - 1) * b + b;
    }
  }

  lemma {:induction false} ConcatBound<T>(parts: seq<seq<T>>, max: nat)
    requires forall i | 0 <= i < |parts| :: |parts[i]| <= max
    ensures |Concat(parts)| <= |parts| * max
  {
    if parts == [] {
    } else {
      ConcatBound(parts[1..], max);
      assert |parts| * max == max + |parts[1..]| * max;
    }
  }

  lemma AtMost255<T>(parts: seq<seq<T>>, max: nat)
    requires forall i | 0 <= i < |parts| :: |parts[i]| <= max
    ensures |parts| <= 255 ==> |Concat(parts)| <= 255 * max
  {
    ConcatBound(parts, max);
    if |parts| <= 255 {
      Monotone(|parts|, 255, max);
    }
  }

  lemma TooMany(n: nat, low: nat, size: nat)
    requires n > 0 && (n - 1) * low < size
    ensures size <= 255 * low ==> n <= 255
  {
    if n > 255 {
      Monotone(255, n - 1, low);
    }
  }

  lemma PutUnitsLength(us: units)
    ensures |PutUnits(us)| == 2 * |us|
  {
  }

  lemma GsmNotTooMany(data: bytes, max: nat)
    requires max >= 2 && data != []
    ensures |data| <= 255 * (max - 1) ==> |SplitGsm(data, max)| <= 255
  {
    SplitGsmCount(data, max);
    TooMany(|SplitGsm(data, max)|, max - 1, |data|);
  }

  lemma GsmCount(data: bytes, max: nat)
    requires max >= 2
    ensures |data| <= 255 * (max - 1) ==> |SplitGsm(data, max)| <= 255
    ensures |SplitGsm(data, max)| <= 255 ==> |data| <= 255 * max
  {
    SplitGsmSound(data, max);
    AtMost255(SplitGsm(data, max), max);
    if data != [] {
      GsmNotTooMany(data, max);
    }
  }

  lemma BytesNotTooMany(data: bytes, max: nat)
    requires max > 0 && data != []
    ensures |data| <= 255 * max ==> |SplitBytes(data, max)| <= 255
  {
    SplitBytesSound(data, max);
    PartCount(SplitBytes(data, max), max, max);
    TooMany(|SplitBytes(data, max)|, max, |data|);
  }

  lemma BytesCount(data: bytes, max: nat)
    requires max > 0
    ensures |SplitBytes(data, max)| <= 255 <==> |data| <= 255 * max
  {
    var parts := SplitBytes(data, max);
    SplitBytesSound(data, max);
    AtMost255(parts, max);
    if data != [] {
      BytesNotTooMany(data, max);
    }
  }

  lemma UnitsNotTooMany(us: units, max: nat)
    requires max >= 2 && Decode16(us).Some? && us != []
    ensures SplitUnits(us, max).Some?
    ensures |us| <= 255 * (max - 1) ==> |SplitUnits(us, max).value| <= 255
  {
    SplitUnitsCount(us, max);
    TooMany(|SplitUnits(us, max).value|, max - 1, |us|);
  }

  lemma UnitsCount(us: units, max: nat)
    requires max >= 2 && Decode16(us).Some?
    ensures SplitUnits(us, max).Some?
    ensures |us| <= 255 * (max - 1) ==> |SplitUnits(us, max).value| <= 255
    ensures |SplitUnits(us, max).value| <= 255 ==> |us| <= 255 * max
  {
    SplitUnitsSound(us, max);
    AtMost255(SplitUnits(us, max).value, max);
    if us != [] {
      UnitsNotTooMany(us, max);
    }
  }

  lemma Utf16Count(data: bytes, max: nat)
    requires max >= 2 && DecodeUtf16be(data).Some?
    ensures SplitUtf16(data, max).Some?
    ensures |data| <= 2 * (255 * (max - 1)) ==> |SplitUtf16(data, max).value| <= 255
    ensures |SplitUtf16(data, max).value| <= 255 ==> |data| <= 2 * (255 * max)
  {
    PutGetUnits(data);
    PutUnitsLength(GetUnits(data));
    UnitsCount(GetUnits(data), max);
  }

  lemma ChunkCount(e: EncodedText, room: Room)
    requires Encoded(e) && room.septets >= 2 && room.units >= 2 && room.octets > 0
    ensures Chunks(e.kind, e.data, room).Some?
    ensures e.units <= 255 * Least(e.kind, room) ==> |Chunks(e.kind, e.data, room).value| <= 255
    ensures |Chunks(e.kind, e.data, room).value| <= 255 ==> e.units <= 255 * RoomOf(e.kind, room)
  {
    match e.kind
    case GSM7 => GsmCount(e.data, room.septets);
    case UCS2 => BytesCount(e.data, 2 * room.units);
    case UTF16BE => Utf16Count(e.data, room.units);
    case Binary => BytesCount(e.data, room.octets);
  }

  /** One chunk or none fits a single message. */
  lemma FewChunksFit(e: EncodedText)
    requires Encoded(e)
    ensures Chunks(e.kind, e.data, SINGLE).Some?
    ensures |Chunks(e.kind, e.data, SINGLE).value| <= 1 ==> FitsOne(e)
  {
    ChunksSound(e, SINGLE);
    var cs := Chunks(e.kind, e.data, SINGLE).value;
    if |cs| == 1 {
      assert cs == [] + [cs[0]];
      ConcatSnoc([], cs[0]);
    }
  }

  lemma SomeChunks(e: EncodedText, room: Room)
    requires Encoded(e) && !FitsOne(e) && room.septets >= 2 && room.units >= 2 && room.octets > 0
    ensures Chunks(e.kind, e.data, room).Some? && Chunks(e.kind, e.data, room).value != []
  {
    ChunksSound(e, room);
  }

  /** For every carrier and kind: content of at most 255 times what every part is sure to
      hold segments, and content of more than 255 times what a part can hold does not.
      Binary and UCS-2 parts are always full, so for them the two bounds are one and the
      condition is exact. */
  lemma SegmentsIfShortEnough(carrier: Carrier, e: EncodedText, reference: uint16)
    requires Encoded(e)
    ensures e.units <= 255 * Least(e.kind, MultiRoom(carrier)) ==> Segmented(carrier, e, reference).Some?
    ensures Segmented(carrier, e, reference).Some? ==> e.units <= 255 * RoomOf(e.kind, MultiRoom(carrier))
  {
    ChunkCount(e, MultiRoom(carrier));
    FewChunksFit(e);
    if !FitsOne(e) {
      SomeChunks(e, MultiRoom(carrier));
    }
  }

  lemma BinarySegmentsIff(carrier: Carrier, data: bytes, reference: uint16)
    ensures Segmented(carrier, BinaryText(data), reference).Some? <==> |data| <= 255 * MultiRoom(carrier).octets
  {
    SegmentsIfShortEnough(carrier, BinaryText(data), reference);
  }
}
