/** Segmenting text and binary payloads (message/message.go, message/udh16_unpacked.go):
    packed with an 8-bit header, unpacked with a 16-bit header, or with SAR parameters. */
module Segmentation {
  import opened Bytes
  import opened Septets
  import opened Gsm7
  import opened Unicode
  import opened Splitters
  import opened Concatenation
  import opened Reassembly

  const CODING_DEFAULT: byte := 0x00
  const CODING_BINARY: byte := 0x04
  const CODING_UCS2: byte := 0x08

  function CodingOf(kind: Kind): (c: byte)
  {
    match kind
    case GSM7 => CODING_DEFAULT
    case Binary => CODING_BINARY
    case UCS2 | UTF16BE => CODING_UCS2
  }

  function UnitsOf(kind: Kind, chunk: bytes): (n: nat)
  {
    if kind.UCS2? || kind.UTF16BE? then |chunk| / 2 else |chunk|
  }

  /** Zero bits after a header so that the first septet starts on a septet boundary. */
  function FillBits(headerOctets: int): (f: nat)
    ensures f <= 6
    ensures headerOctets > 0 ==> (8 * headerOctets + f) % 7 == 0
  {
    if headerOctets <= 0 then 0
    else
      var mod := headerOctets * 8 % 7;
      if mod == 0 then 0 else 7 - mod
  }

  /** The carriers: an 8-bit header before packed content, a 16-bit header before
      unpacked content, or SAR parameters beside packed content. */
  datatype Carrier = Udh8 | Udh16 | Sar

  /** The content octets of a part. */
  function Wire(carrier: Carrier, kind: Kind, chunk: bytes, headerOctets: nat): (s: bytes)
  {
    if kind.GSM7? && !carrier.Udh16? then Pack(chunk, FillBits(headerOctets)) else chunk
  }

  function HeaderFor(carrier: Carrier, reference: uint16, total: byte, sequence: byte): (h: bytes)
  {
    match carrier
    case Udh8 => BuildUdh8(reference % 256, total, sequence)
    case Udh16 => BuildUdh16(reference, total, sequence)
    case Sar => []
  }

  /** Part i (from 0) of a multipart message. */
  function Part(carrier: Carrier, kind: Kind, reference: uint16, total: byte, i: nat, chunk: bytes): (p: Segment)
    requires i < 255
  {
    var h := HeaderFor(carrier, reference, total, i + 1);
    Segment(if carrier.Udh8? then reference % 256 else reference, total, i + 1, kind,
            CodingOf(kind), UnitsOf(kind, chunk),
            chunk, h, h + Wire(carrier, kind, chunk, |h|),
            if carrier.Sar? then SarTlvs(reference, total, i + 1) else [])
  }

  function Parts(carrier: Carrier, kind: Kind, reference: uint16, chunks: seq<bytes>): (ps: seq<Segment>)
    requires |chunks| <= 255
    ensures |ps| == |chunks|
    ensures forall i | 0 <= i < |ps| :: ps[i] == Part(carrier, kind, reference, |chunks|, i, chunks[i])
  {
    seq(|chunks|, i requires 0 <= i < |chunks| => Part(carrier, kind, reference, |chunks|, i, chunks[i]))
  }

  /** A message that fits one part: no header, no parameters. */
  function Single(carrier: Carrier, e: EncodedText): (p: Segment)
  {
    Segment(0, 1, 1, e.kind, CodingOf(e.kind), e.units, e.data, [], Wire(carrier, e.kind, e.data, 0), [])
  }

  /** Septets, code units and octets that fit a single part, and one of several parts. */
  datatype Room = Room(septets: nat, units: nat, octets: nat)

  const SINGLE := Room(160, 70, 140)

  function MultiRoom(carrier: Carrier): (r: Room)
  {
    match carrier
    case Udh8 => Room(153, 67, 134)
    case Udh16 => Room(152, 66, 133)
    case Sar => SINGLE
  }

  predicate FitsOne(e: EncodedText)
  {
    e.units <= (match e.kind
                case GSM7 => SINGLE.septets
                case Binary => SINGLE.octets
                case UCS2 | UTF16BE => SINGLE.units)
  }

  function Chunks(kind: Kind, data: bytes, room: Room): (cs: Option<seq<bytes>>)
    requires 0 < room.octets && 0 < room.units
  {
    match kind
    case GSM7 => Some(SplitGsm(data, room.septets))
    case UCS2 => Some(SplitBytes(data, 2 * room.units))
    case UTF16BE => SplitUtf16(data, room.units)
    case Binary => Some(SplitBytes(data, room.octets))
  }

  /** Parts from chunks; refused when there are none or more than 255. */
  function Assemble(carrier: Carrier, kind: Kind, reference: uint16, cs: Option<seq<bytes>>): (r: Option<seq<Segment>>)
  {
    if cs.None? || |cs.value| == 0 || |cs.value| > 255 then None else Some(Parts(carrier, kind, reference, cs.value))
  }

  /** SegmentTextUDH, SegmentBinaryUDH and their 16-bit counterparts, after encoding. */
  function SegmentUdh(carrier: Carrier, e: EncodedText, reference: uint16): (r: Option<seq<Segment>>)
    requires !carrier.Sar?
  {
    if FitsOne(e) then Some([Single(carrier, e)])
    else Assemble(carrier, e.kind, reference, Chunks(e.kind, e.data, MultiRoom(carrier)))
  }

  /** SegmentTextSAR and SegmentBinarySAR: one chunk or none goes the UDH way. */
  function SegmentSar(e: EncodedText, reference: uint16): (r: Option<seq<Segment>>)
  {
    var cs := Chunks(e.kind, e.data, MultiRoom(Sar));
    if cs.None? then None
    else if |cs.value| <= 1 then SegmentUdh(Udh8, e, reference % 256)
    else Assemble(Sar, e.kind, reference, cs)
  }

  function Segmented(carrier: Carrier, e: EncodedText, reference: uint16): (r: Option<seq<Segment>>)
  {
    if carrier.Sar? then SegmentSar(e, reference) else SegmentUdh(carrier, e, reference)
  }

  function BinaryText(data: bytes): (e: EncodedText) { EncodedText(Binary, data, |data|) }

  /** What EncodeText or a binary payload hands to the segmenters. */
  predicate Encoded(e: EncodedText)
  {
    match e.kind
    case GSM7 => Decode(e.data).Some? && AreSeptets(e.data) && e.units == |e.data|
    case UCS2 => DecodeUcs2(e.data).Some? && 2 * e.units == |e.data|
    case UTF16BE => DecodeUtf16be(e.data).Some? && 2 * e.units == |e.data|
    case Binary => e.units == |e.data|
  }
}
