/** What travels is enough: the user data of the parts and their SAR parameters, in any
    order and with the septet counts where the content is packed, give the text back.
    Without the counts they do so exactly where the packing leaves no room for doubt. */
module WireLaws {
  import opened Bytes
  import opened Septets
  import opened Gsm7
  import opened Unicode
  import opened Fields
  import opened Splitters
  import opened Concatenation
  import opened Reassembly
  import opened Segmentation
  import opened SegmentLaws

  /** What a receiver has of a part: its kind from data_coding, the header indicator, the
      user data, the optional parameters and, where the content is packed, the number of
      septets. */
  datatype OnAir = OnAir(kind: Kind, headed: bool, userData: bytes, optional: seq<Tlv>, count: nat)

  function Sent(p: Segment): (a: OnAir)
  {
    OnAir(p.kind, p.udh != [], p.userData, p.optional, p.units)
  }

  /** The header, or the SAR parameters, or neither in a single part. */
  function Heading(a: OnAir): (h: Option<Header>)
  {
    if a.headed then ParseUdh(a.userData)
    else
      var x := ReadSar(a.optional, Seen(None, None, None));
      if x.Some? && SarComplete(x.value)
      then Some(Udh(x.value.reference.value, x.value.total.value, x.value.sequence.value, 0))
      else Some(Udh(0, 1, 1, 0))
  }

  /** The content after n octets of header: `count` septets when it is packed. */
  function Content(packed: bool, a: OnAir, n: nat, count: nat): (s: Option<bytes>)
  {
    if n > |a.userData| then None
    else if !(packed && a.kind.GSM7?) then Some(a.userData[n..])
    else if FillBits(n) + 7 * count > 8 * |a.userData[n..]| then None
    else Some(Unpack(a.userData[n..], count, FillBits(n)))
  }

  /** The part as the receiver rebuilds it, given the number of septets. */
  function Rebuilt(packed: bool, a: OnAir, count: nat): (p: Option<Segment>)
  {
    var h := Heading(a);
    if h.None? then None
    else
      var c := Content(packed, a, h.value.headerLen, count);
      if c.None? then None
      else Some(Segment(h.value.reference, h.value.total, h.value.sequence, a.kind, CodingOf(a.kind),
                        UnitsOf(a.kind, c.value), c.value, a.userData[..h.value.headerLen], a.userData, a.optional))
  }

  function RebuiltAll(packed: bool, air: seq<OnAir>): (ps: Option<seq<Segment>>)
  {
    if air == [] then Some([])
    else
      var p := Rebuilt(packed, air[0], air[0].count);
      if p.None? then None else Prefixed([p.value], RebuiltAll(packed, air[1..]))
  }

  function SentAll(ps: seq<Segment>): (air: seq<OnAir>)
    ensures |air| == |ps| && forall i | 0 <= i < |ps| :: air[i] == Sent(ps[i])
  {
    seq(|ps|, i requires 0 <= i < |ps| => Sent(ps[i]))
  }

  // ----- With the counts -----

  /** Content of septets, and none but septets, where it is GSM 7-bit. */
  predicate Wellformed(kind: Kind, chunk: bytes) { kind.GSM7? ==> AreSeptets(chunk) }

  lemma ContentRecovered(carrier: Carrier, kind: Kind, h: bytes, a: OnAir, chunk: bytes)
    requires Wellformed(kind, chunk) && a.kind == kind && a.userData == h + Wire(carrier, kind, chunk, |h|)
    ensures Content(!carrier.Udh16?, a, |h|, UnitsOf(kind, chunk)) == Some(chunk)
  {
    assert a.userData[|h|..] == Wire(carrier, kind, chunk, |h|);
    if kind.GSM7? && !carrier.Udh16? {
      UnpackPack(chunk, FillBits(|h|));
    }
  }

  /** Every part is rebuilt, field for field, from what travels. */
  lemma PartRebuilt(carrier: Carrier, kind: Kind, reference: uint16, total: byte, i: nat, chunk: bytes)
    requires i < total && Wellformed(kind, chunk)
    ensures var p := Part(carrier, kind, reference, total, i, chunk);
            Rebuilt(!carrier.Udh16?, Sent(p), p.units) == Some(p)
  {
    var p := Part(carrier, kind, reference, total, i, chunk);
    PartHeading(carrier, kind, reference, total, i, chunk);
    ContentRecovered(carrier, kind, p.udh, Sent(p), chunk);
    assert p.userData[..|p.udh|] == p.udh;
  }

  lemma SarHeading(a: OnAir, reference: uint16, total: byte, sequence: byte)
    requires 1 <= sequence <= total && !a.headed && a.optional == SarTlvs(reference, total, sequence)
    ensures Heading(a) == Some(Udh(reference, total, sequence, 0))
  {
    ParseBuiltSar(reference, total, sequence);
  }

  lemma PartHeading(carrier: Carrier, kind: Kind, reference: uint16, total: byte, i: nat, chunk: bytes)
    requires i < total
    ensures var p := Part(carrier, kind, reference, total, i, chunk);
            Heading(Sent(p)) == Some(Udh(p.reference, p.total, p.sequence, |p.udh|))
  {
    if carrier.Sar? {
      SarHeading(Sent(Part(carrier, kind, reference, total, i, chunk)), reference, total, i + 1);
    } else {
      HeaderRecovered(carrier, kind, reference, total, i, chunk);
    }
  }

  lemma SingleHeading(carrier: Carrier, e: EncodedText)
    ensures Heading(Sent(Single(carrier, e))) == Some(Udh(0, 1, 1, 0))
  {
  }

  lemma SingleRebuilt(carrier: Carrier, e: EncodedText)
    requires Encoded(e)
    ensures Rebuilt(!carrier.Udh16?, Sent(Single(carrier, e)), e.units) == Some(Single(carrier, e))
  {
    var p := Single(carrier, e);
    SingleHeading(carrier, e);
    assert p.userData == [] + Wire(carrier, e.kind, e.data, 0);
    ContentRecovered(carrier, e.kind, [], Sent(p), e.data);
  }

  lemma ChunksWellformed(e: EncodedText, room: Room)
    requires Encoded(e) && room.septets >= 2 && room.units >= 2 && room.octets > 0
    ensures Chunks(e.kind, e.data, room).Some?
    ensures var cs := Chunks(e.kind, e.data, room).value; forall i | 0 <= i < |cs| :: Wellformed(e.kind, cs[i])
  {
    ChunksSound(e, room);
    if e.kind.GSM7? {
      SeptetsOfParts(Chunks(e.kind, e.data, room).value);
    }
  }

  predicate AllRebuilt(packed: bool, ps: seq<Segment>)
  {
    forall i | 0 <= i < |ps| :: Rebuilt(packed, Sent(ps[i]), ps[i].units) == Some(ps[i])
  }

  lemma PartsRebuilt(carrier: Carrier, kind: Kind, reference: uint16, cs: seq<bytes>)
    requires 0 < |cs| <= 255 && forall i | 0 <= i < |cs| :: Wellformed(kind, cs[i])
    ensures AllRebuilt(!carrier.Udh16?, Parts(carrier, kind, reference, cs))
  {
    var ps := Parts(carrier, kind, reference, cs);
    forall i | 0 <= i < |ps|
      ensures Rebuilt(!carrier.Udh16?, Sent(ps[i]), ps[i].units) == Some(ps[i])
    {
      PartRebuilt(carrier, kind, reference, |cs|, i, cs[i]);
    }
  }

  lemma UdhRebuilt(carrier: Carrier, e: EncodedText, reference: uint16)
    requires Encoded(e) && !carrier.Sar? && SegmentUdh(carrier, e, reference).Some?
    ensures AllRebuilt(!carrier.Udh16?, SegmentUdh(carrier, e, reference).value)
  {
    if FitsOne(e) {
      SingleRebuilt(carrier, e);
    } else {
      ChunksWellformed(e, MultiRoom(carrier));
      PartsRebuilt(carrier, e.kind, reference, Chunks(e.kind, e.data, MultiRoom(carrier)).value);
    }
  }

  /** Every segment of every message is rebuilt, field for field, from what travels. */
  lemma EverySegmentRebuilt(carrier: Carrier, e: EncodedText, reference: uint16)
    requires Encoded(e) && Segmented(carrier, e, reference).Some?
    ensures AllRebuilt(!carrier.Udh16?, Segmented(carrier, e, reference).value)
  {
    if carrier.Sar? {
      ChunksWellformed(e, MultiRoom(Sar));
      var cs := Chunks(e.kind, e.data, MultiRoom(Sar)).value;
      if |cs| <= 1 {
        UdhRebuilt(Udh8, e, reference % 256);
      } else {
        PartsRebuilt(Sar, e.kind, reference, cs);
      }
    } else {
      UdhRebuilt(carrier, e, reference);
    }
  }

  lemma RebuiltFirst(packed: bool, p: Segment, rest: seq<Segment>)
    requires Rebuilt(packed, Sent(p), p.units) == Some(p) && RebuiltAll(packed, SentAll(rest)) == Some(rest)
    ensures RebuiltAll(packed, SentAll([p] + rest)) == Some([p] + rest)
  {
    assert SentAll([p] + rest)[1..] == SentAll(rest);
  }

  lemma {:induction false} RebuildsInOrder(packed: bool, ps: seq<Segment>)
    requires AllRebuilt(packed, ps)
    ensures RebuiltAll(packed, SentAll(ps)) == Some(ps)
  {
    if ps == [] {
    } else {
      RebuildsInOrder(packed, ps[1..]);
      RebuiltFirst(packed, ps[0], ps[1..]);
      assert [ps[0]] + ps[1..] == ps;
    }
  }

  lemma ArrivedRebuilt(packed: bool, ps: seq<Segment>, arrived: seq<Segment>)
    requires AllRebuilt(packed, ps) && multiset(arrived) == multiset(ps)
    ensures RebuiltAll(packed, SentAll(arrived)) == Some(arrived)
  {
    forall i | 0 <= i < |arrived|
      ensures Rebuilt(packed, Sent(arrived[i]), arrived[i].units) == Some(arrived[i])
    {
      var j := MemberOf(arrived, ps, i);
    }
    RebuildsInOrder(packed, arrived);
  }

  /** Every text that segments comes back from what travels: the user data of its parts,
      with their SAR parameters and septet counts, in any order. */
  lemma WireTextRoundTrip(carrier: Carrier, t: text, allowSurrogates: bool, reference: uint16, arrived: seq<Segment>)
    requires SelectText(t, allowSurrogates).Some?
    requires var e := SelectText(t, allowSurrogates).value;
             Segmented(carrier, e, reference).Some? &&
                 multiset(arrived) == multiset(Segmented(carrier, e, reference).value)
    ensures var got := RebuiltAll(!carrier.Udh16?, SentAll(arrived)); got.Some? && DecodeText(got.value) == Some(t)
  {
    var e := SelectText(t, allowSurrogates).value;
    SelectedIsEncoded(t, allowSurrogates);
    EverySegmentRebuilt(carrier, e, reference);
    ArrivedRebuilt(!carrier.Udh16?, Segmented(carrier, e, reference).value, arrived);
    TextRoundTrip(carrier, t, allowSurrogates, reference, arrived);
  }

  /** The same of every binary payload, for which no count is needed. */
  lemma WireBinaryRoundTrip(carrier: Carrier, data: bytes, reference: uint16, arrived: seq<Segment>)
    requires Segmented(carrier, BinaryText(data), reference).Some?
    requires multiset(arrived) == multiset(Segmented(carrier, BinaryText(data), reference).value)
    ensures var got := RebuiltAll(!carrier.Udh16?, SentAll(arrived)); got.Some? && Reassemble(got.value) == Some(data)
  {
    EverySegmentRebuilt(carrier, BinaryText(data), reference);
    ArrivedRebuilt(!carrier.Udh16?, Segmented(carrier, BinaryText(data), reference).value, arrived);
    BinaryRoundTrip(carrier, data, reference, arrived);
  }

  // ----- Without the counts -----

  /** As many septets as fit after the header. */
  function Guessed(a: OnAir): (n: nat)
  {
    var h := Heading(a);
    if h.None? || h.value.headerLen >= |a.userData| then 0
    else Capacity(|a.userData| - h.value.headerLen, FillBits(h.value.headerLen))
  }

  lemma CapacityFits(octets: nat, fill: nat)
    requires fill <= 6 && octets > 0
    ensures fill + 7 * Capacity(octets, fill) <= 8 * octets
  {
  }

  /** n septets after the fill leave seven bits of padding. */
  predicate SevenLeft(fill: nat, n: nat) { (fill + 7 * n) % 8 == 1 }

  lemma GuessIsRightIff(c: bytes, fill: nat, chunk: bytes)
    requires fill <= 6 && c == Pack(chunk, fill) && AreSeptets(chunk) && chunk != []
    ensures c != [] && fill + 7 * Capacity(|c|, fill) <= 8 * |c|
    ensures Unpack(c, Capacity(|c|, fill), fill) == chunk <==> !SevenLeft(fill, |chunk|)
  {
    RecoverableIff(chunk, fill);
    CapacityFits(|c|, fill);
  }

  lemma ContentGuessedIff(a: OnAir, h: bytes, fill: nat, chunk: bytes)
    requires a.kind.GSM7? && fill == FillBits(|h|) && a.userData == h + Pack(chunk, fill)
    requires AreSeptets(chunk) && chunk != [] && Heading(a).Some? && Heading(a).value.headerLen == |h|
    ensures Content(true, a, |h|, Guessed(a)) == Some(chunk) <==> !SevenLeft(fill, |chunk|)
  {
    var c := Pack(chunk, fill);
    assert a.userData[|h|..] == c;
    GuessIsRightIff(c, fill, chunk);
    assert Guessed(a) == Capacity(|c|, fill);
  }

  /** A packed part, of either carrier, is rebuilt from what travels without its septet
      count if and only if the packing does not end in seven bits of padding: with an
      8-bit header when the count is not a multiple of eight, with SAR parameters when
      it is not seven more than such a multiple. */
  lemma PartRebuiltWithoutCountIff(carrier: Carrier, reference: uint16, total: byte, i: nat, chunk: bytes)
    requires !carrier.Udh16? && i < total && AreSeptets(chunk) && chunk != []
    ensures var p := Part(carrier, GSM7, reference, total, i, chunk);
            Rebuilt(true, Sent(p), Guessed(Sent(p))) == Some(p) <==> |chunk| % 8 != if carrier.Udh8? then 0 else 7
  {
    var p := Part(carrier, GSM7, reference, total, i, chunk);
    PartHeading(carrier, GSM7, reference, total, i, chunk);
    PartRebuilt(carrier, GSM7, reference, total, i, chunk);
    RebuiltByContent(p, |p.udh|, Guessed(Sent(p)));
    PartFill(carrier, reference, total, i);
    ContentGuessedIff(Sent(p), p.udh, if carrier.Udh8? then 1 else 0, chunk);
    SevenLeftIff(|chunk|);
  }

  lemma PartFill(carrier: Carrier, reference: uint16, total: byte, i: nat)
    requires !carrier.Udh16? && i < 255
    ensures FillBits(|HeaderFor(carrier, reference, total, i + 1)|) == if carrier.Udh8? then 1 else 0
  {
  }

  /** The content decides. */
  lemma RebuiltByContent(p: Segment, n: nat, count: nat)
    requires Heading(Sent(p)).Some? && Heading(Sent(p)).value.headerLen == n
    requires Rebuilt(true, Sent(p), p.units) == Some(p)
    ensures Rebuilt(true, Sent(p), count) == Some(p) <==> Content(true, Sent(p), n, count) == Some(p.data)
  {
  }

  lemma SevenLeftIff(n: nat)
    ensures SevenLeft(1, n) <==> n % 8 == 0
    ensures SevenLeft(0, n) <==> n % 8 == 7
  {
    assert 7 * n == 8 * n - n;
  }

  /** And a packed single part, when its count is not seven more than a multiple of
      eight. */
  lemma SingleRebuiltWithoutCountIff(carrier: Carrier, e: EncodedText)
    requires !carrier.Udh16? && Encoded(e) && e.kind.GSM7? && e.data != []
    ensures var p := Single(carrier, e);
            Rebuilt(true, Sent(p), Guessed(Sent(p))) == Some(p) <==> |e.data| % 8 != 7
  {
    var p := Single(carrier, e);
    SingleHeading(carrier, e);
    SingleRebuilt(carrier, e);
    RebuiltByContent(p, 0, Guessed(Sent(p)));
    assert p.userData == [] + Pack(e.data, 0);
    ContentGuessedIff(Sent(p), [], 0, e.data);
    SevenLeftIff(|e.data|);
  }

  // ----- Two texts with the same user data -----

  /** A zero septet behind the content goes into the last part while that has room. */
  lemma {:induction false} SplitGsmMore(s: bytes, max: nat)
    requires max >= 2 && s != [] && SplitGsm(s, max) != []
    requires var ps := SplitGsm(s, max); |ps[|ps| - 1]| < max
    ensures var ps := SplitGsm(s, max); var n := |ps| - 1; SplitGsm(s + [0], max) == ps[..n] + [ps[n] + [0]]
    decreases |s|
  {
    var ps, n := SplitGsm(s, max), CutAt(s, max);
    if n == |s| {
      LastPart(s, max);
      LastPart(s + [0], max);
    } else {
      CutStays(s, max);
      assert ps == [s[..n]] + SplitGsm(s[n..], max);
      SplitGsmMore(s[n..], max);
    }
  }

  lemma CutStays(s: bytes, max: nat)
    requires max >= 2 && s != [] && CutAt(s, max) < |s|
    ensures var n := CutAt(s, max);
            CutAt(s + [0], max) == n && (s + [0])[..n] == s[..n] && (s + [0])[n..] == s[n..] + [0]
  {
  }

  /** The same to a receiver who is not told the number of septets. */
  predicate SameOnAir(p: Segment, q: Segment) { Sent(q) == Sent(p).(count := q.units) }

  predicate AllSameOnAir(ps: seq<Segment>, qs: seq<Segment>)
  {
    |qs| == |ps| && forall i | 0 <= i < |ps| :: SameOnAir(ps[i], qs[i])
  }

  /** The content ends in seven bits of padding. */
  predicate SevenBitsLeft(p: Segment) { SevenLeft(FillBits(|p.udh|), |p.data|) }

  lemma LastPartShared(carrier: Carrier, reference: uint16, total: byte, i: nat, chunk: bytes)
    requires !carrier.Udh16? && i < 255 && AreSeptets(chunk)
    requires SevenBitsLeft(Part(carrier, GSM7, reference, total, i, chunk))
    ensures SameOnAir(Part(carrier, GSM7, reference, total, i, chunk),
            Part(carrier, GSM7, reference, total, i, chunk + [0]))
  {
    PhantomSeptet(chunk, FillBits(|HeaderFor(carrier, reference, total, i + 1)|));
  }

  lemma PartsShared(carrier: Carrier, reference: uint16, cs: seq<bytes>)
    requires !carrier.Udh16? && 0 < |cs| <= 255 && AreSeptets(cs[|cs| - 1])
    requires SevenBitsLeft(Part(carrier, GSM7, reference, |cs|, |cs| - 1, cs[|cs| - 1]))
    ensures AllSameOnAir(Parts(carrier, GSM7, reference, cs),
                         Parts(carrier, GSM7, reference, cs[..|cs| - 1] + [cs[|cs| - 1] + [0]]))
  {
    var n := |cs| - 1;
    var ds := cs[..n] + [cs[n] + [0]];
    var ps, qs := Parts(carrier, GSM7, reference, cs), Parts(carrier, GSM7, reference, ds);
    forall i | 0 <= i < |ps|
      ensures SameOnAir(ps[i], qs[i])
    {
      if i == n {
        LastPartShared(carrier, reference, |cs|, n, cs[n]);
      } else {
        assert ds[i] == cs[i];
      }
    }
  }

  function GsmText(t: text): (e: EncodedText)
    requires Encode(t).Some?
  {
    EncodedText(GSM7, Encode(t).value, |Encode(t).value|)
  }

  lemma GsmTextIsEncoded(t: text)
    requires Encode(t).Some?
    ensures Encoded(GsmText(t))
  {
    EncodedAreSeptets(t);
    DecodeEncode(t);
  }

  lemma ChunksShared(carrier: Carrier, data: bytes, reference: uint16, room: Room)
    requires !carrier.Udh16? && AreSeptets(data) && data != [] && room.septets >= 2 && room.units > 0 && room.octets > 0
    requires var cs := SplitGsm(data, room.septets);
             && 0 < |cs| <= 255 && |cs[|cs| - 1]| < room.septets
             && SevenBitsLeft(Part(carrier, GSM7, reference, |cs|, |cs| - 1, cs[|cs| - 1]))
    ensures var cs, ds := SplitGsm(data, room.septets), SplitGsm(data + [0], room.septets);
            |ds| == |cs| && AllSameOnAir(Parts(carrier, GSM7, reference, cs), Parts(carrier, GSM7, reference, ds))
  {
    var cs := SplitGsm(data, room.septets);
    SplitGsmSound(data, room.septets);
    SeptetsOfParts(cs);
    SplitGsmMore(data, room.septets);
    PartsShared(carrier, reference, cs);
  }

  lemma SingleShared(e: EncodedText, f: EncodedText)
    requires e.kind.GSM7? && AreSeptets(e.data) && f == EncodedText(GSM7, e.data + [0], e.units + 1)
    requires SevenBitsLeft(Single(Udh8, e))
    ensures SameOnAir(Single(Udh8, e), Single(Udh8, f))
  {
    PhantomSeptet(e.data, 0);
  }

  predicate Longer(e: EncodedText, f: EncodedText)
  {
    Encoded(e) && e.kind.GSM7? && f == EncodedText(GSM7, e.data + [0], e.units + 1)
  }

  lemma OneIsSingle(carrier: Carrier, e: EncodedText, reference: uint16)
    requires !carrier.Udh16? && Encoded(e) && e.kind.GSM7? && FitsOne(e)
    ensures Segmented(carrier, e, reference) == Some([Single(Udh8, e)])
  {
    if carrier.Sar? && e.data != [] {
      LastPart(e.data, SINGLE.septets);
    }
  }

  lemma TwoPartsAtLeast(cs: seq<bytes>, s: bytes, low: nat, max: nat)
    requires Concat(cs) == s && Sized(cs, low, max) && |s| > max
    ensures |cs| >= 2
  {
    if |cs| == 1 {
      OnePart(cs);
    }
  }

  lemma OnePart(cs: seq<bytes>)
    requires |cs| == 1
    ensures Concat(cs) == cs[0]
  {
    assert cs == [cs[0]] + [];
    ConcatCons(cs[0], []);
  }

  /** The chunks of a message that does not fit one part. */
  function ManyChunks(carrier: Carrier, e: EncodedText): (cs: seq<bytes>)
  {
    SplitGsm(e.data, MultiRoom(carrier).septets)
  }

  lemma ManyIsAssembled(carrier: Carrier, e: EncodedText, reference: uint16)
    requires !carrier.Udh16? && Encoded(e) && e.kind.GSM7? && !FitsOne(e)
    ensures |ManyChunks(carrier, e)| >= 2
    ensures Segmented(carrier, e, reference) == Assemble(carrier, GSM7, reference, Some(ManyChunks(carrier, e)))
  {
    var max := MultiRoom(carrier).septets;
    SplitGsmSound(e.data, max);
    TwoPartsAtLeast(ManyChunks(carrier, e), e.data, max - 1, max);
  }

  lemma OneShared(carrier: Carrier, e: EncodedText, f: EncodedText, reference: uint16)
    requires !carrier.Udh16? && Longer(e, f) && Encoded(f) && e.units < SINGLE.septets && SevenBitsLeft(Single(Udh8, e))
    ensures Segmented(carrier, e, reference).Some? && Segmented(carrier, f, reference).Some?
    ensures AllSameOnAir(Segmented(carrier, e, reference).value, Segmented(carrier, f, reference).value)
  {
    SingleShared(e, f);
    OneIsSingle(carrier, e, reference);
    OneIsSingle(carrier, f, reference);
  }

  lemma ManyPartsShared(carrier: Carrier, e: EncodedText, f: EncodedText, reference: uint16)
    requires !carrier.Udh16? && Longer(e, f) && e.data != []
    requires var cs := ManyChunks(carrier, e);
             && 0 < |cs| <= 255 && |cs[|cs| - 1]| < MultiRoom(carrier).septets
             && SevenBitsLeft(Part(carrier, GSM7, reference, |cs|, |cs| - 1, cs[|cs| - 1]))
    ensures var cs, ds := ManyChunks(carrier, e), ManyChunks(carrier, f);
            |ds| == |cs| && AllSameOnAir(Parts(carrier, GSM7, reference, cs), Parts(carrier, GSM7, reference, ds))
  {
    ChunksShared(carrier, e.data, reference, MultiRoom(carrier));
  }

  lemma ManyShared(carrier: Carrier, e: EncodedText, f: EncodedText, reference: uint16)
    requires !carrier.Udh16? && Longer(e, f) && Encoded(f) && !FitsOne(e)
    requires var cs := ManyChunks(carrier, e);
             && 0 < |cs| <= 255 && |cs[|cs| - 1]| < MultiRoom(carrier).septets
             && SevenBitsLeft(Part(carrier, GSM7, reference, |cs|, |cs| - 1, cs[|cs| - 1]))
    ensures Segmented(carrier, e, reference).Some? && Segmented(carrier, f, reference).Some?
    ensures AllSameOnAir(Segmented(carrier, e, reference).value, Segmented(carrier, f, reference).value)
  {
    assert !FitsOne(f);
    ManyIsAssembled(carrier, e, reference);
    ManyIsAssembled(carrier, f, reference);
    ManyPartsShared(carrier, e, f, reference);
  }

  /** The last part has seven bits of padding, and room for one more septet. */
  predicate RoomForPhantom(carrier: Carrier, ps: seq<Segment>)
  {
    && ps != [] && SevenBitsLeft(ps[|ps| - 1])
    && |ps[|ps| - 1].data| < if |ps| == 1 then SINGLE.septets else MultiRoom(carrier).septets
  }

  lemma LongerShared(carrier: Carrier, e: EncodedText, f: EncodedText, reference: uint16)
    requires !carrier.Udh16? && Longer(e, f) && Encoded(f) && Segmented(carrier, e, reference).Some?
    requires RoomForPhantom(carrier, Segmented(carrier, e, reference).value)
    ensures Segmented(carrier, f, reference).Some?
    ensures AllSameOnAir(Segmented(carrier, e, reference).value, Segmented(carrier, f, reference).value)
  {
    if FitsOne(e) {
      OneIsSingle(carrier, e, reference);
      OneShared(carrier, e, f, reference);
    } else {
      ManyIsAssembled(carrier, e, reference);
      ManyShared(carrier, e, f, reference);
    }
  }

  /** Then no receiver can tell a text from the same text with a commercial at behind it:
      whenever the last packed part has seven bits of padding and room for one more
      septet, the two are sent as the same user data with the same parameters, and only
      the septet count differs. */
  lemma TwoTextsOneUserData(carrier: Carrier, t: text, reference: uint16)
    requires !carrier.Udh16? && Encode(t).Some? && Segmented(carrier, GsmText(t), reference).Some?
    requires RoomForPhantom(carrier, Segmented(carrier, GsmText(t), reference).value)
    ensures t + [0x40] != t && Encode(t + [0x40]).Some? && Segmented(carrier, GsmText(t + [0x40]), reference).Some?
    ensures AllSameOnAir(Segmented(carrier, GsmText(t), reference).value,
                         Segmented(carrier, GsmText(t + [0x40]), reference).value)
  {
    EncodeAt(t);
    GsmTextIsEncoded(t);
    GsmTextIsEncoded(t + [0x40]);
    LongerShared(carrier, GsmText(t), GsmText(t + [0x40]), reference);
  }
}
