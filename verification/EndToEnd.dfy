/** End to end: PDUs encoded at one side of a TCP connection, cut anywhere, framed
    and decoded at the other side (session/rx.go over codec/). */
module EndToEnd {
  import opened Bytes
  import opened Bodies
  import opened Pdu
  import Framing

  /** What the receive path answers to a frame: a fatal decoding error ends the
      stream; any other outcome, a negative acknowledgement included, goes on. */
  function Receive(strict: bool): (emit: Framing.Emit)
  {
    (f: bytes) =>
      match DecodePDU(strict, f)
      case Ok(_) => None
      case Err(e) => if e.Fatal? then Some(e) else None
  }

  /** A PDU that can be sent: it encodes within the receiver's limit and is one the
      two directions of the codec agree on. */
  predicate Sendable(strict: bool, max: uint32, p: (Header, Body))
  {
    && EncodePDU(strict, p.0, p.1).Ok?
    && |EncodePDU(strict, p.0, p.1).value| <= max
    && CanonicalPDU(strict, p.0, p.1)
  }

  predicate AllSendable(strict: bool, max: uint32, ps: seq<(Header, Body)>)
  {
    forall i | 0 <= i < |ps| :: Sendable(strict, max, ps[i])
  }

  /** The octets a PDU puts on the wire. */
  function Frame(strict: bool, p: (Header, Body)): (f: bytes)
  {
    var r := EncodePDU(strict, p.0, p.1);
    if r.Ok? then r.value else []
  }

  function Map<A, B>(f: A -> B, xs: seq<A>): (ys: seq<B>)
    ensures |ys| == |xs| && forall i | 0 <= i < |xs| :: ys[i] == f(xs[i])
  {
    seq(|xs|, i requires 0 <= i < |xs| => f(xs[i]))
  }

  function Frames(strict: bool, ps: seq<(Header, Body)>): (fs: seq<bytes>)
  {
    Map(p => Frame(strict, p), ps)
  }

  /** What the receiver makes of a list of frames. */
  function Decoded(strict: bool, fs: seq<bytes>): (r: seq<Result<(Header, Body)>>)
  {
    Map(f => DecodePDU(strict, f), fs)
  }

  /** A PDU with its length filled in: what the receiver should see. */
  function Arrived(strict: bool, p: (Header, Body)): (r: Result<(Header, Body)>)
  {
    Ok((p.0.(length := WireLength(|Frame(strict, p)|)), p.1))
  }

  function Expected(strict: bool, ps: seq<(Header, Body)>): (r: seq<Result<(Header, Body)>>)
  {
    Map(p => Arrived(strict, p), ps)
  }

  lemma SendableIsWhole(strict: bool, max: uint32, p: (Header, Body))
    requires Sendable(strict, max, p)
    ensures Framing.WholeFrame(Frame(strict, p), max)
  {
    var f := Frame(strict, p);
    EncodedHeader(strict, p.0, p.1, f);
    assert f[0..4] == f[..4];
  }

  lemma SendableDecodes(strict: bool, max: uint32, p: (Header, Body))
    requires Sendable(strict, max, p)
    ensures DecodePDU(strict, Frame(strict, p)) == Arrived(strict, p)
  {
    SmallLength(|Frame(strict, p)|);
    DecodeEncodePDU(strict, p.0, p.1);
  }

  lemma SmallLength(n: nat)
    requires n < 0x1_0000_0000
    ensures WireLength(n) == n
  {
  }

  lemma SendableFrame(strict: bool, max: uint32, p: (Header, Body))
    requires Sendable(strict, max, p)
    ensures Framing.WholeFrame(Frame(strict, p), max)
    ensures DecodePDU(strict, Frame(strict, p)) == Arrived(strict, p)
    ensures Receive(strict)(Frame(strict, p)) == None
  {
    SendableIsWhole(strict, max, p);
    SendableDecodes(strict, max, p);
  }

  predicate Accepted(emit: Framing.Emit, max: uint32, fs: seq<bytes>)
  {
    forall i | 0 <= i < |fs| :: Framing.WholeFrame(fs[i], max) && emit(fs[i]) == None
  }

  lemma SplitFirstFrame(emit: Framing.Emit, max: uint32, f: bytes, rest: bytes)
    requires Framing.WholeFrame(f, max) && emit(f) == None
    ensures Framing.Split(emit, max, f + rest) == Framing.Prepend([f], Framing.Split(emit, max, rest))
  {
    assert (f + rest)[..4] == f[..4] && (f + rest)[..|f|] == f && (f + rest)[|f|..] == rest;
  }

  /** Whole accepted frames one after the other split back into themselves. */
  lemma {:induction false} SplitOfFrames(emit: Framing.Emit, max: uint32, fs: seq<bytes>)
    requires Accepted(emit, max, fs)
    ensures Framing.Split(emit, max, Concat(fs)) == Framing.Outcome(fs, Framing.Rest([]))
  {
    if fs == [] {
    } else {
      SplitOfFrames(emit, max, fs[1..]);
      SplitFirstFrame(emit, max, fs[0], Concat(fs[1..]));
      assert [fs[0]] + fs[1..] == fs;
    }
  }

  lemma MapMap<A, B, C>(f: A -> B, g: B -> C, h: A -> C, xs: seq<A>)
    requires forall i | 0 <= i < |xs| :: g(f(xs[i])) == h(xs[i])
    ensures Map(g, Map(f, xs)) == Map(h, xs)
  {
  }

  lemma DecodedFrames(strict: bool, max: uint32, ps: seq<(Header, Body)>)
    requires AllSendable(strict, max, ps)
    ensures Decoded(strict, Frames(strict, ps)) == Expected(strict, ps)
  {
    var f, g, h := (p: (Header, Body)) => Frame(strict, p), (s: bytes) => DecodePDU(strict, s),
        (p: (Header, Body)) => Arrived(strict, p);
    forall i | 0 <= i < |ps| ensures g(f(ps[i])) == h(ps[i]) {
      SendableFrame(strict, max, ps[i]);
    }
    MapMap(f, g, h, ps);
  }

  lemma FramesAccepted(strict: bool, max: uint32, ps: seq<(Header, Body)>)
    requires AllSendable(strict, max, ps)
    ensures Accepted(Receive(strict), max, Frames(strict, ps))
  {
    var fs := Frames(strict, ps);
    forall i | 0 <= i < |fs| ensures Framing.WholeFrame(fs[i], max) && Receive(strict)(fs[i]) == None {
      SendableFrame(strict, max, ps[i]);
    }
  }

  /** Every list of sendable PDUs, in every fragmentation of its octets, comes out of
      the framer as exactly its frames and out of the decoder as exactly the same
      headers and bodies, in order, with nothing left over and no error. */
  lemma EveryFragmentationDelivers(strict: bool, max: uint32, ps: seq<(Header, Body)>, chunks: seq<bytes>)
    requires AllSendable(strict, max, ps)
    requires Concat(chunks) == Concat(Frames(strict, ps))
    ensures var r := Framing.FeedAll(Receive(strict), max, Framing.Live([]), chunks);
            && r.stream == Framing.Live([]) && r.error == None
            && Decoded(strict, r.frames) == Expected(strict, ps)
            && Framing.FinalizeSpec(r.stream) == None
  {
    var fs := Frames(strict, ps);
    DecodedFrames(strict, max, ps);
    FramesAccepted(strict, max, ps);
    SplitOfFrames(Receive(strict), max, fs);
    Framing.FragmentationIndependence(Receive(strict), max, chunks);
  }
}
