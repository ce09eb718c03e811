/** The body decoders as the source writes them (codec/smpp34.go,
    codec/smpp34_extra.go): a reader whose offset moves through the body, proved
    against the parsers of module Bodies. */
module Decoders {
  import opened Bytes
  import opened Fields
  import opened Bodies

  /** What a read returned, and what it left, is what the parser says. */
  predicate Reads<T(==)>(spec: Result<(T, bytes)>, r: Result<T>, rest: bytes)
  {
    match r
    case Ok(v) => spec == Ok((v, rest))
    case Err(e) => spec == Err(e)
  }

  /** The first NUL among the first n octets. */
  lemma {:induction false} ReadCAt(src: bytes, max: nat, k: nat)
    requires k < |src| && k < max && src[k] == 0 && 0 !in src[..k]
    ensures ReadC(src, max) == Ok((src[..k], src[k + 1..]))
  {
    if k == 0 {
    } else {
      assert src[0] in src[..k];
      assert src[1..][..k - 1] == src[1..k] && src[..k] == [src[0]] + src[1..k];
      assert forall x | x in src[1..k] :: x in src[..k];
      ReadCAt(src[1..], max - 1, k - 1);
      assert src[1..][k..] == src[k + 1..];
    }
  }

  lemma {:induction false} ReadCNone(src: bytes, max: nat)
    requires 0 !in src[..if |src| < max then |src| else max]
    ensures ReadC(src, max) == Err(BAD_CSTRING)
  {
    var n := if |src| < max then |src| else max;
    if n > 0 {
      assert src[0] in src[..n];
      assert src[1..][..n - 1] == src[1..n];
      assert forall x | x in src[1..n] :: x in src[..n];
      ReadCNone(src[1..], max - 1);
    }
  }

  /** ReadCString: how long the value is. */
  method FindNul(src: bytes, max: nat) returns (r: Result<nat>)
    requires max > 0
    ensures match r
            case Ok(k) => k < |src| && ReadC(src, max) == Ok((src[..k], src[k + 1..]))
            case Err(e) => ReadC(src, max) == Err(e)
  {
    var limit := |src|;
    if max < limit {
      limit := max;
    }
    for k := 0 to limit
      invariant 0 !in src[..k]
    {
      if src[k] == 0 {
        ReadCAt(src, max, k);
        return Ok(k);
      }
      assert src[..k + 1] == src[..k] + [src[k]];
    }
    ReadCNone(src, max);
    r := Err(BAD_CSTRING);
  }

  class BodyReader {
    const src: bytes
    var off: nat

    ghost predicate Valid()
      reads this
    {
      off <= |src|
    }

    /** What is left to read. */
    ghost function Rest(): (s: bytes)
      requires Valid()
      reads this
    {
      src[off..]
    }

    constructor (body: bytes)
      ensures Valid() && Rest() == body
    {
      src := body;
      off := 0;
    }

    method CString(max: nat) returns (r: Result<bytes>)
      requires Valid() && max > 0
      modifies this`off
      ensures Valid() && Reads(ReadC(old(Rest()), max), r, Rest())
    {
      var rest := src[off..];
      var k :- FindNul(rest, max);
      assert rest[k + 1..] == src[off + k + 1..];
      off := off + k + 1;
      r := Ok(rest[..k]);
    }

    method Uint8() returns (r: Result<byte>)
      requires Valid()
      modifies this`off
      ensures Valid() && Reads(Read8(old(Rest())), r, Rest())
    {
      if |src| - off < 1 {
        return Err(BAD_FIELD);
      }
      assert src[off..][1..] == src[off + 1..];
      r := Ok(src[off]);
      off := off + 1;
    }

    method Uint32() returns (r: Result<uint32>)
      requires Valid()
      modifies this`off
      ensures Valid() && Reads(Read32(old(Rest())), r, Rest())
    {
      if |src| - off < 4 {
        return Err(BAD_FIELD);
      }
      assert src[off..][..4] == src[off..off + 4] && src[off..][4..] == src[off + 4..];
      r := Ok(U32(src[off..off + 4]));
      off := off + 4;
    }

    method Octets(n: nat) returns (r: Result<bytes>)
      requires Valid()
      modifies this`off
      ensures Valid() && Reads(ReadOctets(old(Rest()), n), r, Rest())
    {
      if n > |src| - off {
        return Err(BAD_FIELD);
      }
      assert src[off..][..n] == src[off..off + n] && src[off..][n..] == src[off + n..];
      r := Ok(src[off..off + n]);
      off := off + n;
    }

    /** Everything that is left, as optional parameters. */
    method Optional() returns (r: Result<seq<Tlv>>)
      requires Valid()
      modifies this`off
      ensures Valid() && r == ReadTlvs(old(Rest()))
    {
      if off == |src| {
        return Ok([]);
      }
      var remaining := src[off..];
      var take := (_: Tlv) => true;
      var err, parameters := ScanTLVs(remaining, take);
      ScanIsRead(remaining, take);
      if err.Some? {
        return Err(err.value);
      }
      off := |src|;
      r := Ok(parameters);
    }

    method Address(max: nat) returns (r: Result<Address>)
      requires Valid() && max > 0
      modifies this`off
      ensures Valid() && Reads(ReadA(old(Rest()), max), r, Rest())
    {
      var ton :- Uint8();
      var npi :- Uint8();
      var addr :- CString(max);
      r := Ok(Bodies.Address(ton, npi, addr));
    }

    /** sm_length and the short message. */
    method Text() returns (r: Result<bytes>)
      requires Valid()
      modifies this`off
      ensures Valid() && Reads(ReadText(old(Rest())), r, Rest())
    {
      var len :- Uint8();
      if len == 255 {
        return Err(Semantic(STATUS_INVALID_MESSAGE_LENGTH));
      }
      r := Octets(len);
    }

    method RequireDone() returns (r: Result<()>)
      requires Valid()
      ensures r == if Rest() == [] then Ok(()) else Err(Semantic(STATUS_INVALID_COMMAND_LENGTH))
    {
      r := if off != |src| then Err(Semantic(STATUS_INVALID_COMMAND_LENGTH)) else Ok(());
    }

    /** The part that submit_sm, deliver_sm and submit_multi share; it ends the body. */
    method MessagePart() returns (r: Result<Message>)
      requires Valid()
      modifies this`off
      ensures Valid() && r == ReadMessage(old(Rest()))
    {
      var esm :- Uint8();
      var pid :- Uint8();
      var pri :- Uint8();
      var sch :- CString(MAX_TIME);
      var val :- CString(MAX_TIME);
      var reg :- Uint8();
      var rep :- Uint8();
      var cod :- Uint8();
      var def :- Uint8();
      var text :- Text();
      var opt :- Optional();
      if HasPayload(opt) && text != [] {
        return Err(Semantic(STATUS_INVALID_OPTIONAL_PARAMETER_VALUE));
      }
      r := Ok(Message(esm, pid, pri, sch, val, reg, rep, cod, def, text, opt));
    }

    method Destination(declared: uint32) returns (r: Result<Destination>)
      requires Valid()
      modifies this`off
      ensures Valid() && Reads(ReadDest(old(Rest()), declared), r, Rest())
    {
      var flag :- Uint8();
      if flag == FLAG_SME {
        var ton :- Uint8();
        var npi :- Uint8();
        var name :- CString(MAX_ADDRESS);
        return Ok(Bodies.Destination(flag, ton, npi, name));
      }
      if flag == FLAG_DISTRIBUTION_LIST {
        var name :- CString(MAX_ADDRESS);
        return Ok(Bodies.Destination(flag, 0, 0, name));
      }
      r := Err(Fatal(FrameBoundaryLost, declared));
    }

    /** number_of_dests and the destinations. */
    method Destinations(declared: uint32) returns (r: Result<seq<Destination>>)
      requires Valid()
      modifies this`off
      ensures Valid() && Reads(ReadDestList(old(Rest()), declared), r, Rest())
    {
      var count :- Uint8();
      if count == 0 || count == 255 {
        return Err(Semantic(STATUS_INVALID_NUMBER_OF_DESTINATIONS));
      }
      ghost var read := s => ReadDest(s, declared);
      ghost var whole := ReadMany(read, Rest(), count);
      var dests: seq<Bodies.Destination> := [];
      MoreNothing(whole);
      for i := 0 to count
        invariant Valid() && whole == More(dests, ReadMany(read, Rest(), count - i))
      {
        ManyStep(read, dests, Rest(), count - i);
        var d :- Destination(declared);
        dests := dests + [d];
      }
      assert dests + [] == dests;
      r := Ok(dests);
    }

    method Failure() returns (r: Result<Unsuccessful>)
      requires Valid()
      modifies this`off
      ensures Valid() && Reads(ReadFailure(old(Rest())), r, Rest())
    {
      var a :- Address(MAX_ADDRESS);
      var status :- Uint32();
      r := Ok(Unsuccessful(a, status));
    }

    method FailureEntries(count: nat) returns (r: Result<seq<Unsuccessful>>)
      requires Valid()
      modifies this`off
      ensures Valid() && Reads(ReadFailures(old(Rest()), count), r, Rest())
    {
      ghost var read := s => ReadFailure(s);
      ghost var whole := ReadMany(read, Rest(), count);
      var entries: seq<Unsuccessful> := [];
      MoreNothing(whole);
      for i := 0 to count
        invariant Valid() && whole == More(entries, ReadMany(read, Rest(), count - i))
      {
        ManyStep(read, entries, Rest(), count - i);
        var u :- Failure();
        entries := entries + [u];
      }
      assert entries + [] == entries;
      r := Ok(entries);
    }

    /** no_unsuccess and the entries. */
    method Failures() returns (r: Result<seq<Unsuccessful>>)
      requires Valid()
      modifies this`off
      ensures Valid() && Reads(ReadFailureList(old(Rest())), r, Rest())
    {
      var count :- Uint8();
      r := FailureEntries(count);
    }
  }

  /** Elements already read in front of those still to come. */
  function More<T>(xs: seq<T>, spec: Result<(seq<T>, bytes)>): (r: Result<(seq<T>, bytes)>)
  {
    match spec
    case Ok((ys, rest)) => Ok((xs + ys, rest))
    case Err(e) => Err(e)
  }

  lemma MoreNothing<T>(spec: Result<(seq<T>, bytes)>)
    ensures More([], spec) == spec
  {
    if spec.Ok? { assert [] + spec.value.0 == spec.value.0; }
  }

  lemma ManyStep<T>(read: bytes -> Result<(T, bytes)>, xs: seq<T>, src: bytes, n: nat)
    requires n > 0
    ensures match read(src)
            case Ok((x, rest)) => More(xs, ReadMany(read, src, n)) == More(xs + [x], ReadMany(read, rest, n - 1))
            case Err(e) => More(xs, ReadMany(read, src, n)) == Err(e)
  {
    match read(src)
    case Ok((x, rest)) =>
      var next := ReadMany(read, rest, n - 1);
      if next.Ok? { assert xs + ([x] + next.value.0) == (xs + [x]) + next.value.0; }
    case Err(_) =>
  }

  // ----- One decoder per body -----

  method DecodeBind(body: bytes) returns (r: Result<Body>)
    ensures r == ReadBind(body)
  {
    var rd := new BodyReader(body);
    var id :- rd.CString(MAX_SYSTEM_ID);
    var pw :- rd.CString(MAX_PASSWORD);
    var st :- rd.CString(MAX_SYSTEM_TYPE);
    var version :- rd.Uint8();
    var a :- rd.Address(MAX_ADDRESS_RANGE);
    var _ :- rd.RequireDone();
    r := Ok(BindReq(id, pw, st, version, a.ton, a.npi, a.addr));
  }

  method DecodeIdAndTlvs(body: bytes, max: nat) returns (r: Result<(bytes, seq<Tlv>)>)
    requires max > 0
    ensures r == ReadIdAndTlvs(body, max)
  {
    var rd := new BodyReader(body);
    var id :- rd.CString(max);
    var o :- rd.Optional();
    r := Ok((id, o));
  }

  method DecodeBindResp(body: bytes) returns (r: Result<Body>)
    ensures r == ReadBindResp(body)
  {
    var pair :- DecodeIdAndTlvs(body, MAX_SYSTEM_ID);
    var o := pair.1;
    for i := 0 to |o|
      invariant forall k | 0 <= k < i :: o[k].tag == TAG_SC_INTERFACE_VERSION ==> |o[k].value| == 1
    {
      if o[i].tag == TAG_SC_INTERFACE_VERSION && |o[i].value| != 1 {
        assert o[i] in o;
        return Err(Semantic(STATUS_INVALID_PARAMETER_LENGTH));
      }
    }
    r := Ok(BindResp(pair.0, o));
  }

  method DecodeShort(body: bytes) returns (r: Result<(bytes, Address, Address, Message)>)
    ensures r == ReadShort(body)
  {
    var rd := new BodyReader(body);
    var st :- rd.CString(MAX_SERVICE_TYPE);
    var source :- rd.Address(MAX_ADDRESS);
    var dest :- rd.Address(MAX_ADDRESS);
    var m :- rd.MessagePart();
    r := Ok((st, source, dest, m));
  }

  method DecodeData(body: bytes) returns (r: Result<Body>)
    ensures r == ReadData(body)
  {
    var rd := new BodyReader(body);
    var st :- rd.CString(MAX_SERVICE_TYPE);
    var source :- rd.Address(MAX_DATA_ADDRESS);
    var dest :- rd.Address(MAX_DATA_ADDRESS);
    var esm :- rd.Uint8();
    var reg :- rd.Uint8();
    var cod :- rd.Uint8();
    var o :- rd.Optional();
    r := Ok(DataSM(st, source, dest, esm, reg, cod, o));
  }

  method DecodeQuery(body: bytes) returns (r: Result<Body>)
    ensures r == ReadQuery(body)
  {
    var rd := new BodyReader(body);
    var id :- rd.CString(MAX_MESSAGE_ID);
    var source :- rd.Address(MAX_ADDRESS);
    var _ :- rd.RequireDone();
    r := Ok(QuerySM(id, source));
  }

  method DecodeQueryResp(body: bytes) returns (r: Result<Body>)
    ensures r == ReadQueryResp(body)
  {
    var rd := new BodyReader(body);
    var id :- rd.CString(MAX_MESSAGE_ID);
    var date :- rd.CString(MAX_TIME);
    var state :- rd.Uint8();
    var code :- rd.Uint8();
    var o :- rd.Optional();
    r := Ok(QuerySMResp(id, date, state, code, o));
  }

  method DecodeCancel(body: bytes) returns (r: Result<Body>)
    ensures r == ReadCancel(body)
  {
    var rd := new BodyReader(body);
    var st :- rd.CString(MAX_SERVICE_TYPE);
    var id :- rd.CString(MAX_MESSAGE_ID);
    var source :- rd.Address(MAX_ADDRESS);
    var dest :- rd.Address(MAX_ADDRESS);
    var _ :- rd.RequireDone();
    r := Ok(CancelSM(st, id, source, dest));
  }

  method DecodeReplace(body: bytes) returns (r: Result<Body>)
    ensures r == ReadReplace(body)
  {
    var rd := new BodyReader(body);
    var id :- rd.CString(MAX_MESSAGE_ID);
    var source :- rd.Address(MAX_ADDRESS);
    var sched :- rd.CString(MAX_TIME);
    var val :- rd.CString(MAX_TIME);
    var reg :- rd.Uint8();
    var def :- rd.Uint8();
    var text :- rd.Text();
    var _ :- rd.RequireDone();
    r := Ok(ReplaceSM(id, source, sched, val, reg, def, text));
  }

  method DecodeAlert(body: bytes) returns (r: Result<Body>)
    ensures r == ReadAlert(body)
  {
    var rd := new BodyReader(body);
    var source :- rd.Address(MAX_DATA_ADDRESS);
    var esme :- rd.Address(MAX_DATA_ADDRESS);
    var o :- rd.Optional();
    r := Ok(AlertNotification(source, esme, o));
  }

  method DecodeOutbind(body: bytes) returns (r: Result<Body>)
    ensures r == ReadOutbind(body)
  {
    var rd := new BodyReader(body);
    var id :- rd.CString(MAX_SYSTEM_ID);
    var pw :- rd.CString(MAX_PASSWORD);
    var _ :- rd.RequireDone();
    r := Ok(Outbind(id, pw));
  }

  method DecodeMulti(body: bytes, declared: uint32) returns (r: Result<Body>)
    ensures r == ReadMulti(body, declared)
  {
    var rd := new BodyReader(body);
    var st :- rd.CString(MAX_SERVICE_TYPE);
    var source :- rd.Address(MAX_ADDRESS);
    var ds :- rd.Destinations(declared);
    var m :- rd.MessagePart();
    r := Ok(SubmitMulti(st, source, ds, m));
  }

  method DecodeMultiResp(body: bytes) returns (r: Result<Body>)
    ensures r == ReadMultiResp(body)
  {
    var rd := new BodyReader(body);
    var id :- rd.CString(MAX_MESSAGE_ID);
    var us :- rd.Failures();
    var o :- rd.Optional();
    r := Ok(SubmitMultiResp(id, us, o));
  }
}
