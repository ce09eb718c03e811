/** The body encoders as the source writes them: a buffer that grows field by field.
    Each appender is told, for the proof only, what will follow its field. */
module Encoders {
  import opened Bytes
  import opened Fields
  import opened Bodies

  method AppendCString(dst: bytes, value: bytes, max: nat, ghost rest: bytes) returns (r: Result<bytes>)
    ensures r.Ok? <==> FitsC(value, max)
    ensures r.Ok? ==> r.value + rest == dst + PutC(value, rest)
  {
    if 0 in value || |value| + 1 > max {
      return Err(Rejected);
    }
    assert dst + value + [0] + rest == dst + (value + [0] + rest);
    r := Ok(dst + value + [0]);
  }

  method AppendByte(dst: bytes, b: byte, ghost rest: bytes) returns (out: bytes)
    ensures out + rest == dst + Put8(b, rest)
  {
    assert dst + [b] + rest == dst + ([b] + rest);
    out := dst + [b];
  }

  method AppendOctets(dst: bytes, value: bytes, ghost rest: bytes) returns (out: bytes)
    ensures out + rest == dst + (value + rest)
  {
    assert dst + value + rest == dst + (value + rest);
    out := dst + value;
  }

  method AppendAddress(dst: bytes, a: Address, max: nat, ghost rest: bytes) returns (r: Result<bytes>)
    ensures r.Ok? <==> FitsA(a, max)
    ensures r.Ok? ==> r.value + rest == dst + PutA(a, rest)
  {
    var out := AppendByte(dst, a.ton, Put8(a.npi, PutC(a.addr, rest)));
    out := AppendByte(out, a.npi, PutC(a.addr, rest));
    r := AppendCString(out, a.addr, max, rest);
  }

  method AppendText(dst: bytes, text: bytes, ghost rest: bytes) returns (out: bytes)
    requires |text| <= MAX_SHORT_MESSAGE
    ensures out + rest == dst + PutText(text, rest)
  {
    out := AppendByte(dst, |text|, text + rest);
    out := AppendOctets(out, text, rest);
  }

  /** hasNonEmptyMessagePayload */
  method FindPayload(ts: seq<Tlv>) returns (found: bool)
    ensures found <==> HasPayload(ts)
  {
    for i := 0 to |ts|
      invariant forall k | 0 <= k < i :: !(ts[k].tag == TAG_MESSAGE_PAYLOAD && ts[k].value != [])
    {
      if ts[i].tag == TAG_MESSAGE_PAYLOAD && |ts[i].value| > 0 {
        assert ts[i] in ts;
        return true;
      }
    }
    found := false;
  }

  /** The length and payload checks that come before anything is written. */
  method CheckMessage(m: Message) returns (ok: bool)
    ensures ok <==> |m.text| <= MAX_SHORT_MESSAGE && !(HasPayload(m.optional) && m.text != [])
  {
    if |m.text| > MAX_SHORT_MESSAGE {
      return false;
    }
    var payload := FindPayload(m.optional);
    ok := !(payload && |m.text| != 0);
  }

  method AppendMessage(dst: bytes, m: Message) returns (r: Result<bytes>)
    requires |m.text| <= MAX_SHORT_MESSAGE && !(HasPayload(m.optional) && m.text != [])
    ensures r.Ok? <==> FitsMessage(m)
    ensures r.Ok? ==> r.value == dst + PutMessage(m)
  {
    ghost var s9 := PutText(m.text, PutTlvs(m.optional));
    ghost var s5 := Put8(m.registered, Put8(m.replaceIfPresent, Put8(m.coding, Put8(m.defaultId, s9))));
    ghost var s4 := PutC(m.validity, s5);
    ghost var s3 := PutC(m.schedule, s4);
    var out := AppendByte(dst, m.esmClass, Put8(m.protocolId, Put8(m.priority, s3)));
    out := AppendByte(out, m.protocolId, Put8(m.priority, s3));
    out := AppendByte(out, m.priority, s3);
    out :- AppendCString(out, m.schedule, MAX_TIME, s4);
    out :- AppendCString(out, m.validity, MAX_TIME, s5);
    out := AppendByte(out, m.registered, Put8(m.replaceIfPresent, Put8(m.coding, Put8(m.defaultId, s9))));
    out := AppendByte(out, m.replaceIfPresent, Put8(m.coding, Put8(m.defaultId, s9)));
    out := AppendByte(out, m.coding, Put8(m.defaultId, s9));
    out := AppendByte(out, m.defaultId, s9);
    out := AppendText(out, m.text, PutTlvs(m.optional));
    r := AppendOptional(out, m.optional);
  }

  method AppendDestination(dst: bytes, d: Destination, ghost rest: bytes) returns (r: Result<bytes>)
    ensures r.Ok? <==> FitsDest(d)
    ensures r.Ok? ==> r.value + rest == dst + PutDest(d, rest)
  {
    var out;
    if d.flag == FLAG_SME {
      out := AppendByte(dst, d.flag, Put8(d.ton, Put8(d.npi, PutC(d.name, rest))));
      out := AppendByte(out, d.ton, Put8(d.npi, PutC(d.name, rest)));
      out := AppendByte(out, d.npi, PutC(d.name, rest));
    } else if d.flag == FLAG_DISTRIBUTION_LIST {
      out := AppendByte(dst, d.flag, PutC(d.name, rest));
    } else {
      return Err(Rejected);
    }
    r := AppendCString(out, d.name, MAX_ADDRESS, rest);
  }

  lemma ManyHead<T>(put: (T, bytes) -> bytes, xs: seq<T>, i: nat, rest: bytes)
    requires i < |xs|
    ensures PutMany(put, xs[i..], rest) == put(xs[i], PutMany(put, xs[i + 1..], rest))
  {
    assert xs[i..][1..] == xs[i + 1..];
  }

  method AppendDestinations(dst: bytes, ds: seq<Destination>, ghost rest: bytes) returns (r: Result<bytes>)
    ensures r.Ok? <==> FitsDests(ds)
    ensures r.Ok? ==> r.value + rest == dst + PutDests(ds, rest)
  {
    var out := dst;
    ghost var put := PutDest;
    assert ds[0..] == ds;
    for i := 0 to |ds|
      invariant FitsDests(ds[..i])
      invariant out + PutMany(put, ds[i..], rest) == dst + PutMany(put, ds, rest)
    {
      ManyHead(put, ds, i, rest);
      assert ds[i] in ds && ds[..i + 1] == ds[..i] + [ds[i]];
      out :- AppendDestination(out, ds[i], PutMany(put, ds[i + 1..], rest));
    }
    assert ds[..|ds|] == ds && ds[|ds|..] == [];
    r := Ok(out);
  }

  /** number_of_dests and the destinations. */
  method AppendDestList(dst: bytes, ds: seq<Destination>, ghost rest: bytes) returns (r: Result<bytes>)
    requires 1 <= |ds| <= 254
    ensures r.Ok? <==> FitsDests(ds)
    ensures r.Ok? ==> r.value + rest == dst + PutDestList(ds, rest)
  {
    var out := AppendByte(dst, |ds|, PutDests(ds, rest));
    r := AppendDestinations(out, ds, rest);
  }

  method AppendFailure(dst: bytes, u: Unsuccessful, ghost rest: bytes) returns (r: Result<bytes>)
    ensures r.Ok? <==> FitsA(u.address, MAX_ADDRESS)
    ensures r.Ok? ==> r.value + rest == dst + PutFailure(u, rest)
  {
    var out :- AppendAddress(dst, u.address, MAX_ADDRESS, Put32(u.status) + rest);
    out := AppendOctets(out, Put32(u.status), rest);
    r := Ok(out);
  }

  method AppendFailures(dst: bytes, us: seq<Unsuccessful>, ghost rest: bytes) returns (r: Result<bytes>)
    ensures r.Ok? <==> FitsFailures(us)
    ensures r.Ok? ==> r.value + rest == dst + PutFailures(us, rest)
  {
    var out := dst;
    ghost var put := PutFailure;
    assert us[0..] == us;
    for i := 0 to |us|
      invariant FitsFailures(us[..i])
      invariant out + PutMany(put, us[i..], rest) == dst + PutMany(put, us, rest)
    {
      ManyHead(put, us, i, rest);
      assert us[i] in us && us[..i + 1] == us[..i] + [us[i]];
      out :- AppendFailure(out, us[i], PutMany(put, us[i + 1..], rest));
    }
    assert us[..|us|] == us && us[|us|..] == [];
    r := Ok(out);
  }

  // ----- One encoder per body -----

  method EncodeBind(dst: bytes, b: Body) returns (r: Result<bytes>)
    requires b.BindReq?
    ensures r.Ok? <==> FitsBody(b)
    ensures r.Ok? ==> r.value == dst + PutBody(b)
  {
    var a := Address(b.ton, b.npi, b.addressRange);
    ghost var s4 := Put8(b.version, PutA(a, []));
    ghost var s3 := PutC(b.systemType, s4);
    ghost var s2 := PutC(b.password, s3);
    var out :- AppendCString(dst, b.systemId, MAX_SYSTEM_ID, s2);
    out :- AppendCString(out, b.password, MAX_PASSWORD, s3);
    out :- AppendCString(out, b.systemType, MAX_SYSTEM_TYPE, s4);
    out := AppendByte(out, b.version, PutA(a, []));
    out :- AppendAddress(out, a, MAX_ADDRESS_RANGE, []);
    assert out + [] == out;
    r := Ok(out);
  }

  method AppendIdAndTlvs(dst: bytes, id: bytes, max: nat, o: seq<Tlv>) returns (r: Result<bytes>)
    ensures r.Ok? <==> FitsC(id, max) && Fits(o)
    ensures r.Ok? ==> r.value == dst + PutC(id, PutTlvs(o))
  {
    var out :- AppendCString(dst, id, max, PutTlvs(o));
    r := AppendOptional(out, o);
  }

  method EncodeShort(dst: bytes, st: bytes, source: Address, dest: Address, m: Message) returns (r: Result<bytes>)
    ensures r.Ok? <==>
            FitsC(st, MAX_SERVICE_TYPE) && FitsA(source, MAX_ADDRESS) && FitsA(dest, MAX_ADDRESS) && FitsMessage(m)
    ensures r.Ok? ==> r.value == dst + PutC(st, PutA(source, PutA(dest, PutMessage(m))))
  {
    var ok := CheckMessage(m);
    if !ok {
      return Err(Rejected);
    }
    var out :- AppendCString(dst, st, MAX_SERVICE_TYPE, PutA(source, PutA(dest, PutMessage(m))));
    out :- AppendAddress(out, source, MAX_ADDRESS, PutA(dest, PutMessage(m)));
    out :- AppendAddress(out, dest, MAX_ADDRESS, PutMessage(m));
    r := AppendMessage(out, m);
  }

  method EncodeData(dst: bytes, b: Body) returns (r: Result<bytes>)
    requires b.DataSM?
    ensures r.Ok? <==> FitsBody(b)
    ensures r.Ok? ==> r.value == dst + PutBody(b)
  {
    ghost var s4 := Put8(b.esmClass, Put8(b.registered, Put8(b.coding, PutTlvs(b.optional))));
    var out :- AppendCString(dst, b.serviceType, MAX_SERVICE_TYPE, PutA(b.source, PutA(b.dest, s4)));
    out :- AppendAddress(out, b.source, MAX_DATA_ADDRESS, PutA(b.dest, s4));
    out :- AppendAddress(out, b.dest, MAX_DATA_ADDRESS, s4);
    out := AppendByte(out, b.esmClass, Put8(b.registered, Put8(b.coding, PutTlvs(b.optional))));
    out := AppendByte(out, b.registered, Put8(b.coding, PutTlvs(b.optional)));
    out := AppendByte(out, b.coding, PutTlvs(b.optional));
    r := AppendOptional(out, b.optional);
  }

  method EncodeQuery(dst: bytes, b: Body) returns (r: Result<bytes>)
    requires b.QuerySM?
    ensures r.Ok? <==> FitsBody(b)
    ensures r.Ok? ==> r.value == dst + PutBody(b)
  {
    var out :- AppendCString(dst, b.messageId, MAX_MESSAGE_ID, PutA(b.source, []));
    out :- AppendAddress(out, b.source, MAX_ADDRESS, []);
    assert out + [] == out;
    r := Ok(out);
  }

  method EncodeQueryResp(dst: bytes, b: Body) returns (r: Result<bytes>)
    requires b.QuerySMResp?
    ensures r.Ok? <==> FitsBody(b)
    ensures r.Ok? ==> r.value == dst + PutBody(b)
  {
    ghost var s3 := Put8(b.state, Put8(b.errorCode, PutTlvs(b.optional)));
    var out :- AppendCString(dst, b.messageId, MAX_MESSAGE_ID, PutC(b.finalDate, s3));
    out :- AppendCString(out, b.finalDate, MAX_TIME, s3);
    out := AppendByte(out, b.state, Put8(b.errorCode, PutTlvs(b.optional)));
    out := AppendByte(out, b.errorCode, PutTlvs(b.optional));
    r := AppendOptional(out, b.optional);
  }

  method EncodeCancel(dst: bytes, b: Body) returns (r: Result<bytes>)
    requires b.CancelSM?
    ensures r.Ok? <==> FitsBody(b)
    ensures r.Ok? ==> r.value == dst + PutBody(b)
  {
    ghost var s3 := PutA(b.source, PutA(b.dest, []));
    var out :- AppendCString(dst, b.serviceType, MAX_SERVICE_TYPE, PutC(b.messageId, s3));
    out :- AppendCString(out, b.messageId, MAX_MESSAGE_ID, s3);
    out :- AppendAddress(out, b.source, MAX_ADDRESS, PutA(b.dest, []));
    out :- AppendAddress(out, b.dest, MAX_ADDRESS, []);
    assert out + [] == out;
    r := Ok(out);
  }

  method EncodeReplace(dst: bytes, b: Body) returns (r: Result<bytes>)
    requires b.ReplaceSM?
    ensures r.Ok? <==> FitsBody(b)
    ensures r.Ok? ==> r.value == dst + PutBody(b)
  {
    if |b.text| > MAX_SHORT_MESSAGE {
      return Err(Rejected);
    }
    ghost var s5 := Put8(b.registered, Put8(b.defaultId, PutText(b.text, [])));
    ghost var s4 := PutC(b.validity, s5);
    ghost var s3 := PutC(b.schedule, s4);
    var out :- AppendCString(dst, b.messageId, MAX_MESSAGE_ID, PutA(b.source, s3));
    out :- AppendAddress(out, b.source, MAX_ADDRESS, s3);
    out :- AppendCString(out, b.schedule, MAX_TIME, s4);
    out :- AppendCString(out, b.validity, MAX_TIME, s5);
    out := AppendByte(out, b.registered, Put8(b.defaultId, PutText(b.text, [])));
    out := AppendByte(out, b.defaultId, PutText(b.text, []));
    out := AppendText(out, b.text, []);
    assert out + [] == out;
    r := Ok(out);
  }

  method EncodeAlert(dst: bytes, b: Body) returns (r: Result<bytes>)
    requires b.AlertNotification?
    ensures r.Ok? <==> FitsBody(b)
    ensures r.Ok? ==> r.value == dst + PutBody(b)
  {
    var out :- AppendAddress(dst, b.source, MAX_DATA_ADDRESS, PutA(b.esme, PutTlvs(b.optional)));
    out :- AppendAddress(out, b.esme, MAX_DATA_ADDRESS, PutTlvs(b.optional));
    r := AppendOptional(out, b.optional);
  }

  method EncodeOutbind(dst: bytes, b: Body) returns (r: Result<bytes>)
    requires b.Outbind?
    ensures r.Ok? <==> FitsBody(b)
    ensures r.Ok? ==> r.value == dst + PutBody(b)
  {
    var out :- AppendCString(dst, b.systemId, MAX_SYSTEM_ID, PutC(b.password, []));
    out :- AppendCString(out, b.password, MAX_PASSWORD, []);
    assert out + [] == out;
    r := Ok(out);
  }

  method EncodeMulti(dst: bytes, b: Body) returns (r: Result<bytes>)
    requires b.SubmitMulti?
    ensures r.Ok? <==> FitsBody(b)
    ensures r.Ok? ==> r.value == dst + PutBody(b)
  {
    if |b.dests| == 0 || |b.dests| > 254 {
      return Err(Rejected);
    }
    var ok := CheckMessage(b.message);
    if !ok {
      return Err(Rejected);
    }
    ghost var tail := PutMessage(b.message);
    var out :- AppendCString(dst, b.serviceType, MAX_SERVICE_TYPE, PutA(b.source, PutDestList(b.dests, tail)));
    out :- AppendAddress(out, b.source, MAX_ADDRESS, PutDestList(b.dests, tail));
    out :- AppendDestList(out, b.dests, tail);
    r := AppendMessage(out, b.message);
  }

  method EncodeMultiResp(dst: bytes, b: Body) returns (r: Result<bytes>)
    requires b.SubmitMultiResp?
    ensures r.Ok? <==> FitsBody(b)
    ensures r.Ok? ==> r.value == dst + PutBody(b)
  {
    if |b.unsuccessful| > 255 {
      return Err(Rejected);
    }
    ghost var tail := PutTlvs(b.optional);
    var out :- AppendCString(dst, b.messageId, MAX_MESSAGE_ID, PutFailureList(b.unsuccessful, tail));
    out := AppendByte(out, |b.unsuccessful|, PutFailures(b.unsuccessful, tail));
    out :- AppendFailures(out, b.unsuccessful, tail);
    r := AppendOptional(out, b.optional);
  }
}
