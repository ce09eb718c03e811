/** Wire fields and optional parameters (codec/fields.go, codec/tlv.go).

    A writer puts a field in front of what follows it; a reader splits a field off
    the front of what is left. Each reader's contract says that it accepts exactly
    what the matching writer produces. */
module Fields {
  import opened Bytes

  const BAD_CSTRING := Fatal(InvalidCString, 0)
  const BAD_FIELD := Fatal(InvalidFieldLength, 0)
  const BAD_TLV := Fatal(InvalidTLVLength, 0)

  // ----- C-Octet Strings -----

  /** A value that fits a C-Octet String whose encoding, NUL included, takes at
      most max octets. */
  predicate FitsC(v: bytes, max: nat)
  {
    0 !in v && |v| < max
  }

  function PutC(v: bytes, rest: bytes): (s: bytes)
  {
    v + [0] + rest
  }

  /** Read up to the first NUL, which must be among the first max octets. */
  function ReadC(src: bytes, max: nat): (r: Result<(bytes, bytes)>)
    ensures r.Ok? ==> FitsC(r.value.0, max)
    ensures r.Err? ==> r.error == BAD_CSTRING
  {
    if src == [] || max == 0 then Err(BAD_CSTRING)
    else if src[0] == 0 then Ok(([], src[1..]))
    else
      var (v, rest) :- ReadC(src[1..], max - 1);
      Ok(([src[0]] + v, rest))
  }

  lemma {:induction false} ReadCSound(src: bytes, max: nat)
    requires ReadC(src, max).Ok?
    ensures src == PutC(ReadC(src, max).value.0, ReadC(src, max).value.1)
  {
    if src[0] == 0 {
    } else {
      ReadCSound(src[1..], max - 1);
      var (v, rest) := ReadC(src[1..], max - 1).value;
      assert src == [src[0]] + (v + [0] + rest) == [src[0]] + v + [0] + rest;
    }
  }

  lemma {:induction false} ReadPutC(v: bytes, rest: bytes, max: nat)
    requires FitsC(v, max)
    ensures ReadC(PutC(v, rest), max) == Ok((v, rest))
  {
    if v == [] {
      assert PutC(v, rest)[1..] == rest;
    } else {
      assert v[0] in v && forall x | x in v[1..] :: x in v;
      ReadPutC(v[1..], rest, max - 1);
      assert PutC(v, rest)[1..] == PutC(v[1..], rest);
      assert [v[0]] + v[1..] == v;
    }
  }

  // ----- Integers and octet strings -----

  function Put8(b: byte, rest: bytes): (s: bytes)
  {
    [b] + rest
  }

  function Read8(src: bytes): (r: Result<(byte, bytes)>)
    ensures r.Err? ==> r.error == BAD_FIELD
  {
    if |src| < 1 then Err(BAD_FIELD) else Ok((src[0], src[1..]))
  }

  lemma Read8Sound(src: bytes)
    requires Read8(src).Ok?
    ensures src == Put8(Read8(src).value.0, Read8(src).value.1)
  {
  }

  lemma ReadPut8(b: byte, rest: bytes)
    ensures Read8(Put8(b, rest)) == Ok((b, rest))
  {
    assert Put8(b, rest)[1..] == rest;
  }

  function Read32(src: bytes): (r: Result<(uint32, bytes)>)
    ensures r.Err? ==> r.error == BAD_FIELD
  {
    if |src| < 4 then Err(BAD_FIELD) else Ok((U32(src[..4]), src[4..]))
  }

  lemma Read32Sound(src: bytes)
    requires Read32(src).Ok?
    ensures src == Put32(Read32(src).value.0) + Read32(src).value.1
  {
    Put32Unique(src[..4]);
  }

  lemma ReadPut32(n: uint32, rest: bytes)
    ensures Read32(Put32(n) + rest) == Ok((n, rest))
  {
    var src := Put32(n) + rest;
    assert src[..4] == Put32(n) && src[4..] == rest;
  }

  function ReadOctets(src: bytes, n: nat): (r: Result<(bytes, bytes)>)
    ensures r.Ok? ==> |r.value.0| == n
    ensures r.Err? ==> r.error == BAD_FIELD
  {
    if n > |src| then Err(BAD_FIELD) else Ok((src[..n], src[n..]))
  }

  lemma ReadPutOctets(v: bytes, rest: bytes)
    ensures ReadOctets(v + rest, |v|) == Ok((v, rest))
  {
    assert (v + rest)[..|v|] == v && (v + rest)[|v|..] == rest;
  }

  // ----- Counted repetitions -----

  /** Each element in front of the next. */
  function PutMany<T>(put: (T, bytes) -> bytes, xs: seq<T>, rest: bytes): (s: bytes)
  {
    if xs == [] then rest else put(xs[0], PutMany(put, xs[1..], rest))
  }

  /** Exactly n elements off the front. */
  function ReadMany<T>(read: bytes -> Result<(T, bytes)>, src: bytes, n: nat): (r: Result<(seq<T>, bytes)>)
    ensures r.Ok? ==> |r.value.0| == n
    decreases n
  {
    if n == 0 then Ok(([], src))
    else
      var (x, s) :- read(src);
      var (xs, s) :- ReadMany(read, s, n - 1);
      Ok(([x] + xs, s))
  }

  lemma {:induction false} ReadPutMany<T>(read: bytes -> Result<(T, bytes)>, put: (T, bytes) -> bytes, xs: seq<T>,
      rest: bytes)
    requires forall x, s {:trigger put(x, s)} | x in xs :: read(put(x, s)) == Ok((x, s))
    ensures ReadMany(read, PutMany(put, xs, rest), |xs|) == Ok((xs, rest))
  {
    if xs == [] {
    } else {
      ReadPutMany(read, put, xs[1..], rest);
      assert [xs[0]] + xs[1..] == xs;
    }
  }

  lemma {:induction false} ReadManySound<T>(read: bytes -> Result<(T, bytes)>, put: (T, bytes) -> bytes,
      ok: T -> bool, src: bytes, n: nat)
    requires forall s :: read(s).Ok? ==> ok(read(s).value.0) && s == put(read(s).value.0, read(s).value.1)
    requires ReadMany(read, src, n).Ok?
    ensures var (xs, rest) := ReadMany(read, src, n).value;
            src == PutMany(put, xs, rest) && forall x | x in xs :: ok(x)
    decreases n
  {
    if n == 0 {
    } else {
      var (x, s) := read(src).value;
      ReadManySound(read, put, ok, s, n - 1);
      var (xs, rest) := ReadMany(read, s, n - 1).value;
      assert ([x] + xs)[1..] == xs;
    }
  }

  // ----- Optional parameters -----

  datatype Tlv = Tlv(tag: uint16, value: bytes)

  predicate Fits(ts: seq<Tlv>)
  {
    forall t | t in ts :: |t.value| < 0x1_0000
  }

  function PutTlv(t: Tlv, rest: bytes): (s: bytes)
  {
    Put16(t.tag) + Put16(|t.value| % 0x1_0000) + t.value + rest
  }

  /** The optional-parameter area: parameters in order, duplicates kept. */
  function PutTlvs(ts: seq<Tlv>): (s: bytes)
    ensures s == [] <==> ts == []
  {
    if ts == [] then [] else PutTlv(ts[0], PutTlvs(ts[1..]))
  }

  function ReadTlv(src: bytes): (r: Result<(Tlv, bytes)>)
    ensures r.Ok? ==> |r.value.0.value| < 0x1_0000 && |r.value.1| < |src|
    ensures r.Err? ==> r.error == BAD_TLV
  {
    if |src| < 4 then Err(BAD_TLV)
    else
      var n := U16(src[2..4]);
      if n > |src| - 4 then Err(BAD_TLV)
      else Ok((Tlv(U16(src[..2]), src[4..4 + n]), src[4 + n..]))
  }

  lemma ReadTlvSound(src: bytes)
    requires ReadTlv(src).Ok?
    ensures src == PutTlv(ReadTlv(src).value.0, ReadTlv(src).value.1)
  {
    var n := U16(src[2..4]);
    Put16Unique(src[..2]);
    Put16Unique(src[2..4]);
    assert src == src[..2] + src[2..4] + src[4..4 + n] + src[4 + n..];
  }

  lemma ReadPutTlv(t: Tlv, rest: bytes)
    requires |t.value| < 0x1_0000
    ensures ReadTlv(PutTlv(t, rest)) == Ok((t, rest))
  {
    var src := PutTlv(t, rest);
    var n := |t.value|;
    assert src[..2] == Put16(t.tag) && src[2..4] == Put16(n);
    assert src[4..4 + n] == t.value && src[4 + n..] == rest;
  }

  function ReadTlvs(src: bytes): (r: Result<seq<Tlv>>)
    ensures r.Ok? ==> Fits(r.value)
    ensures r.Err? ==> r.error == BAD_TLV
    decreases |src|
  {
    if src == [] then Ok([])
    else
      var (t, rest) :- ReadTlv(src);
      var ts :- ReadTlvs(rest);
      Ok([t] + ts)
  }

  /** What is read is what was written, octet for octet. */
  lemma {:induction false} ReadTlvsSound(src: bytes)
    requires ReadTlvs(src).Ok?
    ensures PutTlvs(ReadTlvs(src).value) == src
    decreases |src|
  {
    if src == [] {
    } else {
      var (t, rest) := ReadTlv(src).value;
      ReadTlvSound(src);
      ReadTlvsSound(rest);
      assert ReadTlvs(src).value[1..] == ReadTlvs(rest).value;
    }
  }

  /** Every list of parameters that fits is read back in order, duplicates kept. */
  lemma {:induction false} ReadPutTlvs(ts: seq<Tlv>)
    requires Fits(ts)
    ensures ReadTlvs(PutTlvs(ts)) == Ok(ts)
  {
    if ts == [] {
    } else {
      ReadPutTlv(ts[0], PutTlvs(ts[1..]));
      ReadPutTlvs(ts[1..]);
      assert [ts[0]] + ts[1..] == ts;
    }
  }

  /** What a scan reports and shows to its callback: an error at the first
      malformed parameter, and an early, successful stop after the first parameter
      the callback declines. */
  function Scan(src: bytes, visit: Tlv -> bool): (r: (Option<Error>, seq<Tlv>))
    decreases |src|
  {
    if src == [] then (None, [])
    else
      match ReadTlv(src)
      case Err(e) => (Some(e), [])
      case Ok((t, rest)) =>
        if !visit(t) then (None, [t])
        else var (err, ts) := Scan(rest, visit); (err, [t] + ts)
  }

  /** A scan whose callback takes everything sees exactly the parsed list. */
  lemma {:induction false} ScanIsRead(src: bytes, visit: Tlv -> bool)
    requires forall t :: visit(t)
    ensures match ReadTlvs(src)
            case Ok(ts) => Scan(src, visit) == (None, ts)
            case Err(e) => Scan(src, visit).0 == Some(e)
    decreases |src|
  {
    if src == [] || ReadTlv(src).Err? {
    } else {
      ScanIsRead(ReadTlv(src).value.1, visit);
    }
  }

  /** Reading at an offset is reading the suffix that starts there. */
  lemma ReadTlvAt(src: bytes, offset: nat)
    requires offset + 4 <= |src|
    ensures var n := U16(src[offset + 2..offset + 4]);
            ReadTlv(src[offset..]) ==
            if offset + 4 + n > |src| then Err(BAD_TLV)
            else Ok((Tlv(U16(src[offset..offset + 2]), src[offset + 4..offset + 4 + n]), src[offset + 4 + n..]))
  {
    var area := src[offset..];
    assert area[..2] == src[offset..offset + 2] && area[2..4] == src[offset + 2..offset + 4];
    var n := U16(area[2..4]);
    if offset + 4 + n <= |src| {
      assert area[4..4 + n] == src[offset + 4..offset + 4 + n] && area[4 + n..] == src[offset + 4 + n..];
    }
  }

  lemma ScanAt(src: bytes, offset: nat, visit: Tlv -> bool)
    requires offset + 4 <= |src|
    ensures var n := U16(src[offset + 2..offset + 4]);
            Scan(src[offset..], visit) ==
            if offset + 4 + n > |src| then (Some(BAD_TLV), [])
            else
              var t := Tlv(U16(src[offset..offset + 2]), src[offset + 4..offset + 4 + n]);
              var next := Scan(src[offset + 4 + n..], visit);
              if visit(t) then (next.0, [t] + next.1) else (None, [t])
  {
    ReadTlvAt(src, offset);
  }

  method ScanTLVs(src: bytes, visit: Tlv -> bool) returns (err: Option<Error>, visited: seq<Tlv>)
    ensures (err, visited) == Scan(src, visit)
  {
    visited := [];
    var offset := 0;
    ghost var rest := Scan(src, visit);
    ghost var whole := rest;
    assert src[0..] == src && [] + rest.1 == rest.1;
    while offset < |src|
      invariant offset <= |src|
      invariant rest == Scan(src[offset..], visit)
      invariant whole == (rest.0, visited + rest.1)
      decreases |src| - offset
    {
      var remaining := |src| - offset;
      if remaining < 4 {
        assert visited + [] == visited;
        return Some(BAD_TLV), visited;
      }
      ScanAt(src, offset, visit);
      var tag := U16(src[offset..offset + 2]);
      var length := U16(src[offset + 2..offset + 4]);
      if length > remaining - 4 {
        assert visited + [] == visited;
        return Some(BAD_TLV), visited;
      }
      var t := Tlv(tag, src[offset + 4..offset + 4 + length]);
      offset := offset + 4 + length;
      if !visit(t) {
        return None, visited + [t];
      }
      ghost var next := Scan(src[offset..], visit);
      assert visited + ([t] + next.1) == (visited + [t]) + next.1;
      visited, rest := visited + [t], next;
    }
    assert src[offset..] == [] && visited + [] == visited;
    err := None;
  }

  /** Append one parameter; the length field is written after the header is reserved. */
  method AppendTLV(dst: bytes, t: Tlv) returns (r: Result<bytes>)
    ensures r.Ok? <==> |t.value| < 0x1_0000
    ensures r.Ok? ==> r.value == dst + PutTlv(t, [])
  {
    if |t.value| > 0xffff {
      return Err(Rejected);
    }
    var start := |dst|;
    var out := dst + [0, 0, 0, 0];
    var tag, length := Put16(t.tag), Put16(|t.value|);
    out := out[start := tag[0]][start + 1 := tag[1]][start + 2 := length[0]][start + 3 := length[1]];
    assert out == dst + tag + length;
    r := Ok(out + t.value);
    assert out + t.value == dst + (tag + length + t.value + []);
  }

  lemma {:induction false} PutTlvsSnoc(ts: seq<Tlv>, t: Tlv)
    requires Fits(ts) && |t.value| < 0x1_0000
    ensures Fits(ts + [t]) && PutTlvs(ts + [t]) == PutTlvs(ts) + PutTlv(t, [])
  {
    if ts == [] {
      assert ts + [t] == [t] && [t][1..] == [];
    } else {
      assert (ts + [t])[1..] == ts[1..] + [t];
      PutTlvsSnoc(ts[1..], t);
    }
  }

  /** Append every parameter in order (appendOptional). */
  method AppendOptional(dst: bytes, ts: seq<Tlv>) returns (r: Result<bytes>)
    ensures r.Ok? <==> Fits(ts)
    ensures r.Ok? ==> r.value == dst + PutTlvs(ts)
  {
    var out := dst;
    var i := 0;
    while i < |ts|
      invariant 0 <= i <= |ts|
      invariant Fits(ts[..i]) && out == dst + PutTlvs(ts[..i])
    {
      assert ts[..i + 1] == ts[..i] + [ts[i]];
      var next := AppendTLV(out, ts[i]);
      if next.Err? {
        assert ts[i] in ts;
        return Err(next.error);
      }
      PutTlvsSnoc(ts[..i], ts[i]);
      out := next.value;
      i := i + 1;
    }
    assert ts[..|ts|] == ts;
    r := Ok(out);
  }
}
