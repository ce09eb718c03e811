/** UCS-2 and UTF-16BE text (encoding/unicode.go; RFC 2781 section 2). */
module Unicode {
  import opened Bytes
  import opened Gsm7

  type units = seq<uint16>

  predicate IsHigh(u: int) { 0xd800 <= u <= 0xdbff }
  predicate IsLow(u: int) { 0xdc00 <= u <= 0xdfff }

  // ----- Code units and octets -----

  /** Big-endian octets of the code units. */
  function PutUnits(us: units): (s: bytes)
    ensures |s| == 2 * |us|
  {
    if us == [] then [] else Put16(us[0]) + PutUnits(us[1..])
  }

  function GetUnits(s: bytes): (us: units)
    requires |s| % 2 == 0
    ensures 2 * |us| == |s|
  {
    if s == [] then [] else [U16(s[..2])] + GetUnits(s[2..])
  }

  lemma {:induction false} GetPutUnits(us: units)
    ensures GetUnits(PutUnits(us)) == us
  {
    if us == [] {
    } else {
      GetPutUnits(us[1..]);
      assert PutUnits(us)[..2] == Put16(us[0]) && PutUnits(us)[2..] == PutUnits(us[1..]);
    }
  }

  lemma {:induction false} PutGetUnits(s: bytes)
    requires |s| % 2 == 0
    ensures PutUnits(GetUnits(s)) == s
  {
    if s == [] {
    } else {
      PutGetUnits(s[2..]);
      Put16Unique(s[..2]);
      assert s == s[..2] + s[2..];
      assert GetUnits(s)[1..] == GetUnits(s[2..]);
    }
  }

  lemma {:induction false} PutUnitsAppend(a: units, b: units)
    ensures PutUnits(a + b) == PutUnits(a) + PutUnits(b)
  {
    if a == [] {
      assert a + b == b;
    } else {
      assert (a + b)[1..] == a[1..] + b;
      PutUnitsAppend(a[1..], b);
    }
  }

  /** Unit k of a string is the value of its octets 2k and 2k + 1. */
  lemma {:induction false} UnitAt(s: bytes, k: nat)
    requires |s| % 2 == 0 && 2 * k + 2 <= |s|
    ensures GetUnits(s)[k] == U16(s[2 * k..2 * k + 2])
  {
    if k == 0 {
    } else {
      UnitAt(s[2..], k - 1);
      assert s[2..][2 * (k - 1)..2 * (k - 1) + 2] == s[2 * k..2 * k + 2];
    }
  }

  // ----- UTF-16 -----

  /** The code units of one character. */
  function EncodeScalar(c: scalar): (us: units)
    ensures 1 <= |us| <= 2
  {
    if c < 0x1_0000 then [c]
    else [0xd800 + (c - 0x1_0000) / 0x400, 0xdc00 + (c - 0x1_0000) % 0x400]
  }

  function Encode16(t: text): (us: units)
  {
    if t == [] then [] else EncodeScalar(t[0]) + Encode16(t[1..])
  }

  /** The first character and the number of units it takes; None when unpaired. */
  function DecodeFirst(us: units): (r: Option<(scalar, nat)>)
    requires us != []
    ensures r.Some? ==> 1 <= r.value.1 <= 2 && r.value.1 <= |us|
  {
    if IsHigh(us[0]) then
      if |us| < 2 || !IsLow(us[1]) then None
      else Some((0x1_0000 + (us[0] as int - 0xd800) * 0x400 + (us[1] as int - 0xdc00), 2))
    else if IsLow(us[0]) then None
    else Some((us[0], 1))
  }

  function Decode16(us: units): (t: Option<text>)
    decreases |us|
  {
    if us == [] then Some([])
    else
      var c := DecodeFirst(us);
      if c.None? then None else Prefixed([c.value.0], Decode16(us[c.value.1..]))
  }

  lemma DecodeEncodeScalar(c: scalar, rest: units)
    ensures var us := EncodeScalar(c);
            DecodeFirst(us + rest) == Some((c, |us|)) && (us + rest)[|us|..] == rest
  {
    var us := EncodeScalar(c);
    assert (us + rest)[|us|..] == rest;
  }

  /** Every text survives UTF-16. */
  lemma {:induction false} Decode16Encode16(t: text)
    ensures Decode16(Encode16(t)) == Some(t)
  {
    if t == [] {
    } else {
      DecodeEncodeScalar(t[0], Encode16(t[1..]));
      Decode16Encode16(t[1..]);
      assert [t[0]] + t[1..] == t;
    }
  }

  lemma EncodeDecodeFirst(us: units)
    requires us != [] && DecodeFirst(us).Some?
    ensures var (c, w) := DecodeFirst(us).value; EncodeScalar(c) == us[..w]
  {
  }

  /** UTF-16 is the only encoding: what decodes re-encodes to itself. */
  lemma {:induction false} Encode16Decode16(us: units)
    requires Decode16(us).Some?
    ensures Encode16(Decode16(us).value) == us
    decreases |us|
  {
    if us == [] {
    } else {
      var (c, w) := DecodeFirst(us).value;
      EncodeDecodeFirst(us);
      Encode16Decode16(us[w..]);
      var t := Decode16(us).value;
      assert t[0] == c && t[1..] == Decode16(us[w..]).value;
      assert us == us[..w] + us[w..];
    }
  }

  // ----- Strict UCS-2 -----

  predicate InBmp(t: text) { forall i | 0 <= i < |t| :: t[i] <= 0xffff }

  predicate NoSurrogates(us: units) { forall i | 0 <= i < |us| :: !IsHigh(us[i]) && !IsLow(us[i]) }

  /** On BMP text UCS-2 and UTF-16 agree. */
  lemma {:induction false} BmpIsUcs2(t: text)
    requires InBmp(t)
    ensures Encode16(t) == t && NoSurrogates(Encode16(t))
  {
    if t == [] {
    } else {
      BmpIsUcs2(t[1..]);
      assert t == [t[0]] + t[1..];
    }
  }

  function EncodeUcs2(t: text): (s: Option<bytes>) { if InBmp(t) then Some(PutUnits(Encode16(t))) else None }

  /** Without surrogates every unit is a character. */
  function AsText(us: units): (t: text)
    requires NoSurrogates(us)
    ensures |t| == |us| && forall i | 0 <= i < |t| :: t[i] == us[i]
  {
    if us == [] then [] else [us[0]] + AsText(us[1..])
  }

  function DecodeUcs2(s: bytes): (t: Option<text>)
  {
    if |s| % 2 == 0 && NoSurrogates(GetUnits(s)) then Some(AsText(GetUnits(s))) else None
  }

  lemma DecodeEncodeUcs2(t: text)
    requires EncodeUcs2(t).Some?
    ensures DecodeUcs2(EncodeUcs2(t).value) == Some(t)
  {
    BmpIsUcs2(t);
    GetPutUnits(Encode16(t));
    assert AsText(Encode16(t)) == t;
  }

  function EncodeUtf16be(t: text): (s: bytes) { PutUnits(Encode16(t)) }

  function DecodeUtf16be(s: bytes): (t: Option<text>) { if |s| % 2 == 0 then Decode16(GetUnits(s)) else None }

  lemma DecodeEncodeUtf16be(t: text)
    ensures DecodeUtf16be(EncodeUtf16be(t)) == Some(t)
  {
    GetPutUnits(Encode16(t));
    Decode16Encode16(t);
  }

  // ----- The loops -----

  method PutAll(us: units) returns (out: bytes)
    ensures out == PutUnits(us)
  {
    out := [];
    for i := 0 to |us|
      invariant PutUnits(us) == out + PutUnits(us[i..])
    {
      assert us[i..][1..] == us[i + 1..];
      out := out + Put16(us[i]);
    }
  }

  method EncodeUCS2(t: text) returns (r: Result<bytes>)
    ensures r == if EncodeUcs2(t).Some? then Ok(EncodeUcs2(t).value) else Err(Rejected)
  {
    var us: units := [];
    for i := 0 to |t|
      invariant us == t[..i] && InBmp(t[..i])
    {
      if t[i] > 0xffff {
        return Err(Rejected);
      }
      us := us + [t[i]];
    }
    assert t[..|t|] == t;
    BmpIsUcs2(t);
    var out := PutAll(us);
    r := Ok(out);
  }

  method DecodeUCS2(data: bytes) returns (r: Result<text>)
    ensures r == if DecodeUcs2(data).Some? then Ok(DecodeUcs2(data).value) else Err(Rejected)
  {
    if |data| % 2 != 0 {
      return Err(Rejected);
    }
    ghost var us := GetUnits(data);
    var runes: text := [];
    for i := 0 to |data| / 2
      invariant |runes| == i && forall k | 0 <= k < i :: !IsHigh(us[k]) && !IsLow(us[k]) && runes[k] == us[k]
    {
      var u := U16(data[2 * i..2 * i + 2]);
      UnitAt(data, i);
      if 0xd800 <= u <= 0xdfff {
        return Err(Rejected);
      }
      runes := runes + [u];
    }
    assert runes == AsText(us);
    r := Ok(runes);
  }

  method EncodeUTF16BE(t: text) returns (out: bytes)
    ensures out == EncodeUtf16be(t)
  {
    var us: units := [];
    for i := 0 to |t|
      invariant Encode16(t) == us + Encode16(t[i..])
    {
      assert t[i..][1..] == t[i + 1..];
      us := us + EncodeScalar(t[i]);
    }
    assert t[|t|..] == [] && us + [] == us;
    out := PutAll(us);
  }

  method GetAll(data: bytes) returns (us: units)
    requires |data| % 2 == 0
    ensures us == GetUnits(data)
  {
    us := [];
    for i := 0 to |data| / 2
      invariant |us| == i && us == GetUnits(data)[..i]
    {
      UnitAt(data, i);
      us := us + [U16(data[2 * i..2 * i + 2])];
    }
  }

  /** The surrogate check: it passes exactly the strings that decode. */
  method CheckSurrogates(us: units) returns (ok: bool)
    ensures ok <==> Decode16(us).Some?
  {
    var i := 0;
    assert us[0..] == us;
    while i < |us|
      invariant 0 <= i <= |us|
      invariant Decode16(us).Some? <==> Decode16(us[i..]).Some?
    {
      var u := us[i];
      if 0xd800 <= u <= 0xdbff {
        if i + 1 >= |us| || us[i + 1] < 0xdc00 || us[i + 1] > 0xdfff {
          return false;
        }
        assert us[i..][2..] == us[i + 2..];
        i := i + 1;
      } else if 0xdc00 <= u <= 0xdfff {
        return false;
      } else {
        assert us[i..][1..] == us[i + 1..];
      }
      i := i + 1;
    }
    ok := true;
  }

  method DecodeUTF16BE(data: bytes) returns (r: Result<text>)
    ensures r == if DecodeUtf16be(data).Some? then Ok(DecodeUtf16be(data).value) else Err(Rejected)
  {
    if |data| % 2 != 0 {
      return Err(Rejected);
    }
    var us := GetAll(data);
    var ok := CheckSurrogates(us);
    if !ok {
      return Err(Rejected);
    }
    r := Ok(Decode16(us).value);
  }

  // ----- Selection -----

  datatype Kind = GSM7 | UCS2 | UTF16BE | Binary

  /** units counts septets for GSM7 and 16-bit code units otherwise. */
  datatype EncodedText = EncodedText(kind: Kind, data: bytes, units: nat)

  /** GSM 03.38 if possible, then strict UCS-2, then UTF-16BE if it is allowed. */
  function SelectText(t: text, allowSurrogates: bool): (r: Option<EncodedText>)
  {
    if Encode(t).Some? then Some(EncodedText(GSM7, Encode(t).value, |Encode(t).value|))
    else if EncodeUcs2(t).Some? then Some(EncodedText(UCS2, EncodeUcs2(t).value, |EncodeUcs2(t).value| / 2))
    else if !allowSurrogates then None
    else Some(EncodedText(UTF16BE, EncodeUtf16be(t), |EncodeUtf16be(t)| / 2))
  }

  function DecodeAs(kind: Kind, data: bytes): (t: Option<text>)
  {
    match kind
    case GSM7 => Decode(data)
    case UCS2 => DecodeUcs2(data)
    case UTF16BE => DecodeUtf16be(data)
    case Binary => None
  }

  /** Whatever representation is selected, it decodes to the text. */
  lemma DecodeSelected(t: text, allowSurrogates: bool)
    requires SelectText(t, allowSurrogates).Some?
    ensures var e := SelectText(t, allowSurrogates).value; DecodeAs(e.kind, e.data) == Some(t)
  {
    if Encode(t).Some? {
      DecodeEncode(t);
    } else if EncodeUcs2(t).Some? {
      DecodeEncodeUcs2(t);
    } else {
      DecodeEncodeUtf16be(t);
    }
  }
}
