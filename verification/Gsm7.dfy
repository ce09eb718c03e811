/** The GSM 03.38 default alphabet and its extension table (encoding/gsm7.go; GSM 03.38
    section 6.2.1), as unpacked septets. */
module Gsm7 {
  import opened Bytes
  import Septets

  /** A Unicode scalar value; text is a sequence of them. */
  type scalar = c: int | 0 <= c < 0x11_0000 && !(0xd800 <= c < 0xe000)
  type text = seq<scalar>

  const ESCAPE: byte := 0x1b

  /** The default alphabet by septet value, sixteen to a row; 0 at the escape. */
  const ROW_0: seq<scalar> :=
    [0x40, 0xa3, 0x24, 0xa5, 0xe8, 0xe9, 0xf9, 0xec, 0xf2, 0xc7, 0x0a, 0xd8, 0xf8, 0x0d, 0xc5, 0xe5]
  const ROW_1: seq<scalar> :=
    [0x394, 0x5f, 0x3a6, 0x393, 0x39b, 0x3a9, 0x3a0, 0x3a8, 0x3a3, 0x398, 0x39e, 0, 0xc6, 0xe6, 0xdf, 0xc9]
  const ROW_2: seq<scalar> :=
    [0x20, 0x21, 0x22, 0x23, 0xa4, 0x25, 0x26, 0x27, 0x28, 0x29, 0x2a, 0x2b, 0x2c, 0x2d, 0x2e, 0x2f]
  const ROW_3: seq<scalar> :=
    [0x30, 0x31, 0x32, 0x33, 0x34, 0x35, 0x36, 0x37, 0x38, 0x39, 0x3a, 0x3b, 0x3c, 0x3d, 0x3e, 0x3f]
  const ROW_4: seq<scalar> :=
    [0xa1, 0x41, 0x42, 0x43, 0x44, 0x45, 0x46, 0x47, 0x48, 0x49, 0x4a, 0x4b, 0x4c, 0x4d, 0x4e, 0x4f]
  const ROW_5: seq<scalar> :=
    [0x50, 0x51, 0x52, 0x53, 0x54, 0x55, 0x56, 0x57, 0x58, 0x59, 0x5a, 0xc4, 0xd6, 0xd1, 0xdc, 0xa7]
  const ROW_6: seq<scalar> :=
    [0xbf, 0x61, 0x62, 0x63, 0x64, 0x65, 0x66, 0x67, 0x68, 0x69, 0x6a, 0x6b, 0x6c, 0x6d, 0x6e, 0x6f]
  const ROW_7: seq<scalar> :=
    [0x70, 0x71, 0x72, 0x73, 0x74, 0x75, 0x76, 0x77, 0x78, 0x79, 0x7a, 0xe4, 0xf6, 0xf1, 0xfc, 0xe0]

  const DEFAULT: seq<scalar> := ROW_0 + ROW_1 + ROW_2 + ROW_3 + ROW_4 + ROW_5 + ROW_6 + ROW_7

  /** The extension table: the character after an escape, None when unassigned. */
  function Extension(code: byte): (r: Option<scalar>)
  {
    match code
    case 0x0a => Some(0x0c)
    case 0x14 => Some(0x5e)
    case 0x28 => Some(0x7b)
    case 0x29 => Some(0x7d)
    case 0x2f => Some(0x5c)
    case 0x3c => Some(0x5b)
    case 0x3d => Some(0x7e)
    case 0x3e => Some(0x5d)
    case 0x40 => Some(0x7c)
    case 0x65 => Some(0x20ac)
    case _ => None
  }

  function ExtensionCode(r: scalar): (code: Option<byte>)
    ensures code.Some? ==> code.value <= 0x7f && code.value != ESCAPE && Extension(code.value) == Some(r)
    ensures code.None? ==> forall c: byte :: Extension(c) != Some(r)
  {
    match r
    case 0x0c => Some(0x0a)
    case 0x5e => Some(0x14)
    case 0x7b => Some(0x28)
    case 0x7d => Some(0x29)
    case 0x5c => Some(0x2f)
    case 0x5b => Some(0x3c)
    case 0x7e => Some(0x3d)
    case 0x5d => Some(0x3e)
    case 0x7c => Some(0x40)
    case 0x20ac => Some(0x65)
    case _ => None
  }

  /** The last of the first n septets that stands for r. */
  function Find(table: seq<scalar>, r: scalar, n: nat): (i: Option<nat>)
    requires n <= |table|
    ensures i.Some? ==> i.value < n && i.value != ESCAPE && r != 0 && table[i.value] == r
    ensures i.None? ==> forall k | 0 <= k < n && k != ESCAPE && r != 0 :: table[k] != r
  {
    if n == 0 then None
    else if n - 1 != ESCAPE && r != 0 && table[n - 1] == r then Some(n - 1)
    else Find(table, r, n - 1)
  }

  /** The reverse table that init builds. */
  method BuildReverse(table: seq<scalar>) returns (m: map<scalar, nat>)
    ensures forall r: scalar ::
            (r in m <==> Find(table, r, |table|).Some?) && (r in m ==> m[r] == Find(table, r, |table|).value)
  {
    m := map[];
    for i := 0 to |table|
      invariant forall r: scalar ::
                (r in m <==> Find(table, r, i).Some?) && (r in m ==> m[r] == Find(table, r, i).value)
    {
      if i == ESCAPE || table[i] == 0 {
        continue;
      }
      m := m[table[i] := i];
    }
  }

  // ----- Specification -----

  function EncodeChar(r: scalar): (s: Option<bytes>)
  {
    var i := Find(DEFAULT, r, 128);
    if i.Some? then Some([i.value])
    else
      var c := ExtensionCode(r);
      if c.Some? then Some([ESCAPE, c.value]) else None
  }

  function Encode(t: text): (s: Option<bytes>)
  {
    if t == [] then Some([])
    else
      var c, rest := EncodeChar(t[0]), Encode(t[1..]);
      if c.Some? && rest.Some? then Some(c.value + rest.value) else None
  }

  /** The first character of a septet string, and what follows it. */
  function DecodeChar(s: bytes): (r: Option<(scalar, bytes)>)
    requires s != []
    ensures r.Some? ==> |r.value.1| < |s|
  {
    if s[0] > 0x7f then None
    else if s[0] == ESCAPE then
      if |s| < 2 then None
      else if Extension(s[1]).None? then None else Some((Extension(s[1]).value, s[2..]))
    else if DEFAULT[s[0]] == 0 then None
    else Some((DEFAULT[s[0]], s[1..]))
  }

  function Decode(s: bytes): (t: Option<text>)
    decreases |s|
  {
    if s == [] then Some([])
    else
      var c := DecodeChar(s);
      if c.None? then None
      else
        var rest := Decode(c.value.1);
        if rest.None? then None else Some([c.value.0] + rest.value)
  }

  // ----- Laws -----

  lemma DecodeEncodeChar(r: scalar, rest: bytes)
    requires EncodeChar(r).Some?
    ensures var c := EncodeChar(r).value;
            DecodeChar(c + rest) == Some((r, rest)) && (|c| == 1 || |c| == 2)
  {
    var c := EncodeChar(r).value;
    assert (c + rest)[|c|..] == rest;
  }

  /** Every text that encodes decodes to itself. */
  lemma {:induction false} DecodeEncode(t: text)
    requires Encode(t).Some?
    ensures Decode(Encode(t).value) == Some(t)
  {
    if t == [] {
    } else {
      DecodeEncodeChar(t[0], Encode(t[1..]).value);
      DecodeEncode(t[1..]);
      assert [t[0]] + t[1..] == t;
    }
  }

  lemma {:induction false} EncodedAreSeptets(t: text)
    requires Encode(t).Some?
    ensures Septets.AreSeptets(Encode(t).value)
  {
    if t == [] {
    } else {
      EncodedAreSeptets(t[1..]);
    }
  }

  /** An escape is never followed by another one in a string that decodes. */
  lemma {:induction false} NoDoubleEscape(s: bytes, i: nat)
    requires Decode(s).Some? && i + 1 < |s| && s[i] == ESCAPE
    ensures s[i + 1] != ESCAPE
    decreases |s|
  {
    var k := |s| - |DecodeChar(s).value.1|;
    if i < k {
    } else {
      NoDoubleEscape(s[k..], i - k);
    }
  }

  /** A prefix that still holds the whole first character. */
  lemma FirstOfPrefix(s: bytes, n: nat)
    requires s != [] && DecodeChar(s).Some? && 0 < n <= |s| && s[n - 1] != ESCAPE
    ensures var k := |s| - |DecodeChar(s).value.1|;
            && k <= n && DecodeChar(s).value.1 == s[k..]
            && DecodeChar(s[..n]) == Some((DecodeChar(s).value.0, s[k..][..n - k]))
  {
    var k := |s| - |DecodeChar(s).value.1|;
    assert k <= n ==> s[..n][k..] == s[k..][..n - k];
  }

  /** Cutting a decodable string anywhere but right after an escape leaves two strings
      that decode alone, to the two parts of the text. */
  lemma {:induction false} CutDecodes(s: bytes, n: nat)
    requires Decode(s).Some? && 0 < n <= |s| && s[n - 1] != ESCAPE
    ensures Decode(s[..n]).Some? && Decode(s[n..]).Some?
    ensures Decode(s).value == Decode(s[..n]).value + Decode(s[n..]).value
    decreases |s|
  {
    var c := DecodeChar(s).value;
    var k := |s| - |c.1|;
    FirstOfPrefix(s, n);
    assert s[k..][n - k..] == s[n..];
    if n > k {
      CutDecodes(s[k..], n - k);
      assert Decode(s[..n]).value == [c.0] + Decode(s[k..][..n - k]).value;
    } else {
      assert s[k..][..n - k] == [];
      assert Decode(s[..n]).value == [c.0];
    }
  }

  // ----- The loops -----

  method EncodeRune(r: scalar) returns (s: Option<bytes>)
    ensures s == EncodeChar(r)
  {
    var code := Find(DEFAULT, r, 128);
    if code.Some? {
      return Some([code.value]);
    }
    var extension := ExtensionCode(r);
    if extension.Some? {
      return Some([ESCAPE, extension.value]);
    }
    return None;
  }

  /** What a loop that has produced `out` still has to produce. */
  function Prefixed<T>(out: seq<T>, rest: Option<seq<T>>): (r: Option<seq<T>>)
  {
    if rest.Some? then Some(out + rest.value) else None
  }

  lemma PrefixedNil<T>(rest: Option<seq<T>>)
    ensures Prefixed([], rest) == rest
  {
    if rest.Some? { assert [] + rest.value == rest.value; }
  }

  lemma PrefixedMore<T>(out: seq<T>, more: seq<T>, rest: Option<seq<T>>)
    ensures Prefixed(out, Prefixed(more, rest)) == Prefixed(out + more, rest)
  {
    if rest.Some? { assert (out + more) + rest.value == out + (more + rest.value); }
  }

  lemma EncodeStep(out: bytes, t: text, i: nat)
    requires i < |t|
    ensures var c := EncodeChar(t[i]);
            Prefixed(out, Encode(t[i..])) == if c.Some? then Prefixed(out + c.value, Encode(t[i + 1..])) else None
  {
    assert t[i..][0] == t[i] && t[i..][1..] == t[i + 1..];
    var c := EncodeChar(t[i]);
    if c.Some? { PrefixedMore(out, c.value, Encode(t[i + 1..])); }
  }

  method EncodeGSM7(t: text) returns (r: Result<bytes>)
    ensures r == if Encode(t).Some? then Ok(Encode(t).value) else Err(Rejected)
  {
    var out: bytes := [];
    assert t[0..] == t;
    PrefixedNil(Encode(t));
    for i := 0 to |t|
      invariant Encode(t) == Prefixed(out, Encode(t[i..]))
    {
      EncodeStep(out, t, i);
      var c := EncodeRune(t[i]);
      if c.None? {
        return Err(Rejected);
      }
      out := out + c.value;
    }
    assert t[|t|..] == [] && out + [] == out;
    r := Ok(out);
  }

  /** One character; the width says how many septets it took. */
  method DecodeRune(septets: bytes, i: nat) returns (c: Option<scalar>, width: nat)
    requires i < |septets|
    ensures c.None? <==> DecodeChar(septets[i..]).None?
    ensures c.Some? ==> i + width <= |septets| && DecodeChar(septets[i..]) == Some((c.value, septets[i + width..]))
  {
    var code := septets[i];
    width := 1;
    if code > 0x7f {
      return None, width;
    }
    if code == ESCAPE {
      if i + 1 >= |septets| {
        return None, width;
      }
      assert septets[i..][2..] == septets[i + 2..];
      return Extension(septets[i + 1]), 2;
    }
    assert septets[i..][1..] == septets[i + 1..];
    c := if DEFAULT[code] == 0 then None else Some(DEFAULT[code]);
  }

  lemma DecodeStep(out: text, s: bytes)
    requires s != []
    ensures Prefixed(out, Decode(s)) ==
              if DecodeChar(s).None? then None
              else Prefixed(out + [DecodeChar(s).value.0], Decode(DecodeChar(s).value.1))
  {
    var c := DecodeChar(s);
    if c.Some? { PrefixedMore(out, [c.value.0], Decode(c.value.1)); }
  }

  method DecodeGSM7(septets: bytes) returns (r: Result<text>)
    ensures r == if Decode(septets).Some? then Ok(Decode(septets).value) else Err(Rejected)
  {
    var out: text := [];
    var i := 0;
    assert septets[0..] == septets;
    PrefixedNil(Decode(septets));
    while i < |septets|
      invariant 0 <= i <= |septets|
      invariant Decode(septets) == Prefixed(out, Decode(septets[i..]))
      decreases |septets| - i
    {
      DecodeStep(out, septets[i..]);
      var c, width := DecodeRune(septets, i);
      if c.None? {
        return Err(Rejected);
      }
      out := out + [c.value];
      i := i + width;
    }
    assert septets[i..] == [] && out + [] == out;
    r := Ok(out);
  }

  // ----- The septet zero -----

  predicate Lacks(row: seq<scalar>, r: scalar) { forall k | 0 <= k < |row| :: row[k] != r }

  lemma OnlyFirstIsAt(k: nat)
    requires 0 < k < 128
    ensures DEFAULT[k] != 0x40
  {
    assert Lacks(ROW_0[1..], 0x40) && Lacks(ROW_1, 0x40) && Lacks(ROW_2, 0x40) && Lacks(ROW_3, 0x40);
    assert Lacks(ROW_4, 0x40) && Lacks(ROW_5, 0x40) && Lacks(ROW_6, 0x40) && Lacks(ROW_7, 0x40);
  }

  lemma AtIsZero()
    ensures EncodeChar(0x40) == Some([0])
  {
    assert DEFAULT[0] == 0x40;
    var i := Find(DEFAULT, 0x40, 128);
    if i.Some? && i.value > 0 {
      OnlyFirstIsAt(i.value);
    }
  }

  /** A commercial at behind a text is a zero septet behind its encoding. */
  lemma {:induction false} EncodeAt(t: text)
    requires Encode(t).Some?
    ensures Encode(t + [0x40]) == Some(Encode(t).value + [0])
  {
    if t == [] {
      AtIsZero();
      assert t + [0x40] == [0x40] && [0x40][1..] == [] && Encode([]) == Some([]);
      assert [0] + [] == [0] == [] + [0];
    } else {
      assert (t + [0x40])[0] == t[0] && (t + [0x40])[1..] == t[1..] + [0x40];
      EncodeAt(t[1..]);
      var c, rest := EncodeChar(t[0]).value, Encode(t[1..]).value;
      assert c + (rest + [0]) == c + rest + [0];
    }
  }
}
