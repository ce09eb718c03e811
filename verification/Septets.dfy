/** GSM 03.38 septet packing (encoding/gsm7.go; GSM 03.38 section 6.1.2.1): bit j of
    septet i is bit fill + 7 * i + j of the octet string, least significant bit first. */
module Septets {
  import opened Bytes

  type bit = b: int | 0 <= b < 2

  // ----- Bits of a number -----

  /** x & (1 << j) != 0 */
  function Bit(x: nat, j: nat): (b: bit)
  {
    if j == 0 then x % 2 else Bit(x / 2, j - 1)
  }

  /** x | (1 << j) */
  function WithBit(x: nat, j: nat): (y: nat)
  {
    if j == 0 then x / 2 * 2 + 1 else x % 2 + 2 * WithBit(x / 2, j - 1)
  }

  function Pow2(n: nat): (p: nat)
    ensures p > 0
  {
    if n == 0 then 1 else 2 * Pow2(n - 1)
  }

  /** The number with the given bits, lowest first. */
  function Value(b: seq<bit>): (x: nat)
    ensures x < Pow2(|b|)
  {
    if b == [] then 0 else b[0] as int + 2 * Value(b[1..])
  }

  lemma {:induction false} ValueBit(b: seq<bit>, j: nat)
    requires j < |b|
    ensures Bit(Value(b), j) == b[j]
  {
    assert Value(b) / 2 == Value(b[1..]) && Value(b) % 2 == b[0];
    if j == 0 {
    } else {
      ValueBit(b[1..], j - 1);
    }
  }

  lemma {:induction false} WithBitBit(x: nat, j: nat, k: nat)
    ensures Bit(WithBit(x, j), k) == if k == j then 1 else Bit(x, k)
  {
    if j > 0 {
      assert WithBit(x, j) / 2 == WithBit(x / 2, j - 1) && WithBit(x, j) % 2 == x % 2;
      if k > 0 { WithBitBit(x / 2, j - 1, k - 1); }
    } else {
      assert WithBit(x, j) / 2 == x / 2 && WithBit(x, j) % 2 == 1;
    }
  }

  lemma {:induction false} WithBitBound(x: nat, j: nat, n: nat)
    requires x < Pow2(n) && j < n
    ensures WithBit(x, j) < Pow2(n)
  {
    assert Pow2(n) == 2 * Pow2(n - 1) && x / 2 < Pow2(n - 1);
    if j == 0 {
    } else {
      WithBitBound(x / 2, j - 1, n - 1);
    }
  }

  /** Numbers below 2^n with the same n bits are equal. */
  lemma {:induction false} BitsDetermine(x: nat, y: nat, n: nat)
    requires x < Pow2(n) && y < Pow2(n)
    requires forall j | 0 <= j < n :: Bit(x, j) == Bit(y, j)
    ensures x == y
  {
    if n == 0 {
    } else {
      assert Bit(x, 0) == Bit(y, 0);
      forall j | 0 <= j < n - 1
        ensures Bit(x / 2, j) == Bit(y / 2, j)
      {
        assert Bit(x, j + 1) == Bit(y, j + 1);
      }
      BitsDetermine(x / 2, y / 2, n - 1);
    }
  }

  lemma Octets()
    ensures Pow2(7) == 128 && Pow2(8) == 256
  {
    assert Pow2(4) == 16;
  }

  // ----- Bits of an octet string -----

  function BitAt(s: bytes, pos: nat): (b: bit)
    requires pos < 8 * |s|
  {
    Bit(s[pos / 8], pos % 8)
  }

  /** Octet strings of one length with the same bits are equal. */
  lemma StringsDetermined(s: bytes, t: bytes)
    requires |s| == |t| && forall pos | 0 <= pos < 8 * |s| :: BitAt(s, pos) == BitAt(t, pos)
    ensures s == t
  {
    forall k | 0 <= k < |s|
      ensures s[k] == t[k]
    {
      forall j | 0 <= j < 8
        ensures Bit(s[k], j) == Bit(t[k], j)
      {
        assert BitAt(s, 8 * k + j) == BitAt(t, 8 * k + j);
      }
      Octets();
      BitsDetermine(s[k], t[k], 8);
    }
  }

  function SetBit(s: bytes, pos: nat): (t: bytes)
    requires pos < 8 * |s|
    ensures |t| == |s|
  {
    Octets();
    WithBitBound(s[pos / 8], pos % 8, 8);
    s[pos / 8 := WithBit(s[pos / 8], pos % 8)]
  }

  lemma SetBitAt(s: bytes, pos: nat, q: nat)
    requires pos < 8 * |s| && q < 8 * |s|
    ensures BitAt(SetBit(s, pos), q) == if q == pos then 1 else BitAt(s, q)
  {
    WithBitBit(s[pos / 8], pos % 8, q % 8);
  }

  // ----- Specification -----

  /** Bit pos of the packed stream: fill zeros, the septets, zeros. */
  function StreamBit(s: bytes, fill: nat, pos: nat): (b: bit)
  {
    if fill <= pos < fill + 7 * |s| then Bit(s[(pos - fill) / 7], (pos - fill) % 7) else 0
  }

  function PackedLength(n: nat, fill: nat): (l: nat)
  {
    (fill + 7 * n + 7) / 8
  }

  function PackedOctet(s: bytes, fill: nat, k: nat): (x: byte)
  {
    Octets();
    Value(seq<bit>(8, j requires 0 <= j < 8 => StreamBit(s, fill, 8 * k + j)))
  }

  /** The octets whose bits are the stream. */
  function Pack(s: bytes, fill: nat): (t: bytes)
    ensures |t| == PackedLength(|s|, fill)
  {
    seq(PackedLength(|s|, fill), k requires 0 <= k => PackedOctet(s, fill, k))
  }

  lemma PackBit(s: bytes, fill: nat, pos: nat)
    requires pos < 8 * |Pack(s, fill)|
    ensures BitAt(Pack(s, fill), pos) == StreamBit(s, fill, pos)
  {
    var k, j := pos / 8, pos % 8;
    ValueBit(seq<bit>(8, j requires 0 <= j < 8 => StreamBit(s, fill, 8 * k + j)), j);
  }

  predicate AreSeptets(s: bytes) { forall i | 0 <= i < |s| :: s[i] <= 0x7f }

  function SeptetAt(s: bytes, fill: nat, i: nat): (x: byte)
    requires fill + 7 * i + 7 <= 8 * |s|
    ensures x <= 0x7f
  {
    Octets();
    Value(seq<bit>(7, j requires 0 <= j < 7 => BitAt(s, fill + 7 * i + j)))
  }

  function Unpack(s: bytes, count: nat, fill: nat): (t: bytes)
    requires fill + 7 * count <= 8 * |s|
    ensures |t| == count && AreSeptets(t)
  {
    seq(count, i requires 0 <= i < count => SeptetAt(s, fill, i))
  }

  // ----- Packing is invertible -----

  lemma SeptetFits(n: nat, fill: nat, i: nat, j: nat)
    requires i < n && j < 7
    ensures fill + 7 * i + j < 8 * PackedLength(n, fill)
  {
    assert 7 * i + 7 <= 7 * n;
  }

  lemma SeptetPlace(i: nat, j: nat)
    requires j < 7
    ensures (7 * i + j) / 7 == i && (7 * i + j) % 7 == j
  {
  }

  /** Bit j of septet i is where the packing put it. */
  lemma SeptetBit(s: bytes, fill: nat, i: nat, j: nat)
    requires AreSeptets(s) && i < |s| && j < 7
    ensures fill + 7 * i + j < 8 * |Pack(s, fill)| && BitAt(Pack(s, fill), fill + 7 * i + j) == Bit(s[i], j)
  {
    SeptetFits(|s|, fill, i, j);
    PackBit(s, fill, fill + 7 * i + j);
    SeptetPlace(i, j);
  }

  lemma UnpackPackAt(s: bytes, fill: nat, i: nat)
    requires AreSeptets(s) && i < |s|
    ensures SeptetAt(Pack(s, fill), fill, i) == s[i]
  {
    var t := Pack(s, fill);
    var bits := seq<bit>(7, j requires 0 <= j < 7 => BitAt(t, fill + 7 * i + j));
    forall j | 0 <= j < 7
      ensures Bit(Value(bits), j) == Bit(s[i], j)
    {
      ValueBit(bits, j);
      SeptetBit(s, fill, i, j);
    }
    Octets();
    BitsDetermine(Value(bits), s[i], 7);
  }

  /** Unpacking with the count and the fill gives the septets back. */
  lemma UnpackPack(s: bytes, fill: nat)
    requires AreSeptets(s)
    ensures Unpack(Pack(s, fill), |s|, fill) == s
  {
    forall i | 0 <= i < |s|
      ensures Unpack(Pack(s, fill), |s|, fill)[i] == s[i]
    {
      UnpackPackAt(s, fill, i);
    }
  }

  /** Fill bits and padding bits are zero. */
  lemma FillAndPaddingAreZero(s: bytes, fill: nat, pos: nat)
    requires pos < 8 * |Pack(s, fill)| && (pos < fill || fill + 7 * |s| <= pos)
    ensures BitAt(Pack(s, fill), pos) == 0
  {
    PackBit(s, fill, pos);
  }

  // ----- The loops -----

  lemma StreamBitIn(s: bytes, fill: nat, i: nat, j: nat)
    requires i < |s| && j < 7
    ensures StreamBit(s, fill, fill + 7 * i + j) == Bit(s[i], j)
  {
  }

  /** ORs one septet into the octets, bit by bit. */
  method OrSeptet(out: array<byte>, bitPos: nat, septet: byte)
    requires bitPos + 7 <= 8 * out.Length
    requires forall q | bitPos <= q < bitPos + 7 :: BitAt(out[..], q) == 0
    modifies out
    ensures forall q | 0 <= q < 8 * out.Length ::
              BitAt(out[..], q) == if bitPos <= q < bitPos + 7 then Bit(septet, q - bitPos) else BitAt(old(out[..]), q)
  {
    for b := 0 to 7
      invariant forall q | 0 <= q < 8 * out.Length ::
                  BitAt(out[..], q) ==
                  if bitPos <= q < bitPos + b then Bit(septet, q - bitPos) else BitAt(old(out[..]), q)
    {
      if Bit(septet, b) != 0 {
        var pos := bitPos + b;
        ghost var before := out[..];
        Octets();
        WithBitBound(before[pos / 8], pos % 8, 8);
        out[pos / 8] := WithBit(out[pos / 8], pos % 8);
        assert out[..] == SetBit(before, pos);
        forall q | 0 <= q < 8 * out.Length
          ensures BitAt(out[..], q) == if q == pos then 1 else BitAt(before, q)
        {
          SetBitAt(before, pos, q);
        }
      }
    }
  }

  lemma NextSeptet(s: bytes, fill: nat, i: nat, q: nat)
    requires i < |s|
    ensures (if q < fill + 7 * i + 7 then StreamBit(s, fill, q) else 0) ==
              if fill + 7 * i <= q < fill + 7 * i + 7 then Bit(s[i], q - (fill + 7 * i))
              else if q < fill + 7 * i then StreamBit(s, fill, q) else 0
  {
    if fill + 7 * i <= q < fill + 7 * i + 7 { StreamBitIn(s, fill, i, q - (fill + 7 * i)); }
  }

  /** Fails on a fill above 6 or a value above 0x7f; otherwise the packed stream. */
  method PackSeptetsWithFill(septets: bytes, fillBits: byte) returns (r: Result<bytes>)
    ensures r == if fillBits > 6 || !AreSeptets(septets) then Err(Rejected) else Ok(Pack(septets, fillBits))
  {
    if fillBits > 6 {
      return Err(Rejected);
    }
    if septets == [] {
      PackNothing(septets, fillBits);
      if fillBits == 0 {
        return Ok([]);
      }
      return Ok([0]);
    }
    var n := (fillBits + |septets| * 7 + 7) / 8;
    var out := new byte[n](_ => 0);
    var bitPos: nat := fillBits;
    AllZero(out[..]);
    for i := 0 to |septets|
      invariant bitPos == fillBits + 7 * i && AreSeptets(septets[..i])
      invariant forall q | 0 <= q < 8 * n ::
                BitAt(out[..], q) == if q < bitPos then StreamBit(septets, fillBits, q) else 0
    {
      if septets[i] > 0x7f {
        return Err(Rejected);
      }
      OrSeptet(out, bitPos, septets[i]);
      forall q | 0 <= q < 8 * n
        ensures BitAt(out[..], q) == if q < bitPos + 7 then StreamBit(septets, fillBits, q) else 0
      {
        NextSeptet(septets, fillBits, i, q);
      }
      bitPos := bitPos + 7;
    }
    forall q | 0 <= q < 8 * n
      ensures BitAt(out[..], q) == BitAt(Pack(septets, fillBits), q)
    {
      PackBit(septets, fillBits, q);
    }
    StringsDetermined(out[..], Pack(septets, fillBits));
    r := Ok(out[..]);
  }

  lemma {:induction false} ZeroBit(j: nat)
    ensures Bit(0, j) == 0
  {
    if j == 0 {
    } else {
      ZeroBit(j - 1);
    }
  }

  lemma AllZero(s: bytes)
    requires forall k | 0 <= k < |s| :: s[k] == 0
    ensures forall q | 0 <= q < 8 * |s| :: BitAt(s, q) == 0
  {
    forall q | 0 <= q < 8 * |s|
      ensures BitAt(s, q) == 0
    {
      ZeroBit(q % 8);
    }
  }

  lemma PackNothing(s: bytes, fill: nat)
    requires s == [] && fill <= 6
    ensures Pack(s, fill) == if fill == 0 then [] else [0]
  {
    if fill > 0 {
      AllZero([0]);
      forall q | 0 <= q < 8
        ensures BitAt(Pack(s, fill), q) == BitAt([0], q)
      {
        PackBit(s, fill, q);
      }
      StringsDetermined(Pack(s, fill), [0]);
    }
  }

  /** Reads one septet, bit by bit. */
  method ReadSeptet(data: bytes, fill: nat, i: nat) returns (septet: byte)
    requires fill + 7 * i + 7 <= 8 * |data|
    ensures septet == SeptetAt(data, fill, i)
  {
    septet := 0;
    var bitPos := fill + 7 * i;
    Octets();
    forall k | 0 <= k < 7 ensures Bit(0, k) == 0 { ZeroBit(k); }
    for b := 0 to 7
      invariant septet < Pow2(7)
      invariant forall k | 0 <= k < 7 :: Bit(septet, k) == if k < b then BitAt(data, bitPos + k) else 0
    {
      var pos := bitPos + b;
      if Bit(data[pos / 8], pos % 8) != 0 {
        ghost var before := septet;
        WithBitBound(septet, b, 7);
        septet := WithBit(septet, b);
        forall k | 0 <= k < 7
          ensures Bit(septet, k) == if k == b then 1 else Bit(before, k)
        {
          WithBitBit(before, b, k);
        }
      }
    }
    var bits := seq<bit>(7, j requires 0 <= j < 7 => BitAt(data, fill + 7 * i + j));
    forall j | 0 <= j < 7 ensures Bit(septet, j) == Bit(Value(bits), j) { ValueBit(bits, j); }
    BitsDetermine(septet, Value(bits), 7);
  }

  method UnpackSeptets(data: bytes, count: int, fillBits: byte) returns (r: Result<bytes>)
    ensures r == if count < 0 || fillBits > 6 || fillBits + 7 * count > 8 * |data| then Err(Rejected)
                 else Ok(Unpack(data, count, fillBits))
  {
    if count < 0 || fillBits > 6 {
      return Err(Rejected);
    }
    if fillBits + count * 7 > |data| * 8 {
      return Err(Rejected);
    }
    var out: bytes := [];
    for i := 0 to count
      invariant |out| == i && forall k | 0 <= k < i :: out[k] == SeptetAt(data, fillBits, k)
    {
      var septet := ReadSeptet(data, fillBits, i);
      out := out + [septet];
    }
    assert out == Unpack(data, count, fillBits);
    r := Ok(out);
  }

  // ----- Without the count -----

  /** The most septets that fit the octets after the fill. */
  function Capacity(octets: nat, fill: nat): (n: nat)
    requires fill <= 6 && octets > 0
  {
    (8 * octets - fill) / 7
  }

  /** The length gives the count back unless seven padding bits look like a septet. */
  lemma CapacityIsCountIff(n: nat, fill: nat)
    requires fill <= 6 && n > 0
    ensures PackedLength(n, fill) > 0
    ensures Capacity(PackedLength(n, fill), fill) == if (fill + 7 * n) % 8 == 1 then n + 1 else n
  {
  }

  /** Then a trailing zero septet leaves no trace: the packed octets do not determine
      the septets. */
  lemma PhantomSeptet(s: bytes, fill: nat)
    requires AreSeptets(s) && fill <= 6 && (fill + 7 * |s|) % 8 == 1
    ensures Pack(s + [0], fill) == Pack(s, fill)
  {
    var t := s + [0];
    assert |Pack(t, fill)| == |Pack(s, fill)|;
    forall q | 0 <= q < 8 * |Pack(s, fill)|
      ensures BitAt(Pack(t, fill), q) == BitAt(Pack(s, fill), q)
    {
      PackBit(s, fill, q);
      PackBit(t, fill, q);
      if q >= fill + 7 * |s| { ZeroBit((q - fill) % 7); }
    }
    StringsDetermined(Pack(t, fill), Pack(s, fill));
  }

  /** The octets alone give the septets back, taking as many as fit, if and only if the
      padding is not seven bits long. */
  lemma RecoverableIff(s: bytes, fill: nat)
    requires AreSeptets(s) && fill <= 6 && s != []
    ensures var t := Pack(s, fill);
            t != [] && (Unpack(t, Capacity(|t|, fill), fill) == s <==> (fill + 7 * |s|) % 8 != 1)
  {
    CapacityIsCountIff(|s|, fill);
    UnpackPack(s, fill);
  }

  /** Packing loses nothing else: septet strings with the same packing are equal, or
      differ by exactly that phantom septet. */
  lemma PackInjective(s: bytes, t: bytes, fill: nat)
    requires AreSeptets(s) && AreSeptets(t) && fill <= 6 && |s| <= |t| && Pack(s, fill) == Pack(t, fill)
    ensures t == s || (t == s + [0] && (fill + 7 * |s|) % 8 == 1)
  {
    UnpackPack(s, fill);
    UnpackPack(t, fill);
    if |s| != |t| {
      SameLengthPacked(|s|, |t|, fill);
      PhantomSeptet(s, fill);
      UnpackPack(s + [0], fill);
    }
  }

  /** Two counts that take equally many octets differ by a septet of padding. */
  lemma SameLengthPacked(m: nat, n: nat, fill: nat)
    requires fill <= 6 && m < n && PackedLength(m, fill) == PackedLength(n, fill)
    ensures n == m + 1 && (fill + 7 * m) % 8 == 1
  {
  }
}
