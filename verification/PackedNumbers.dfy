/** Septet packing as arithmetic, without a word about bits: the packed octets are the
    digits to base 256, lowest first, of the number whose digits to base 128 are the
    septets, times two to the fill (GSM 03.38 section 6.1.2.1). */
module PackedNumbers {
  import opened Bytes
  import opened Septets

  function FromOctets(t: bytes): (n: nat)
  {
    if t == [] then 0 else t[0] as int + 256 * FromOctets(t[1..])
  }

  function FromSeptets(s: bytes): (n: nat)
  {
    if s == [] then 0 else s[0] as int + 128 * FromSeptets(s[1..])
  }

  /** Bits from position a up to position b of the stream. */
  function Bits(s: bytes, fill: nat, a: nat, b: nat): (bs: seq<bit>)
    requires a <= b
    ensures |bs| == b - a
  {
    seq<bit>(b - a, j requires 0 <= j < b - a => StreamBit(s, fill, a + j))
  }

  lemma BitsSplit(s: bytes, fill: nat, a: nat, b: nat, c: nat)
    requires a <= b <= c
    ensures Bits(s, fill, a, c) == Bits(s, fill, a, b) + Bits(s, fill, b, c)
  {
  }

  lemma {:induction false} ValueAppend(a: seq<bit>, b: seq<bit>)
    ensures Value(a + b) == Value(a) + Pow2(|a|) * Value(b)
  {
    if a == [] {
      assert a + b == b;
    } else {
      ValueAppend(a[1..], b);
      assert (a + b)[1..] == a[1..] + b;
      Doubled(Pow2(|a| - 1), Value(b));
    }
  }

  lemma Doubled(p: nat, v: nat)
    ensures 2 * (p * v) == 2 * p * v
  {
  }

  lemma {:induction false} ZerosAreZero(b: seq<bit>)
    requires forall j | 0 <= j < |b| :: b[j] == 0
    ensures Value(b) == 0
  {
    if b == [] {
    } else {
      ZerosAreZero(b[1..]);
    }
  }

  /** The octets from k on are the stream from bit 8 * k on. */
  lemma {:induction false} OctetsAreBits(s: bytes, fill: nat, k: nat)
    requires k <= PackedLength(|s|, fill)
    ensures FromOctets(Pack(s, fill)[k..]) == Value(Bits(s, fill, 8 * k, 8 * PackedLength(|s|, fill)))
    decreases PackedLength(|s|, fill) - k
  {
    var t, n := Pack(s, fill), PackedLength(|s|, fill);
    if k == n {
    } else {
      OctetsAreBits(s, fill, k + 1);
      assert t[k..][1..] == t[k + 1..];
      BitsSplit(s, fill, 8 * k, 8 * (k + 1), 8 * n);
      ValueAppend(Bits(s, fill, 8 * k, 8 * (k + 1)), Bits(s, fill, 8 * (k + 1), 8 * n));
      assert seq<bit>(8, j requires 0 <= j < 8 => StreamBit(s, fill, 8 * k + j)) == Bits(s, fill, 8 * k, 8 * (k + 1));
      Octets();
    }
  }

  lemma SeptetIsBits(s: bytes, fill: nat, i: nat)
    requires AreSeptets(s) && i < |s|
    ensures Value(Bits(s, fill, fill + 7 * i, fill + 7 * i + 7)) == s[i] as int
  {
    var b := Bits(s, fill, fill + 7 * i, fill + 7 * i + 7);
    forall j | 0 <= j < 7
      ensures Bit(Value(b), j) == Bit(s[i], j)
    {
      ValueBit(b, j);
      StreamBitIn(s, fill, i, j);
    }
    Octets();
    BitsDetermine(Value(b), s[i], 7);
  }

  /** The septets from i on are the stream from their first bit on. */
  lemma {:induction false} SeptetsAreBits(s: bytes, fill: nat, i: nat, end: nat)
    requires AreSeptets(s) && i <= |s| && fill + 7 * |s| <= end
    ensures FromSeptets(s[i..]) == Value(Bits(s, fill, fill + 7 * i, end))
    decreases |s| - i
  {
    if i >= |s| {
      var b := Bits(s, fill, fill + 7 * i, end);
      assert forall j | 0 <= j < |b| :: b[j] == StreamBit(s, fill, fill + 7 * i + j) == 0;
      ZerosAreZero(b);
    } else {
      var a, b := fill + 7 * i, fill + 7 * (i + 1);
      SeptetsAreBits(s, fill, i + 1, end);
      assert s[i..][1..] == s[i + 1..];
      BitsSplit(s, fill, a, b, end);
      ValueAppend(Bits(s, fill, a, b), Bits(s, fill, b, end));
      SeptetIsBits(s, fill, i);
      Octets();
    }
  }

  /** With the length of the packed string this says which octets they are. */
  lemma PackedNumber(s: bytes, fill: nat)
    requires AreSeptets(s)
    ensures FromOctets(Pack(s, fill)) == Pow2(fill) * FromSeptets(s)
    ensures |Pack(s, fill)| == (fill + 7 * |s| + 7) / 8
  {
    var end := 8 * PackedLength(|s|, fill);
    OctetsAreBits(s, fill, 0);
    assert Pack(s, fill)[0..] == Pack(s, fill) && s[0..] == s;
    SeptetsAreBits(s, fill, 0, end);
    BitsSplit(s, fill, 0, fill, end);
    ValueAppend(Bits(s, fill, 0, fill), Bits(s, fill, fill, end));
    ZerosAreZero(Bits(s, fill, 0, fill));
  }

  /** Octets of one length are determined by their number. */
  lemma {:induction false} OctetsDetermined(t: bytes, u: bytes)
    requires |t| == |u| && FromOctets(t) == FromOctets(u)
    ensures t == u
  {
    if t == [] {
    } else {
      LowDigit(t[0] as int, FromOctets(t[1..]), u[0] as int, FromOctets(u[1..]));
      OctetsDetermined(t[1..], u[1..]);
      assert t == [t[0]] + t[1..] && u == [u[0]] + u[1..];
    }
  }

  lemma LowDigit(a: nat, x: nat, b: nat, y: nat)
    requires a < 256 && b < 256 && a + 256 * x == b + 256 * y
    ensures a == b && x == y
  {
  }

  /** So packing is the only function with these two properties. */
  lemma PackIff(s: bytes, fill: nat, t: bytes)
    requires AreSeptets(s)
    ensures t == Pack(s, fill) <==>
            |t| == (fill + 7 * |s| + 7) / 8 && FromOctets(t) == Pow2(fill) * FromSeptets(s)
  {
    PackedNumber(s, fill);
    if |t| == (fill + 7 * |s| + 7) / 8 && FromOctets(t) == Pow2(fill) * FromSeptets(s) {
      OctetsDetermined(t, Pack(s, fill));
    }
  }
}
