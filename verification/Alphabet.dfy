/** The GSM 03.38 alphabet by character rather than by septet, and the text encoding that
    follows from it (encoding/gsm7.go, message/message.go). */
module Alphabet {
  import opened Bytes
  import opened Gsm7
  import opened Unicode

  /** The characters of ASCII that are their own septets. */
  predicate IsPlain(r: scalar)
  {
    || r == 0x0a || r == 0x0d || (0x20 <= r <= 0x23) || (0x25 <= r <= 0x3f) || (0x41 <= r <= 0x5a)
    || (0x61 <= r <= 0x7a)
  }

  /** The septets of the other signs. */
  function SignSeptet(r: scalar): (k: Option<byte>)
  {
    match r
    case 0x24 => Some(0x02)
    case 0x40 => Some(0x00)
    case 0x5f => Some(0x11)
    case 0xa1 => Some(0x40)
    case 0xa3 => Some(0x01)
    case 0xa4 => Some(0x24)
    case 0xa5 => Some(0x03)
    case 0xa7 => Some(0x5f)
    case 0xbf => Some(0x60)
    case _ => None
  }

  /** The septets of the accented capitals and of the sharp s. */
  function CapitalSeptet(r: scalar): (k: Option<byte>)
  {
    match r
    case 0xc4 => Some(0x5b)
    case 0xc5 => Some(0x0e)
    case 0xc6 => Some(0x1c)
    case 0xc7 => Some(0x09)
    case 0xc9 => Some(0x1f)
    case 0xd1 => Some(0x5d)
    case 0xd6 => Some(0x5c)
    case 0xd8 => Some(0x0b)
    case 0xdc => Some(0x5e)
    case 0xdf => Some(0x1e)
    case _ => None
  }

  /** The septets of the accented small letters. */
  function SmallSeptet(r: scalar): (k: Option<byte>)
  {
    match r
    case 0xe0 => Some(0x7f)
    case 0xe4 => Some(0x7b)
    case 0xe5 => Some(0x0f)
    case 0xe6 => Some(0x1d)
    case 0xe8 => Some(0x04)
    case 0xe9 => Some(0x05)
    case 0xec => Some(0x07)
    case 0xf1 => Some(0x7d)
    case 0xf2 => Some(0x08)
    case 0xf6 => Some(0x7c)
    case 0xf8 => Some(0x0c)
    case 0xf9 => Some(0x06)
    case 0xfc => Some(0x7e)
    case _ => None
  }

  /** The septets of the Greek capitals that have no Latin look-alike. */
  function GreekSeptet(r: scalar): (k: Option<byte>)
  {
    match r
    case 0x393 => Some(0x13)
    case 0x394 => Some(0x10)
    case 0x398 => Some(0x19)
    case 0x39b => Some(0x14)
    case 0x39e => Some(0x1a)
    case 0x3a0 => Some(0x16)
    case 0x3a3 => Some(0x18)
    case 0x3a6 => Some(0x12)
    case 0x3a8 => Some(0x17)
    case 0x3a9 => Some(0x15)
    case _ => None
  }

  function SeptetOf(r: scalar): (k: Option<byte>)
  {
    if IsPlain(r) then Some(r)
    else if r < 0xc0 then SignSeptet(r)
    else if r < 0xe0 then CapitalSeptet(r)
    else if r < 0x100 then SmallSeptet(r)
    else GreekSeptet(r)
  }

  // ----- The table and the characters agree -----

  function Row(n: nat): (row: seq<scalar>)
    requires n < 8
    ensures |row| == 16
  {
    match n
    case 0 => ROW_0
    case 1 => ROW_1
    case 2 => ROW_2
    case 3 => ROW_3
    case 4 => ROW_4
    case 5 => ROW_5
    case 6 => ROW_6
    case 7 => ROW_7
  }

  lemma JoinedAt(rows: seq<seq<scalar>>, k: nat)
    requires |rows| == 8 && k < 128 && forall i | 0 <= i < 8 :: |rows[i]| == 16
    ensures (rows[0] + rows[1] + rows[2] + rows[3] + rows[4] + rows[5] + rows[6] + rows[7])[k] == rows[k / 16][k % 16]
  {
  }

  lemma DefaultAt(k: nat)
    requires k < 128
    ensures |DEFAULT| == 128 && DEFAULT[k] == Row(k / 16)[k % 16]
  {
    JoinedAt([ROW_0, ROW_1, ROW_2, ROW_3, ROW_4, ROW_5, ROW_6, ROW_7], k);
  }

  /** A character of the table has its place as its septet; only the escape has none. */
  predicate Placed(r: scalar, k: nat)
  {
    if k == 0x1b then r == 0 else r != 0 && SeptetOf(r) == Some(k)
  }

  predicate RowIs(row: seq<scalar>, base: nat)
  {
    |row| == 16 && forall j | 0 <= j < 16 :: Placed(row[j], base + j)
  }

  /** Sixteen places, without looking at what `placed` says. */
  lemma Sixteen(row: seq<scalar>, base: nat, placed: (scalar, nat) -> bool)
    requires |row| == 16
    requires placed(row[0], base) && placed(row[1], base + 1) && placed(row[2], base + 2)
    requires placed(row[3], base + 3) && placed(row[4], base + 4) && placed(row[5], base + 5)
    requires placed(row[6], base + 6) && placed(row[7], base + 7) && placed(row[8], base + 8)
    requires placed(row[9], base + 9) && placed(row[10], base + 10) && placed(row[11], base + 11)
    requires placed(row[12], base + 12) && placed(row[13], base + 13) && placed(row[14], base + 14)
    requires placed(row[15], base + 15)
    ensures forall j | 0 <= j < 16 :: placed(row[j], base + j)
  {
  }

  lemma SixteenAre(row: seq<scalar>, base: nat)
    requires |row| == 16
    requires Placed(row[0], base) && Placed(row[1], base + 1) && Placed(row[2], base + 2)
    requires Placed(row[3], base + 3) && Placed(row[4], base + 4) && Placed(row[5], base + 5)
    requires Placed(row[6], base + 6) && Placed(row[7], base + 7) && Placed(row[8], base + 8)
    requires Placed(row[9], base + 9) && Placed(row[10], base + 10) && Placed(row[11], base + 11)
    requires Placed(row[12], base + 12) && Placed(row[13], base + 13) && Placed(row[14], base + 14)
    requires Placed(row[15], base + 15)
    ensures RowIs(row, base)
  {
    Sixteen(row, base, Placed);
  }

  lemma Row0Is()
    ensures RowIs(ROW_0, 0)
  {
    SixteenAre(ROW_0, 0);
  }

  lemma Row1Is()
    ensures RowIs(ROW_1, 16)
  {
    SixteenAre(ROW_1, 16);
  }

  lemma Row2Is()
    ensures RowIs(ROW_2, 32)
  {
    SixteenAre(ROW_2, 32);
  }

  lemma Row3Is()
    ensures RowIs(ROW_3, 48)
  {
    SixteenAre(ROW_3, 48);
  }

  lemma Row4Is()
    ensures RowIs(ROW_4, 64)
  {
    SixteenAre(ROW_4, 64);
  }

  lemma Row5Is()
    ensures RowIs(ROW_5, 80)
  {
    SixteenAre(ROW_5, 80);
  }

  lemma Row6Is()
    ensures RowIs(ROW_6, 96)
  {
    SixteenAre(ROW_6, 96);
  }

  lemma Row7Is()
    ensures RowIs(ROW_7, 112)
  {
    SixteenAre(ROW_7, 112);
  }

  lemma RowsAre(n: nat)
    requires n < 8
    ensures RowIs(Row(n), 16 * n)
  {
    match n
    case 0 => Row0Is();
    case 1 => Row1Is();
    case 2 => Row2Is();
    case 3 => Row3Is();
    case 4 => Row4Is();
    case 5 => Row5Is();
    case 6 => Row6Is();
    case 7 => Row7Is();
  }

  lemma SeptetsAreBelow128(r: scalar)
    ensures SeptetOf(r).Some? ==> SeptetOf(r).value < 128 && SeptetOf(r).value != 0x1b && r != 0
  {
  }

  lemma SeptetsAreDistinct(q: scalar, r: scalar)
    requires SeptetOf(q).Some? && SeptetOf(q) == SeptetOf(r)
    ensures q == r
  {
  }

  lemma PlacesAgree(q: scalar, r: scalar, k: byte)
    requires Placed(q, k) && r != 0 && (SeptetOf(r) == Some(k) ==> k != 0x1b)
    ensures q == r <==> SeptetOf(r) == Some(k)
  {
    if SeptetOf(r) == Some(k) {
      SeptetsAreDistinct(q, r);
    }
  }

  lemma PlacedAt(k: nat)
    requires k < 128
    ensures Placed(DEFAULT[k], k)
  {
    DefaultAt(k);
    RowsAre(k / 16);
  }

  /** The default table and the list by character are inverse. */
  lemma TableIsAlphabet(k: nat, r: scalar)
    requires k < 128 && r != 0
    ensures DEFAULT[k] == r <==> SeptetOf(r) == Some(k)
  {
    PlacedAt(k);
    SeptetsAreBelow128(r);
    PlacesAgree(DEFAULT[k], r, k);
  }

  // ----- Text -----

  /** The septet after the escape, for the characters of the extension table. */
  function EscapedOf(r: scalar): (k: Option<byte>)
  {
    match r
    case 0x0c => Some(0x0a)
    case 0x5b => Some(0x3c)
    case 0x5c => Some(0x2f)
    case 0x5d => Some(0x3e)
    case 0x5e => Some(0x14)
    case 0x7b => Some(0x28)
    case 0x7c => Some(0x40)
    case 0x7d => Some(0x29)
    case 0x7e => Some(0x3d)
    case 0x20ac => Some(0x65)
    case _ => None
  }

  predicate InAlphabet(r: scalar) { SeptetOf(r).Some? || EscapedOf(r).Some? }

  function SeptetsOf(r: scalar): (s: bytes)
    requires InAlphabet(r)
  {
    if SeptetOf(r).Some? then [SeptetOf(r).value] else [0x1b, EscapedOf(r).value]
  }

  lemma FoundIsSeptet(r: scalar)
    ensures Find(DEFAULT, r, 128) == SeptetOf(r)
  {
    var i := Find(DEFAULT, r, 128);
    SeptetsAreBelow128(r);
    if i.Some? {
      TableIsAlphabet(i.value, r);
    } else if SeptetOf(r).Some? {
      TableIsAlphabet(SeptetOf(r).value, r);
    }
  }

  lemma CharIs(r: scalar)
    ensures EncodeChar(r) == if InAlphabet(r) then Some(SeptetsOf(r)) else None
  {
    FoundIsSeptet(r);
  }

  predicate AllInAlphabet(t: text) { forall i | 0 <= i < |t| :: InAlphabet(t[i]) }

  function AllSeptets(t: text): (ss: seq<bytes>)
    requires AllInAlphabet(t)
  {
    seq(|t|, i requires 0 <= i < |t| => SeptetsOf(t[i]))
  }

  /** A text encodes exactly when every character is in the alphabet, to the septets of its
      characters one after the other. */
  lemma {:induction false} EncodeIff(t: text)
    ensures Encode(t).Some? <==> AllInAlphabet(t)
    ensures AllInAlphabet(t) ==> Encode(t).value == Concat(AllSeptets(t))
  {
    if t == [] {
    } else {
      CharIs(t[0]);
      EncodeIff(t[1..]);
      assert AllInAlphabet(t) ==> AllInAlphabet(t[1..]) && AllSeptets(t) == [SeptetsOf(t[0])] + AllSeptets(t[1..]);
      assert InAlphabet(t[0]) && AllInAlphabet(t[1..]) ==> AllInAlphabet(t);
      if AllInAlphabet(t) {
        ConcatCons(SeptetsOf(t[0]), AllSeptets(t[1..]));
      }
    }
  }

  /** The code units of a character, as Unicode defines them: itself, or the one pair of
      surrogates that adds up to it. */
  lemma ScalarIff(c: scalar, us: units)
    ensures us == EncodeScalar(c) <==>
            if c <= 0xffff then us == [c]
            else && |us| == 2 && 0xd800 <= us[0] <= 0xdbff && 0xdc00 <= us[1] <= 0xdfff
                 && c == 0x1_0000 + (us[0] as int - 0xd800) * 0x400 + (us[1] as int - 0xdc00)
  {
  }

  lemma UnitsOfText(t: text)
    ensures |EncodeUtf16be(t)| % 2 == 0 && (EncodeUcs2(t).Some? <==> InBmp(t))
    ensures InBmp(t) ==> EncodeUcs2(t).value == EncodeUtf16be(t)
  {
  }

  lemma SelectedBy(t: text, allowSurrogates: bool)
    ensures var r := SelectText(t, allowSurrogates);
            && (r.Some? <==> Encode(t).Some? || InBmp(t) || allowSurrogates)
            && (r.Some? ==> r.value.kind == if Encode(t).Some? then GSM7 else if InBmp(t) then UCS2 else UTF16BE)
            && (r.Some? ==> |r.value.data| == if r.value.kind.GSM7? then r.value.units else 2 * r.value.units)
  {
    UnitsOfText(t);
    if Encode(t).Some? {
      assert SelectText(t, allowSurrogates) == Some(EncodedText(GSM7, Encode(t).value, |Encode(t).value|));
    } else if InBmp(t) {
      assert SelectText(t, allowSurrogates) == Some(EncodedText(UCS2, EncodeUtf16be(t), |EncodeUtf16be(t)| / 2));
    } else {
    }
  }

  /** The representation of a text: septets if the alphabet has every character, else code
      units, with surrogates only if they are needed and allowed. The units are septets or
      code units. */
  lemma SelectionIff(t: text, allowSurrogates: bool)
    ensures var r, bmp := SelectText(t, allowSurrogates), forall i | 0 <= i < |t| :: t[i] <= 0xffff;
            && (r.Some? <==> AllInAlphabet(t) || bmp || allowSurrogates)
            && (r.Some? ==> r.value.kind == if AllInAlphabet(t) then GSM7 else if bmp then UCS2 else UTF16BE)
            && (r.Some? ==> |r.value.data| == if r.value.kind.GSM7? then r.value.units else 2 * r.value.units)
  {
    EncodeIff(t);
    SelectedBy(t, allowSurrogates);
  }
}
