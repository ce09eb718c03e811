/** Splitting encoded content into parts (message/message.go) without separating an
    escape from its extension septet or the halves of a surrogate pair. */
module Splitters {
  import opened Bytes
  import opened Gsm7
  import opened Unicode

  /** Non-empty parts of at most max, all but the last of at least low. */
  predicate Sized<T>(parts: seq<seq<T>>, low: nat, max: nat)
  {
    && (forall i | 0 <= i < |parts| :: 0 < |parts[i]| <= max)
    && (forall i | 0 <= i < |parts| - 1 :: low <= |parts[i]|)
  }

  lemma SizedCons<T>(first: seq<T>, rest: seq<seq<T>>, low: nat, max: nat)
    requires 0 < |first| <= max && Sized(rest, low, max) && (rest != [] ==> low <= |first|)
    ensures Sized([first] + rest, low, max)
  {
  }

  /** The sizes bound the number of parts. */
  lemma {:induction false} PartCount<T>(parts: seq<seq<T>>, low: nat, max: nat)
    requires Sized(parts, low, max) && parts != []
    ensures (|parts| - 1) * low < |Concat(parts)|
  {
    if |parts| <= 1 {
    } else {
      assert Sized(parts[1..], low, max);
      PartCount(parts[1..], low, max);
    }
  }

  // ----- Octets -----

  function SplitBytes(s: bytes, max: nat): (parts: seq<bytes>)
    requires max > 0
  {
    if s == [] then [] else
      var n := if |s| < max then |s| else max;
      [s[..n]] + SplitBytes(s[n..], max)
  }

  lemma {:induction false} SplitBytesSound(s: bytes, max: nat)
    requires max > 0
    ensures Concat(SplitBytes(s, max)) == s && Sized(SplitBytes(s, max), max, max)
  {
    if s == [] {
    } else {
      var n := if |s| < max then |s| else max;
      var parts := SplitBytes(s[n..], max);
      SplitBytesSound(s[n..], max);
      SizedCons(s[..n], parts, max, max);
      assert SplitBytes(s, max) == [s[..n]] + parts;
      ConcatCons(s[..n], parts);
      assert s[..n] + s[n..] == s;
    }
  }

  lemma SplitBytesStep(parts: seq<bytes>, rest: bytes, max: nat)
    requires rest != [] && max > 0
    ensures var n := if |rest| < max then |rest| else max;
            parts + SplitBytes(rest, max) == (parts + [rest[..n]]) + SplitBytes(rest[n..], max)
  {
  }

  method SplitBytesLoop(data: bytes, max: nat) returns (parts: seq<bytes>)
    requires max > 0
    ensures parts == SplitBytes(data, max)
  {
    parts := [];
    var rest := data;
    while |rest| > 0
      invariant SplitBytes(data, max) == parts + SplitBytes(rest, max)
    {
      var n := max;
      if |rest| < n {
        n := |rest|;
      }
      SplitBytesStep(parts, rest, max);
      parts := parts + [rest[..n]];
      rest := rest[n..];
    }
  }

  // ----- GSM 7-bit -----

  /** Where the first part ends: before an escape that would be cut off. */
  function CutAt(s: bytes, max: nat): (n: nat)
    requires s != [] && max >= 2
    ensures 0 < n <= max && n <= |s|
  {
    var n := if |s| < max then |s| else max;
    if n < |s| && s[n - 1] == ESCAPE then n - 1 else n
  }

  function SplitGsm(s: bytes, max: nat): (parts: seq<bytes>)
  {
    if s == [] || max < 2 then [] else [s[..CutAt(s, max)]] + SplitGsm(s[CutAt(s, max)..], max)
  }

  lemma {:induction false} SplitGsmSound(s: bytes, max: nat)
    requires max >= 2
    ensures Concat(SplitGsm(s, max)) == s && Sized(SplitGsm(s, max), max - 1, max)
  {
    if s == [] {
    } else {
      var n := CutAt(s, max);
      var parts := SplitGsm(s[n..], max);
      SplitGsmSound(s[n..], max);
      SizedCons(s[..n], parts, max - 1, max);
      assert SplitGsm(s, max) == [s[..n]] + parts;
      ConcatCons(s[..n], parts);
      assert s[..n] + s[n..] == s;
    }
  }

  lemma LastPart(s: bytes, max: nat)
    requires 0 < |s| <= max && max >= 2
    ensures SplitGsm(s, max) == [s]
  {
    assert s[..|s|] == s && s[|s|..] == [];
  }

  /** The number of parts is bounded by the length. */
  lemma SplitGsmCount(s: bytes, max: nat)
    requires max >= 2 && s != []
    ensures 0 < |SplitGsm(s, max)| && (|SplitGsm(s, max)| - 1) * (max - 1) < |s|
  {
    SplitGsmSound(s, max);
    PartCount(SplitGsm(s, max), max - 1, max);
  }

  /** The texts of parts that all decode. */
  function DecodeParts(parts: seq<bytes>): (t: Option<text>)
  {
    if parts == [] then Some([])
    else if Decode(parts[0]).None? then None
    else Prefixed(Decode(parts[0]).value, DecodeParts(parts[1..]))
  }

  lemma CutIsSafe(s: bytes, max: nat)
    requires Decode(s).Some? && s != [] && max >= 2
    ensures var n := CutAt(s, max);
            Decode(s[..n]).Some? && Decode(s[n..]).Some? &&
                Decode(s).value == Decode(s[..n]).value + Decode(s[n..]).value
  {
    var n := CutAt(s, max);
    if n == |s| {
      assert s[..n] == s && s[n..] == [];
    } else {
      if s[n] == ESCAPE && s[n - 1] == ESCAPE { NoDoubleEscape(s, n - 1); }
      CutDecodes(s, n);
    }
  }

  /** Every part of a decodable string decodes alone, and the texts of the parts are the
      text of the whole. */
  lemma {:induction false} SplitGsmDecodes(s: bytes, max: nat)
    requires Decode(s).Some? && max >= 2
    ensures DecodeParts(SplitGsm(s, max)) == Decode(s)
  {
    if s == [] {
    } else {
      var n := CutAt(s, max);
      CutIsSafe(s, max);
      SplitGsmDecodes(s[n..], max);
    }
  }

  lemma SplitGsmStep(parts: seq<bytes>, rest: bytes, max: nat)
    requires rest != [] && max >= 2
    ensures var n := CutAt(rest, max);
            parts + SplitGsm(rest, max) == (parts + [rest[..n]]) + SplitGsm(rest[n..], max)
  {
  }

  method SplitGSM7(data: bytes, max: nat) returns (parts: seq<bytes>)
    ensures parts == SplitGsm(data, max)
  {
    parts := [];
    if |data| == 0 || max < 2 {
      return;
    }
    var rest := data;
    while |rest| > 0
      invariant SplitGsm(data, max) == parts + SplitGsm(rest, max)
    {
      SplitGsmStep(parts, rest, max);
      var n := if |rest| < max then |rest| else max;
      if n < |rest| && rest[n - 1] == 0x1b {
        n := n - 1;
      }
      parts := parts + [rest[..n]];
      rest := rest[n..];
    }
  }

  // ----- UTF-16 -----

  /** The parts of `cur` followed by `rest`: `cur` grows character by character and is
      closed when the next character does not fit. */
  function Grow(rest: units, cur: units, max: nat): (parts: Option<seq<units>>)
    decreases |rest|, |cur|
  {
    if rest == [] then Some([cur])
    else
      var c := DecodeFirst(rest);
      if c.None? then None
      else
        var w := c.value.1;
        if cur != [] && |cur| + w > max then Prefixed([cur], Grow(rest, [], max))
        else if w > max then None
        else Grow(rest[w..], cur + rest[..w], max)
  }

  function SplitUnits(us: units, max: nat): (parts: Option<seq<units>>)
  {
    if us == [] then Some([]) else Grow(us, [], max)
  }

  lemma {:induction false} Decode16Append(a: units, b: units)
    requires Decode16(a).Some? && Decode16(b).Some?
    ensures Decode16(a + b) == Some(Decode16(a).value + Decode16(b).value)
    decreases |a|
  {
    if a == [] {
      assert a + b == b && [] + Decode16(b).value == Decode16(b).value;
    } else {
      var (c, w) := DecodeFirst(a).value;
      assert DecodeFirst(a + b) == DecodeFirst(a) && (a + b)[w..] == a[w..] + b;
      Decode16Append(a[w..], b);
      PrefixedMore([c], Decode16(a[w..]).value, Decode16(b));
    }
  }

  predicate AllDecode(parts: seq<units>) { forall i | 0 <= i < |parts| :: Decode16(parts[i]).Some? }

  lemma FirstDecodes(us: units)
    requires us != [] && Decode16(us).Some?
    ensures var w := DecodeFirst(us).value.1; Decode16(us[..w]).Some? && Decode16(us[w..]).Some?
  {
    var w := DecodeFirst(us).value.1;
    assert us[..w][w..] == [] && DecodeFirst(us[..w]) == DecodeFirst(us);
  }

  /** The texts of parts that all decode. */
  function DecodeUnitParts(parts: seq<units>): (t: Option<text>)
  {
    if parts == [] then Some([])
    else if Decode16(parts[0]).None? then None
    else Prefixed(Decode16(parts[0]).value, DecodeUnitParts(parts[1..]))
  }

  /** Parts that decode alone have the text of the whole between them. */
  lemma {:induction false} UnitPartsDecode(parts: seq<units>)
    requires AllDecode(parts)
    ensures Decode16(Concat(parts)).Some? && DecodeUnitParts(parts) == Decode16(Concat(parts))
  {
    if parts == [] {
    } else {
      UnitPartsDecode(parts[1..]);
      Decode16Append(parts[0], Concat(parts[1..]));
    }
  }

  predicate SplitsInto(us: units, parts: seq<units>, max: nat)
    requires max >= 2
  {
    parts != [] && Concat(parts) == us && Sized(parts, max - 1, max) && AllDecode(parts)
  }

  lemma SplitsIntoOne(cur: units, max: nat)
    requires max >= 2 && 0 < |cur| <= max && Decode16(cur).Some?
    ensures SplitsInto(cur, [cur], max)
  {
    assert Concat([cur]) == cur by { assert [cur][1..] == []; }
  }

  lemma SplitsIntoMore(cur: units, us: units, parts: seq<units>, max: nat)
    requires max >= 2 && max - 1 <= |cur| <= max && Decode16(cur).Some? && SplitsInto(us, parts, max)
    ensures SplitsInto(cur + us, [cur] + parts, max)
  {
    SizedCons(cur, parts, max - 1, max);
    assert ([cur] + parts)[1..] == parts;
  }

  /** Well-formed input is always split: into parts that join to it, hold at most max
      units and, but for the last, at least max - 1, and decode alone. */
  lemma {:induction false} GrowSound(rest: units, cur: units, max: nat)
    requires max >= 2 && Decode16(rest).Some? && Decode16(cur).Some? && |cur| <= max && (cur != [] || rest != [])
    ensures Grow(rest, cur, max).Some? && SplitsInto(cur + rest, Grow(rest, cur, max).value, max)
    decreases |rest|, |cur|
  {
    if rest == [] {
      assert cur + rest == cur;
      SplitsIntoOne(cur, max);
    } else {
      var w := DecodeFirst(rest).value.1;
      FirstDecodes(rest);
      if cur != [] && |cur| + w > max {
        GrowSound(rest, [], max);
        assert [] + rest == rest;
        SplitsIntoMore(cur, rest, Grow(rest, [], max).value, max);
      } else {
        Decode16Append(cur, rest[..w]);
        assert (cur + rest[..w]) + rest[w..] == cur + rest;
        GrowSound(rest[w..], cur + rest[..w], max);
      }
    }
  }

  lemma SplitUnitsSound(us: units, max: nat)
    requires max >= 2 && Decode16(us).Some?
    ensures SplitUnits(us, max).Some?
    ensures var parts := SplitUnits(us, max).value;
            && Concat(parts) == us && Sized(parts, max - 1, max) && AllDecode(parts)
            && DecodeUnitParts(parts) == Decode16(us)
  {
    if us != [] {
      GrowSound(us, [], max);
      assert [] + us == us;
    }
    UnitPartsDecode(SplitUnits(us, max).value);
  }

  lemma SplitUnitsCount(us: units, max: nat)
    requires max >= 2 && Decode16(us).Some? && us != []
    ensures SplitUnits(us, max).Some?
    ensures var n := |SplitUnits(us, max).value|; 0 < n && (n - 1) * (max - 1) < |us|
  {
    SplitUnitsSound(us, max);
    PartCount(SplitUnits(us, max).value, max - 1, max);
  }

  function PutParts(parts: seq<units>): (ss: seq<bytes>)
    ensures |ss| == |parts| && forall i | 0 <= i < |ss| :: ss[i] == PutUnits(parts[i])
  {
    if parts == [] then [] else [PutUnits(parts[0])] + PutParts(parts[1..])
  }

  lemma {:induction false} SliceUnits(data: bytes, a: nat, b: nat)
    requires |data| % 2 == 0 && a <= b && 2 * b <= |data|
    ensures PutUnits(GetUnits(data)[a..b]) == data[2 * a..2 * b]
    decreases b - a
  {
    if a >= b {
    } else {
      SliceUnits(data, a + 1, b);
      UnitAt(data, a);
      Put16Unique(data[2 * a..2 * a + 2]);
      var us := GetUnits(data)[a..b];
      assert us[0] == GetUnits(data)[a] && us[1..] == GetUnits(data)[a + 1..b];
      assert data[2 * a..2 * b] == data[2 * a..2 * a + 2] + data[2 * (a + 1)..2 * b];
    }
  }

  /** splitUTF16 on the octets. */
  function SplitUtf16(data: bytes, max: nat): (parts: Option<seq<bytes>>)
  {
    if |data| % 2 != 0 then None
    else
      var parts := SplitUnits(GetUnits(data), max);
      if parts.Some? then Some(PutParts(parts.value)) else None
  }

  lemma {:induction false} ConcatPutParts(parts: seq<units>)
    ensures Concat(PutParts(parts)) == PutUnits(Concat(parts))
  {
    if parts == [] {
    } else {
      ConcatPutParts(parts[1..]);
      PutUnitsAppend(parts[0], Concat(parts[1..]));
      assert PutParts(parts)[1..] == PutParts(parts[1..]);
    }
  }

  /** One character from unit i on: how many units it takes, 0 when unpaired. */
  method WidthAt(data: bytes, i: nat) returns (width: nat)
    requires |data| % 2 == 0 && 2 * i < |data|
    ensures var c := DecodeFirst(GetUnits(data)[i..]);
            if c.None? then width == 0 else width == c.value.1
  {
    ghost var us := GetUnits(data);
    UnitAt(data, i);
    var u := U16(data[2 * i..2 * i + 2]);
    width := 1;
    if 0xd800 <= u <= 0xdbff {
      if 2 * i + 4 > |data| {
        return 0;
      }
      UnitAt(data, i + 1);
      var low := U16(data[2 * i + 2..2 * i + 4]);
      if low < 0xdc00 || low > 0xdfff {
        return 0;
      }
      width := 2;
    } else if 0xdc00 <= u <= 0xdfff {
      return 0;
    }
  }

  lemma GrowCloses(us: units, parts: seq<units>, start: nat, off: nat, max: nat)
    requires start < off < |us| && DecodeFirst(us[off..]).Some? && off - start + DecodeFirst(us[off..]).value.1 > max
    ensures Prefixed(parts, Grow(us[off..], us[start..off], max)) ==
            Prefixed(parts + [us[start..off]], Grow(us[off..], us[off..off], max))
  {
    assert us[off..off] == [];
    PrefixedMore(parts, [us[start..off]], Grow(us[off..], [], max));
  }

  lemma GrowTakes(us: units, start: nat, off: nat, max: nat)
    requires start <= off < |us| && DecodeFirst(us[off..]).Some?
    requires var w := DecodeFirst(us[off..]).value.1; w <= max && (start < off ==> off - start + w <= max)
    ensures var w := DecodeFirst(us[off..]).value.1;
            Grow(us[off..], us[start..off], max) == Grow(us[off + w..], us[start..off + w], max)
  {
    var w := DecodeFirst(us[off..]).value.1;
    assert us[off..][w..] == us[off + w..];
    assert us[start..off] + us[off..][..w] == us[start..off + w];
  }

  lemma PutPartsSnoc(parts: seq<units>, p: units)
    ensures PutParts(parts + [p]) == PutParts(parts) + [PutUnits(p)]
  {
  }

  /** The split so far: `done` are the closed parts, start..off the open one. */
  ghost predicate Splitting(data: bytes, max: nat, done: seq<units>, parts: seq<bytes>, start: nat, off: nat)
    requires |data| % 2 == 0
  {
    var us := GetUnits(data);
    && start <= off <= |us| && parts == PutParts(done)
    && SplitUnits(us, max) == Prefixed(done, Grow(us[off..], us[start..off], max))
  }

  lemma CloseOne(data: bytes, max: nat, done: seq<units>, parts: seq<bytes>, start: nat, off: nat)
    requires |data| % 2 == 0 && Splitting(data, max, done, parts, start, off)
    requires var us := GetUnits(data);
             start < off < |us| && DecodeFirst(us[off..]).Some? && off - start + DecodeFirst(us[off..]).value.1 > max
    ensures 2 * off <= |data|
    ensures Splitting(data, max, done + [GetUnits(data)[start..off]], parts + [data[2 * start..2 * off]], off, off)
  {
    var us := GetUnits(data);
    GrowCloses(us, done, start, off, max);
    SliceUnits(data, start, off);
    PutPartsSnoc(done, us[start..off]);
  }

  lemma TakeOne(data: bytes, max: nat, done: seq<units>, parts: seq<bytes>, start: nat, off: nat)
    requires |data| % 2 == 0 && Splitting(data, max, done, parts, start, off)
    requires off < |GetUnits(data)| && DecodeFirst(GetUnits(data)[off..]).Some?
    requires var w := DecodeFirst(GetUnits(data)[off..]).value.1; w <= max && (start < off ==> off - start + w <= max)
    ensures Splitting(data, max, done, parts, start, off + DecodeFirst(GetUnits(data)[off..]).value.1)
  {
    GrowTakes(GetUnits(data), start, off, max);
  }

  lemma CloseLast(data: bytes, max: nat, done: seq<units>, parts: seq<bytes>, start: nat)
    requires |data| % 2 == 0 && data != [] && 2 * start <= |data|
    requires Splitting(data, max, done, parts, start, |data| / 2)
    ensures SplitUtf16(data, max) == Some(parts + [data[2 * start..]])
  {
    var us := GetUnits(data);
    SliceUnits(data, start, |us|);
    PutPartsSnoc(done, us[start..]);
    assert us[|us|..] == [] && us[start..|us|] == us[start..] && data[2 * start..] == data[2 * start..2 * |us|];
    assert SplitUnits(us, max) == Some(done + [us[start..]]);
  }

  method SplitUTF16(data: bytes, max: nat) returns (r: Result<seq<bytes>>)
    ensures r == if SplitUtf16(data, max).Some? then Ok(SplitUtf16(data, max).value) else Err(Rejected)
  {
    if |data| == 0 {
      return Ok([]);
    }
    if |data| % 2 != 0 {
      return Err(Rejected);
    }
    var parts: seq<bytes> := [];
    var start, off := 0, 0;
    ghost var us := GetUnits(data);
    ghost var done: seq<units> := [];
    assert us[0..] == us && us[0..0] == [];
    PrefixedNil(Grow(us, [], max));
    while 2 * off < |data|
      invariant 0 <= start <= off <= |us| && Splitting(data, max, done, parts, start, off)
      decreases |us| - off
    {
      var width := WidthAt(data, off);
      if width == 0 {
        return Err(Rejected);
      }
      if off > start && off - start + width > max {
        CloseOne(data, max, done, parts, start, off);
        parts := parts + [data[2 * start..2 * off]];
        done := done + [us[start..off]];
        start := off;
      }
      if width > max {
        return Err(Rejected);
      }
      TakeOne(data, max, done, parts, start, off);
      off := off + width;
    }
    CloseLast(data, max, done, parts, start);
    r := Ok(parts + [data[2 * start..]]);
  }
}
