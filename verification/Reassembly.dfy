/** Segments and their reassembly (message/message.go). */
module Reassembly {
  import opened Bytes
  import opened Gsm7
  import opened Unicode
  import opened Fields
  import Sorting

  /** data is the logical content (unpacked septets for GSM7), userData the wire form. */
  datatype Segment = Segment(
    reference: uint16,
    total: byte,
    sequence: byte,
    kind: Kind,
    coding: byte,
    units: nat,
    data: bytes,
    udh: bytes,
    userData: bytes,
    optional: seq<Tlv>)

  function SequenceOf(p: Segment): (k: int) { p.sequence }

  function Datas(parts: seq<Segment>): (ds: seq<bytes>)
    ensures |ds| == |parts|
  {
    seq(|parts|, i requires 0 <= i < |parts| => parts[i].data)
  }

  /** Part i agrees with the first one and is in its place. */
  predicate Matches(first: Segment, p: Segment, i: nat)
  {
    && p.reference == first.reference && p.kind == first.kind && p.coding == first.coding
    && p.total == first.total && p.sequence == (i + 1) % 256
  }

  predicate Unrepeated(parts: seq<Segment>)
  {
    forall i, j | 0 <= i < j < |parts| :: parts[i].sequence != parts[j].sequence
  }

  /** The checks on the parts in order of their sequence numbers. */
  predicate Accepted(parts: seq<Segment>)
  {
    && parts != [] && Unrepeated(parts)
    && parts[0].total != 0 && parts[0].total == |parts|
    && forall i | 0 <= i < |parts| :: Matches(parts[0], parts[i], i)
  }

  function Reassemble(segments: seq<Segment>): (r: Option<bytes>)
  {
    var parts := Sorting.Sort(SequenceOf, segments);
    if Accepted(parts) then Some(Concat(Datas(parts))) else None
  }

  // ----- The loops -----

  method CheckUnrepeated(parts: seq<Segment>) returns (ok: bool)
    ensures ok <==> Unrepeated(parts)
  {
    var seen: set<byte> := {};
    for i := 0 to |parts|
      invariant Unrepeated(parts[..i])
      invariant forall k: byte :: k in seen <==> exists j | 0 <= j < i :: parts[j].sequence == k
    {
      if parts[i].sequence in seen {
        return false;
      }
      seen := seen + {parts[i].sequence};
    }
    assert parts[..|parts|] == parts;
    ok := true;
  }

  lemma DatasSnoc(parts: seq<Segment>, i: nat)
    requires i < |parts|
    ensures Datas(parts[..i + 1]) == Datas(parts[..i]) + [parts[i].data]
  {
  }

  method ReassembleLoop(segments: seq<Segment>) returns (r: Result<bytes>)
    ensures r == if Reassemble(segments).Some? then Ok(Reassemble(segments).value) else Err(Rejected)
  {
    if segments == [] {
      return Err(Rejected);
    }
    var parts := Sorting.Sort(SequenceOf, segments);
    Sorting.SortSorts(SequenceOf, segments);
    var unrepeated := CheckUnrepeated(parts);
    if !unrepeated {
      return Err(Rejected);
    }
    var first := parts[0];
    if first.total == 0 || first.total != |parts| {
      return Err(Rejected);
    }
    var out: bytes := [];
    for i := 0 to |parts|
      invariant out == Concat(Datas(parts[..i]))
      invariant forall k | 0 <= k < i :: Matches(first, parts[k], k)
    {
      if !Matches(first, parts[i], i) {
        return Err(Rejected);
      }
      DatasSnoc(parts, i);
      ConcatSnoc(Datas(parts[..i]), parts[i].data);
      out := out + parts[i].data;
    }
    assert parts[..|parts|] == parts;
    r := Ok(out);
  }

  // ----- Any arrival order -----

  /** Parts numbered 1, 2, ... as the segment builders number them. */
  predicate Numbered(parts: seq<Segment>)
  {
    |parts| <= 255 && forall i | 0 <= i < |parts| :: parts[i].sequence == i + 1
  }

  lemma NumberedIsSorted(parts: seq<Segment>)
    requires Numbered(parts)
    ensures Sorting.StrictlyAscending(SequenceOf, parts) && Unrepeated(parts)
  {
    forall i, j | 0 <= i < j < |parts|
      ensures SequenceOf(parts[i]) < SequenceOf(parts[j])
    {
      assert parts[i].sequence == i + 1 && parts[j].sequence == j + 1;
    }
  }

  /** Consistent parts, numbered and complete, reassemble to their data in order,
      whatever order they arrive in. */
  lemma ReassembleAnyOrder(parts: seq<Segment>, arrived: seq<Segment>)
    requires parts != [] && Numbered(parts) && multiset(arrived) == multiset(parts)
    requires forall i | 0 <= i < |parts| :: Matches(parts[0], parts[i], i)
    requires parts[0].total == |parts|
    ensures Reassemble(arrived) == Some(Concat(Datas(parts)))
  {
    NumberedIsSorted(parts);
    Sorting.SortRestores(SequenceOf, parts, arrived);
  }

  /** All parts of one message and none missing. */
  predicate CompleteSet(segments: seq<Segment>)
  {
    && segments != [] && segments[0].total == |segments|
    && (forall i | 0 <= i < |segments| ::
          && segments[i].reference == segments[0].reference && segments[i].kind == segments[0].kind
          && segments[i].coding == segments[0].coding && segments[i].total == segments[0].total)
    && Sorting.Covers(SequenceOf, segments, |segments|)
  }

  predicate SameMessage(a: Segment, b: Segment)
  {
    a.reference == b.reference && a.kind == b.kind && a.coding == b.coding && a.total == b.total
  }

  lemma MemberOf(xs: seq<Segment>, ys: seq<Segment>, i: nat) returns (j: nat)
    requires multiset(xs) == multiset(ys) && i < |xs|
    ensures j < |ys| && ys[j] == xs[i]
  {
    assert xs[i] in multiset(ys);
    j :| 0 <= j < |ys| && ys[j] == xs[i];
  }

  lemma CoversMoves(xs: seq<Segment>, ys: seq<Segment>, n: nat)
    requires multiset(xs) == multiset(ys) && Sorting.Covers(SequenceOf, xs, n)
    ensures Sorting.Covers(SequenceOf, ys, n)
  {
    forall v | 1 <= v <= n
      ensures Sorting.HasKey(SequenceOf, ys, v)
    {
      assert Sorting.HasKey(SequenceOf, xs, v);
      var i :| 0 <= i < |xs| && SequenceOf(xs[i]) == v;
      var j := MemberOf(xs, ys, i);
    }
  }

  lemma AcceptedIsComplete(segments: seq<Segment>, parts: seq<Segment>)
    requires multiset(segments) == multiset(parts) && |segments| == |parts| && Accepted(parts)
    ensures CompleteSet(segments)
  {
    forall i | 0 <= i < |segments|
      ensures SameMessage(segments[i], parts[0])
    {
      var j := MemberOf(segments, parts, i);
      assert Matches(parts[0], parts[j], j);
    }
    forall v | 1 <= v <= |parts|
      ensures Sorting.HasKey(SequenceOf, parts, v)
    {
      assert Matches(parts[0], parts[v - 1], v - 1);
      assert SequenceOf(parts[v - 1]) == v;
    }
    CoversMoves(parts, segments, |parts|);
  }

  lemma CompleteIsAccepted(segments: seq<Segment>, parts: seq<Segment>)
    requires multiset(segments) == multiset(parts) && |segments| == |parts| && CompleteSet(segments)
    requires Sorting.Ascending(SequenceOf, parts)
    ensures Accepted(parts)
  {
    CoversMoves(segments, parts, |parts|);
    forall i | 0 <= i < |parts|
      ensures SameMessage(parts[i], segments[0]) && parts[i].sequence == i + 1
    {
      var j := MemberOf(parts, segments, i);
      Sorting.CoveredInOrder(SequenceOf, parts, i);
    }
    NumberedIsSorted(parts);
  }

  /** Reassembly succeeds exactly on all parts of one message with none missing. */
  lemma ReassemblesIffComplete(segments: seq<Segment>)
    ensures Reassemble(segments).Some? <==> CompleteSet(segments)
  {
    var parts := Sorting.Sort(SequenceOf, segments);
    Sorting.SortSorts(SequenceOf, segments);
    if Accepted(parts) { AcceptedIsComplete(segments, parts); }
    if CompleteSet(segments) { CompleteIsAccepted(segments, parts); }
  }

  // ----- Text -----

  function DecodeText(segments: seq<Segment>): (t: Option<text>)
  {
    if segments == [] || Reassemble(segments).None? then None
    else DecodeAs(segments[0].kind, Reassemble(segments).value)
  }

  method DecodeTextSegments(segments: seq<Segment>) returns (r: Result<text>)
    ensures r == if DecodeText(segments).Some? then Ok(DecodeText(segments).value) else Err(Rejected)
  {
    if segments == [] {
      return Err(Rejected);
    }
    var data := ReassembleLoop(segments);
    if data.Err? {
      return Err(Rejected);
    }
    match segments[0].kind
    case GSM7 => r := DecodeGSM7(data.value);
    case UCS2 => r := DecodeUCS2(data.value);
    case UTF16BE => r := DecodeUTF16BE(data.value);
    case Binary => r := Err(Rejected);
  }
}
