/** What a split stream looks like, without saying how it is split: the frames are the
    consecutive PDUs of the stream, and what follows them is why there are no more. */
module StreamShape {
  import opened Bytes
  import opened Framing

  /** A PDU whose first four octets are its own length, of 16 to max octets. */
  predicate IsPdu(f: bytes, max: uint32)
  {
    |f| >= 16 && |f| == U32(f[..4]) && |f| <= max
  }

  predicate AllPdus(fs: seq<bytes>, max: uint32) { forall i | 0 <= i < |fs| :: IsPdu(fs[i], max) }

  predicate AllTaken(emit: Emit, fs: seq<bytes>) { forall i | 0 <= i < |fs| :: emit(fs[i]) == None }

  /** The start of a PDU that is not all there yet. */
  predicate IsPartial(p: bytes, max: uint32)
  {
    |p| < 4 || (16 <= U32(p[..4]) <= max && |p| < U32(p[..4]))
  }

  /** Octets that cannot start a PDU, and the error they are. */
  predicate IsFault(p: bytes, max: uint32, e: Error)
  {
    && |p| >= 4
    && (|| (U32(p[..4]) < 16 && e == Fatal(InvalidCommandLength, U32(p[..4])))
        || (16 <= U32(p[..4]) && U32(p[..4]) > max && e == Fatal(PDUTooLarge, U32(p[..4]))))
  }

  /** The last frame is the one that the callback refused with e. */
  predicate IsRefused(emit: Emit, fs: seq<bytes>, e: Error)
  {
    fs != [] && AllTaken(emit, fs[..|fs| - 1]) && emit(fs[|fs| - 1]) == Some(e)
  }

  /** The stream is the frames of r, in order, followed by `rest`, and r says how it ends. */
  predicate Shapes(emit: Emit, max: uint32, s: bytes, r: Outcome, rest: bytes)
  {
    && AllPdus(r.frames, max) && s == Concat(r.frames) + rest
    && match r.tail
       case Rest(p) => AllTaken(emit, r.frames) && p == rest && IsPartial(rest, max)
       case Dead(e) => e.Fatal? && ((AllTaken(emit, r.frames) && IsFault(rest, max, e)) || IsRefused(emit, r.frames, e))
       case Soft(e) => !e.Fatal? && IsRefused(emit, r.frames, e)
  }

  lemma ShapesCons(emit: Emit, max: uint32, f: bytes, s: bytes, r: Outcome, rest: bytes)
    requires IsPdu(f, max) && emit(f) == None && Shapes(emit, max, s, r, rest)
    ensures Shapes(emit, max, f + s, Prepend([f], r), rest)
  {
    var fs := [f] + r.frames;
    ConcatCons(f, r.frames);
    assert f + (Concat(r.frames) + rest) == f + Concat(r.frames) + rest;
    if IsRefusedBy(emit, r) {
      assert fs[..|fs| - 1] == [f] + r.frames[..|r.frames| - 1];
    }
  }

  predicate IsRefusedBy(emit: Emit, r: Outcome)
  {
    !r.tail.Rest? && IsRefused(emit, r.frames, r.tail.error)
  }

  lemma WholeIsPdu(s: bytes, max: uint32)
    requires |s| >= 4 && 16 <= U32(s[..4]) <= max && U32(s[..4]) <= |s|
    ensures IsPdu(s[..U32(s[..4])], max)
  {
    var n := U32(s[..4]);
    assert s[..n][..4] == s[..4];
  }

  /** What is left of the stream behind the frames of its split. */
  function Behind(emit: Emit, max: uint32, s: bytes): (rest: bytes)
    decreases |s|
  {
    if |s| < 4 || U32(s[..4]) < 16 || U32(s[..4]) > max || |s| < U32(s[..4]) then s
    else
      var n := U32(s[..4]);
      if emit(s[..n]).Some? then s[n..] else Behind(emit, max, s[n..])
  }

  lemma OneRefused(emit: Emit, max: uint32, f: bytes, rest: bytes)
    requires IsPdu(f, max) && emit(f).Some?
    ensures var e := emit(f).value;
            Shapes(emit, max, f + rest, Outcome([f], if e.Fatal? then Dead(e) else Soft(e)), rest)
  {
    assert Concat([f]) == f by { assert [f][1..] == []; }
    assert [f][..0] == [];
  }

  lemma {:induction false} SplitHasShape(emit: Emit, max: uint32, s: bytes)
    ensures Shapes(emit, max, s, Split(emit, max, s), Behind(emit, max, s))
    decreases |s|
  {
    if |s| < 4 || U32(s[..4]) < 16 || U32(s[..4]) > max || |s| < U32(s[..4]) {
      assert Concat<byte>([]) + s == s;
    } else {
      var n := U32(s[..4]);
      WholeIsPdu(s, max);
      assert s[..n] + s[n..] == s;
      if emit(s[..n]).Some? {
        OneRefused(emit, max, s[..n], s[n..]);
      } else {
        SplitHasShape(emit, max, s[n..]);
        ShapesCons(emit, max, s[..n], s[n..], Split(emit, max, s[n..]), Behind(emit, max, s[n..]));
      }
    }
  }

  lemma ShapesTail(emit: Emit, max: uint32, s: bytes, r: Outcome, rest: bytes)
    requires Shapes(emit, max, s, r, rest) && r.frames != [] && emit(r.frames[0]) == None
    ensures var f := r.frames[0];
            && |f| <= |s| && s[..|f|] == f
            && Shapes(emit, max, s[|f|..], Outcome(r.frames[1..], r.tail), rest)
  {
    var f, fs := r.frames[0], r.frames[1..];
    assert r.frames == [f] + fs;
    ConcatCons(f, fs);
    assert s == f + (Concat(fs) + rest);
    assert s[|f|..] == Concat(fs) + rest;
    if IsRefusedBy(emit, r) {
      assert |r.frames| > 1;
      assert fs[..|fs| - 1] == r.frames[..|r.frames| - 1][1..];
    }
  }

  lemma FirstFrame(max: uint32, s: bytes, f: bytes, t: bytes)
    requires IsPdu(f, max) && s == f + t
    ensures |s| >= 4 && U32(s[..4]) == |f| && s[..|f|] == f && s[|f|..] == t
  {
    assert s[..4] == f[..4];
  }

  lemma NoFrames(emit: Emit, max: uint32, s: bytes, r: Outcome, rest: bytes)
    requires Shapes(emit, max, s, r, rest) && r.frames == []
    ensures Split(emit, max, s) == r
  {
    assert s == rest;
  }

  lemma FirstRefused(emit: Emit, max: uint32, s: bytes, r: Outcome, rest: bytes)
    requires Shapes(emit, max, s, r, rest) && r.frames != [] && emit(r.frames[0]).Some?
    ensures Split(emit, max, s) == r
  {
    var f := r.frames[0];
    assert |r.frames| == 1;
    assert r.frames == [f] + [];
    ConcatCons(f, []);
    FirstFrame(max, s, f, rest);
  }

  lemma {:induction false} ShapeIsSplit(emit: Emit, max: uint32, s: bytes, r: Outcome, rest: bytes)
    requires Shapes(emit, max, s, r, rest)
    ensures Split(emit, max, s) == r
    decreases |r.frames|
  {
    if r.frames == [] {
      NoFrames(emit, max, s, r, rest);
    } else if emit(r.frames[0]).Some? {
      FirstRefused(emit, max, s, r, rest);
    } else {
      var f := r.frames[0];
      var more := Outcome(r.frames[1..], r.tail);
      ShapesTail(emit, max, s, r, rest);
      assert s == f + s[|f|..];
      FirstFrame(max, s, f, s[|f|..]);
      ShapeIsSplit(emit, max, s[|f|..], more, rest);
      assert [f] + r.frames[1..] == r.frames;
    }
  }

  /** The split of a stream is the one way to read it as PDUs: an outcome is that of the
      stream if and only if its frames are the stream's consecutive PDUs of 16 to max
      octets, all of them taken but for a last one that was refused, and what follows is
      the start of a PDU, or four octets that cannot start one, with the error that is. */
  lemma SplitIff(emit: Emit, max: uint32, s: bytes, r: Outcome)
    ensures Split(emit, max, s) == r <==> exists rest :: Shapes(emit, max, s, r, rest)
  {
    SplitHasShape(emit, max, s);
    forall rest | Shapes(emit, max, s, r, rest)
      ensures Split(emit, max, s) == r
    {
      ShapeIsSplit(emit, max, s, r, rest);
    }
  }

  // ----- The end of the stream -----

  /** The stream is whole PDUs, one after the other, and the callback takes them all. */
  ghost predicate WholeStream(emit: Emit, max: uint32, s: bytes)
  {
    exists fs: seq<bytes> :: AllPdus(fs, max) && AllTaken(emit, fs) && Concat(fs) == s
  }

  lemma WholeStreamIff(emit: Emit, max: uint32, s: bytes)
    ensures WholeStream(emit, max, s) <==> Split(emit, max, s).tail == Rest([])
  {
    SplitHasShape(emit, max, s);
    var r := Split(emit, max, s);
    if r.tail == Rest([]) {
      assert Concat(r.frames) + [] == Concat(r.frames);
    }
    if WholeStream(emit, max, s) {
      var fs: seq<bytes> :| AllPdus(fs, max) && AllTaken(emit, fs) && Concat(fs) == s;
      assert s == Concat(fs) + [];
      ShapeIsSplit(emit, max, s, Outcome(fs, Rest([])), []);
    }
  }

  /** For every stream, every cut of it and a callback that accepts or fails fatally: the
      end of the stream is clean if and only if the stream is whole PDUs that were all
      taken. Otherwise the error at the end is the fatal one already reported, or a
      truncated frame with the length that the leftover octets declare, 0 when there are
      fewer than four of them. */
  lemma EndIsCleanIff(emit: Emit, max: uint32, chunks: seq<bytes>)
    requires AcceptOrFatal(emit, max)
    ensures var r := FeedAll(emit, max, Live([]), chunks);
            var end, left := FinalizeSpec(r.stream), Behind(emit, max, Concat(chunks));
            && (end == None <==> WholeStream(emit, max, Concat(chunks)))
            && (r.error.Some? ==> end == r.error && r.error.value.Fatal?)
            && (r.error.None? && end.Some? ==>
                  && left != []
                  && end == Some(Fatal(TruncatedFrame, if |left| < 4 then 0 else U32(left[..4]))))
  {
    FragmentationIndependence(emit, max, chunks);
    NoSoftTail(emit, max, Concat(chunks));
    SplitHasShape(emit, max, Concat(chunks));
    WholeStreamIff(emit, max, Concat(chunks));
  }
}
