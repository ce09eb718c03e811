/** Extraction of whole PDUs from a TCP byte stream (codec/framer.go), proved
    against a one-shot splitter of the whole stream. */
module Framing {
  import opened Bytes

  const HEADER_SIZE := 16
  const DEFAULT_MAX_PDU_SIZE := 0x10_0000

  /** What the frame callback says about one frame: None accepts it; a fatal
      error poisons the stream; any other error only stops the current call. */
  type Emit = bytes -> Option<Error>

  /** How splitting a stream ends: with bytes of an incomplete PDU, with a fatal
      error, or stopped at a frame the callback refused without a fatal error. */
  datatype Tail = Rest(pending: bytes) | Dead(error: Error) | Soft(error: Error)

  datatype Outcome = Outcome(frames: seq<bytes>, tail: Tail)

  /** The declared length of the PDU that starts s. */
  function Declared(s: bytes): (n: uint32)
    requires |s| >= 4
  {
    U32(s[..4])
  }

  function LengthFault(n: uint32, max: uint32): (r: Option<Error>)
  {
    if n < HEADER_SIZE then Some(Fatal(InvalidCommandLength, n))
    else if n > max then Some(Fatal(PDUTooLarge, n))
    else None
  }

  /** The reference splitter: the whole stream at once. */
  function Split(emit: Emit, max: uint32, s: bytes): (r: Outcome)
    ensures r.tail.Soft? ==> r.frames != []
    decreases |s|
  {
    if |s| < 4 then Outcome([], Rest(s))
    else
      var n := Declared(s);
      var fault := LengthFault(n, max);
      if fault.Some? then Outcome([], Dead(fault.value))
      else if |s| < n then Outcome([], Rest(s))
      else
        match emit(s[..n])
        case Some(e) => Outcome([s[..n]], if e.Fatal? then Dead(e) else Soft(e))
        case None => Prepend([s[..n]], Split(emit, max, s[n..]))
  }

  function Prepend(frames: seq<bytes>, r: Outcome): (q: Outcome)
  {
    Outcome(frames + r.frames, r.tail)
  }

  lemma PrependAssoc(xs: seq<bytes>, ys: seq<bytes>, r: Outcome)
    ensures Prepend(xs, Prepend(ys, r)) == Prepend(xs + ys, r)
  {
    assert xs + (ys + r.frames) == xs + ys + r.frames;
  }

  /** Splitting is incremental: what follows an unfinished prefix is split
      together with that prefix's leftover, and a stopped stream stays stopped. */
  lemma {:induction false} SplitAppend(emit: Emit, max: uint32, a: bytes, b: bytes)
    ensures var sa := Split(emit, max, a);
            Split(emit, max, a + b) ==
            match sa.tail
            case Rest(p) => Prepend(sa.frames, Split(emit, max, p + b))
            case _ => sa
    decreases |a|
  {
    if |a| < 4 || LengthFault(Declared(a), max).Some? || |a| < Declared(a) {
      assert |a| >= 4 ==> (a + b)[..4] == a[..4];
      assert [] + Split(emit, max, a + b).frames == Split(emit, max, a + b).frames;
    } else {
      SplitAppendWhole(emit, max, a, b, Declared(a));
    }
  }

  lemma {:induction false} SplitAppendWhole(emit: Emit, max: uint32, a: bytes, b: bytes, n: uint32)
    requires |a| >= 4 && n == Declared(a) && LengthFault(n, max).None? && |a| >= n
    ensures var sa := Split(emit, max, a);
            Split(emit, max, a + b) ==
            match sa.tail
            case Rest(p) => Prepend(sa.frames, Split(emit, max, p + b))
            case _ => sa
    decreases |a|, 0
  {
    assert (a + b)[..4] == a[..4] && (a + b)[..n] == a[..n] && (a + b)[n..] == a[n..] + b;
    if emit(a[..n]) == None {
      SplitAppend(emit, max, a[n..], b);
      var rest := Split(emit, max, a[n..]);
      if rest.tail.Rest? {
        PrependAssoc([a[..n]], rest.frames, Split(emit, max, rest.tail.pending + b));
      }
    }
  }

  /** The leftover of a split is itself incomplete. */
  lemma {:induction false} LeftoverIsIncomplete(emit: Emit, max: uint32, s: bytes)
    ensures var r := Split(emit, max, s);
            r.tail.Rest? ==> Split(emit, max, r.tail.pending) == Outcome([], r.tail)
    decreases |s|
  {
    if |s| < 4 || LengthFault(Declared(s), max).Some? || |s| < Declared(s) {
    } else {
      LeftoverIsIncomplete(emit, max, s[Declared(s)..]);
    }
  }

  /** The stream state between calls: a live buffer, or a permanent failure. */
  datatype Stream = Live(pending: bytes) | Poisoned(error: Error)

  datatype FeedResult = FeedResult(stream: Stream, frames: seq<bytes>, error: Option<Error>)

  /** The stream state and error that a split amounts to; a soft stop leaves kept
      in the buffer. */
  function Settled(w: Outcome, kept: bytes): (r: FeedResult)
  {
    match w.tail
    case Rest(p) => FeedResult(Live(p), w.frames, None)
    case Dead(e) => FeedResult(Poisoned(e), w.frames, Some(e))
    case Soft(e) => FeedResult(Live(kept), w.frames, Some(e))
  }

  /** What one Feed call does, said in terms of the reference splitter. */
  function FeedSpec(emit: Emit, max: uint32, st: Stream, data: bytes): (r: FeedResult)
  {
    if st.Poisoned? then FeedResult(st, [], Some(st.error))
    else if data == [] then FeedResult(st, [], None)
    else
      var w := Split(emit, max, st.pending + data);
      // A refused frame that came out of the buffer is still in the buffer.
      Settled(w, if st.pending != [] && |w.frames| == 1 then w.frames[0] else [])
  }

  /** The last turn of a Feed call decides what the call leaves behind. */
  lemma LastTurn(emit: Emit, max: uint32, pending: bytes, chunk: bytes, out: seq<bytes>, last: Outcome, kept: bytes)
    requires chunk != []
    requires Split(emit, max, pending + chunk) == Prepend(out, last)
    requires last.tail.Soft? ==> last.frames != []
    requires out == [] && pending != [] ==>
             |last.frames| <= 1 && kept == if last.frames == [] then [] else last.frames[0]
    requires out != [] || pending == [] ==> kept == []
    ensures FeedSpec(emit, max, Live(pending), chunk) == Settled(last, kept).(frames := out + last.frames)
  {
  }

  /** A whole connection: all the calls in order, also those after one that reported an
      error; the error of the whole is the first one reported. */
  function FeedAll(emit: Emit, max: uint32, st: Stream, chunks: seq<bytes>): (r: FeedResult)
    decreases |chunks|
  {
    if chunks == [] then FeedResult(st, [], None)
    else
      var first := FeedSpec(emit, max, st, chunks[0]);
      var rest := FeedAll(emit, max, first.stream, chunks[1..]);
      FeedResult(rest.stream, first.frames + rest.frames, if first.error.Some? then first.error else rest.error)
  }

  /** A complete PDU of an admissible length. */
  predicate WholeFrame(f: bytes, max: uint32)
  {
    |f| >= 4 && |f| == Declared(f) && LengthFault(Declared(f), max).None?
  }

  /** The callback either accepts a PDU or fails fatally. */
  ghost predicate AcceptOrFatal(emit: Emit, max: uint32)
  {
    forall f :: WholeFrame(f, max) && emit(f).Some? ==> emit(f).value.Fatal?
  }

  lemma {:induction false} NoSoftTail(emit: Emit, max: uint32, s: bytes)
    requires AcceptOrFatal(emit, max)
    ensures !Split(emit, max, s).tail.Soft?
    decreases |s|
  {
    if |s| < 4 || LengthFault(Declared(s), max).Some? || |s| < Declared(s) {
    } else {
      var f := s[..Declared(s)];
      assert f[..4] == s[..4] && WholeFrame(f, max);
      NoSoftTail(emit, max, s[Declared(s)..]);
    }
  }

  /** After a fatal error nothing is ever emitted again and the error sticks. */
  lemma {:induction false} PoisonedStaysSilent(emit: Emit, max: uint32, e: Error, chunks: seq<bytes>)
    ensures var r := FeedAll(emit, max, Poisoned(e), chunks);
            r.stream == Poisoned(e) && r.frames == [] && (chunks != [] ==> r.error == Some(e))
    decreases |chunks|
  {
    if chunks == [] {
    } else {
      PoisonedStaysSilent(emit, max, e, chunks[1..]);
    }
  }

  /** From any buffered prefix, every way of cutting the rest of the stream into
      Feed calls gives what the one-shot split of prefix and rest gives. */
  lemma {:induction false} FragmentationFrom(emit: Emit, max: uint32, pending: bytes, chunks: seq<bytes>)
    requires AcceptOrFatal(emit, max)
    requires Split(emit, max, pending) == Outcome([], Rest(pending))
    ensures FeedAll(emit, max, Live(pending), chunks) == Settled(Split(emit, max, pending + Concat(chunks)), [])
    decreases |chunks|
  {
    if chunks == [] {
      assert pending + Concat(chunks) == pending;
    } else {
      var c, rest := chunks[0], chunks[1..];
      assert pending + Concat(chunks) == (pending + c) + Concat(rest);
      SplitAppend(emit, max, pending + c, Concat(rest));
      NoSoftTail(emit, max, pending + c);
      LeftoverIsIncomplete(emit, max, pending + c);
      assert c == [] ==> pending + c == pending;
      var first := FeedSpec(emit, max, Live(pending), c);
      match first.stream {
        case Live(p) => FragmentationFrom(emit, max, p, rest);
        case Poisoned(e) => PoisonedStaysSilent(emit, max, e, rest);
          assert first.frames + [] == first.frames;
      }
    }
  }

  /** The calls agree with the one-shot split of the whole stream. */
  predicate AsOneShot(emit: Emit, max: uint32, chunks: seq<bytes>)
  {
    FeedAll(emit, max, Live([]), chunks) == Settled(Split(emit, max, Concat(chunks)), [])
  }

  /** Fragmentation independence: frames, leftover, fatal error and stream state
      depend only on the bytes, never on where TCP cut them. */
  lemma FragmentationIndependence(emit: Emit, max: uint32, chunks: seq<bytes>)
    requires AcceptOrFatal(emit, max)
    ensures AsOneShot(emit, max, chunks)
  {
    FragmentationFrom(emit, max, [], chunks);
    assert [] + Concat(chunks) == Concat(chunks);
  }

  lemma ConcatThree(a: bytes, b: bytes, c: bytes)
    ensures Concat([a, b, c]) == a + b + c
  {
    assert [a, b, c][1..] == [b, c] && [b, c][1..] == [c] && [c][1..] == [];
    assert Concat([c]) == c;
    assert Concat([b, c]) == b + c;
  }

  lemma FeedOne(emit: Emit, max: uint32, st: Stream, a: bytes)
    ensures FeedAll(emit, max, st, [a]).frames == FeedSpec(emit, max, st, a).frames
  {
    assert [a][1..] == [];
  }

  lemma FeedFirst(emit: Emit, max: uint32, st: Stream, a: bytes, rest: seq<bytes>)
    ensures var r1 := FeedSpec(emit, max, st, a);
            FeedAll(emit, max, st, [a] + rest).frames == r1.frames + FeedAll(emit, max, r1.stream, rest).frames
  {
    assert ([a] + rest)[1..] == rest;
  }

  /** Three calls in a row, unrolled. */
  lemma FeedThree(emit: Emit, max: uint32, st: Stream, a: bytes, b: bytes, c: bytes)
    ensures var r1 := FeedSpec(emit, max, st, a);
            var r2 := FeedSpec(emit, max, r1.stream, b);
            FeedAll(emit, max, st, [a, b, c]).frames == r1.frames + r2.frames + FeedSpec(emit, max, r2.stream, c).frames
  {
    var r1 := FeedSpec(emit, max, st, a);
    var r2 := FeedSpec(emit, max, r1.stream, b);
    assert [a, b, c] == [a] + [b, c] && [b, c] == [b] + [c];
    FeedFirst(emit, max, st, a, [b, c]);
    FeedFirst(emit, max, r1.stream, b, [c]);
    FeedOne(emit, max, r2.stream, c);
  }

  /** A frame refused without a fatal error stays in the buffer when it arrived in
      two pieces, and is then emitted a second time. */
  lemma SoftRefusalReplays(emit: Emit, max: uint32, f: bytes)
    requires WholeFrame(f, max) && emit(f).Some? && !emit(f).value.Fatal?
    ensures FeedAll(emit, max, Live([]), [f[..8], f[8..], [0]]).frames == [f, f]
    ensures Split(emit, max, Concat([f[..8], f[8..], [0]])).frames == [f]
  {
    FeedThree(emit, max, Live([]), f[..8], f[8..], [0]);
    ConcatThree(f[..8], f[8..], [0]);
    assert f[..8][..4] == f[..4] && [] + f[..8] == f[..8];
    assert f[..8] + f[8..] == f && f[..|f|] == f;
    assert (f + [0])[..4] == f[..4] && (f + [0])[..|f|] == f;
    assert FeedSpec(emit, max, Live([]), f[..8]) == FeedResult(Live(f[..8]), [], None);
    assert FeedSpec(emit, max, Live(f[..8]), f[8..]) == FeedResult(Live(f), [f], emit(f));
  }

  /** Fragmentation independence, exactly: every way of cutting every stream into
      Feed calls agrees with the one-shot split of the whole stream if and only if
      the callback never refuses a PDU with a non-fatal error. */
  lemma FragmentationIndependenceIff(emit: Emit, max: uint32)
    ensures AcceptOrFatal(emit, max) <==> forall chunks :: AsOneShot(emit, max, chunks)
  {
    if AcceptOrFatal(emit, max) {
      forall chunks ensures AsOneShot(emit, max, chunks) {
        FragmentationIndependence(emit, max, chunks);
      }
    } else {
      var f :| WholeFrame(f, max) && emit(f).Some? && !emit(f).value.Fatal?;
      SoftRefusalReplays(emit, max, f);
      assert !AsOneShot(emit, max, [f[..8], f[8..], [0]]);
    }
  }

  /** What the end of the stream means for a stream state. */
  function FinalizeSpec(st: Stream): (err: Option<Error>)
  {
    match st
    case Poisoned(e) => Some(e)
    case Live(p) =>
      if p == [] then None else Some(Fatal(TruncatedFrame, if |p| >= 4 then Declared(p) else 0))
  }

  /** The stateful framer: a reassembly buffer, the length it waits for, and a
      sticky failure. */
  class Framer {
    const maxPDUSize: uint32
    var pending: bytes
    var expected: uint32
    var failed: Option<Error>

    ghost predicate Valid()
      reads this
    {
      && HEADER_SIZE <= maxPDUSize
      && (failed.Some? ==> pending == [] && expected == 0 && failed.value.Fatal?)
      && (expected == 0 <==> |pending| < 4)
      && (expected != 0 ==>
          expected == Declared(pending) && LengthFault(expected, maxPDUSize).None? && |pending| <= expected)
    }

    ghost function State(): (st: Stream)
      reads this
    {
      if failed.Some? then Poisoned(failed.value) else Live(pending)
    }

    constructor (max: uint32)
      requires max == 0 || max >= HEADER_SIZE
      ensures Valid() && State() == Live([])
      ensures maxPDUSize == if max == 0 then 1_048_576 else max
    {
      maxPDUSize := if max == 0 then DEFAULT_MAX_PDU_SIZE else max;
      pending := [];
      expected := 0;
      failed := None;
    }

    /** A fatal error of the framer's own, with the length the stream declared. */
    method Fail(kind: FatalKind, declared: uint32) returns (err: Error)
      modifies this
      ensures err == Fatal(kind, declared)
      ensures pending == [] && expected == 0 && failed == Some(err)
    {
      err := Fatal(kind, declared);
      failed := Some(err);
      pending := [];
      expected := 0;
    }

    method ValidateLength(length: uint32) returns (err: Option<Error>)
      modifies this
      ensures err == LengthFault(length, maxPDUSize)
      ensures err.Some? ==> pending == [] && expected == 0 && failed == err
      ensures err.None? ==> unchanged(this)
    {
      if length < HEADER_SIZE {
        var e := Fail(InvalidCommandLength, length);
        return Some(e);
      }
      if length > maxPDUSize {
        var e := Fail(PDUTooLarge, length);
        return Some(e);
      }
      err := None;
    }

    /** Hand one frame to the callback; a fatal answer poisons the framer. */
    method EmitFrame(frame: bytes, emit: Emit) returns (err: Option<Error>)
      modifies this
      ensures err == emit(frame)
      ensures err.Some? && err.value.Fatal? ==> pending == [] && expected == 0 && failed == err
      ensures !(err.Some? && err.value.Fatal?) ==> unchanged(this)
    {
      err := emit(frame);
      if err.Some? && err.value.Fatal? {
        failed := err;
        pending := [];
        expected := 0;
      }
    }

    /** Move bytes into the buffer until it holds target octets or data runs out. */
    method TopUp(data: bytes, target: nat) returns (rest: bytes)
      modifies this`pending
      ensures pending + rest == old(pending) + data
      ensures old(pending) <= pending
      ensures |pending| == if |old(pending)| >= target then |old(pending)|
                           else if |old(pending)| + |data| >= target then target
                           else |old(pending)| + |data|
    {
      rest := data;
      var need := target - |pending|;
      if need > 0 {
        var take := if need > |data| then |data| else need;
        pending := pending + data[..take];
        rest := data[take..];
      }
    }

    /** One turn of the Feed loop with a non-empty buffer: complete the length
        field, then the PDU, then emit it. stop means Feed returns err. */
    method FeedBuffered(data: bytes, emit: Emit) returns (rest: bytes, out: seq<bytes>, stop: bool, err: Option<Error>)
      requires Valid() && failed.None? && pending != []
      modifies this
      ensures Valid()
      ensures |out| <= 1
      ensures !stop ==> State() == Live([]) && err == None && |out| == 1 && |rest| < |old(pending)| + |data|
      ensures !stop ==> Split(emit, maxPDUSize, old(pending) + data) == Prepend(out, Split(emit, maxPDUSize, rest))
      ensures stop ==> FeedResult(State(), out, err) ==
                       Settled(Split(emit, maxPDUSize, old(pending) + data), if out == [] then [] else out[0])
    {
      rest, out, stop, err := data, [], true, None;
      ghost var s := pending + data;
      if expected == 0 {
        rest := TopUp(rest, 4);
        if |pending| < 4 {
          assert s == pending;
          return;
        }
        assert s[..4] == pending[..4];
        var length := Declared(pending);
        err := ValidateLength(length);
        if err.Some? {
          return;
        }
        expected := length;
      }
      rest := TopUp(rest, expected);
      assert s[..4] == pending[..4];
      if |pending| < expected {
        assert s == pending;
        return;
      }
      var frame := pending[..expected];
      assert frame == pending == s[..expected] && s[expected..] == rest;
      err := EmitFrame(frame, emit);
      out := [frame];
      if err.Some? {
        return;
      }
      pending, expected, stop := [], 0, false;
    }

    /** One turn of the Feed loop with an empty buffer: a PDU that lies wholly in
        data is emitted from there; an incomplete one is buffered. */
    method FeedDirect(data: bytes, emit: Emit) returns (rest: bytes, out: seq<bytes>, stop: bool, err: Option<Error>)
      requires Valid() && failed.None? && pending == [] && data != []
      modifies this
      ensures Valid()
      ensures !stop ==> State() == Live([]) && err == None && |out| == 1 && |rest| < |data|
      ensures !stop ==> Split(emit, maxPDUSize, data) == Prepend(out, Split(emit, maxPDUSize, rest))
      ensures stop ==> FeedResult(State(), out, err) == Settled(Split(emit, maxPDUSize, data), [])
    {
      rest, out, stop, err := data, [], true, None;
      if |data| < 4 {
        pending := data;
        return;
      }
      var n := Declared(data);
      err := ValidateLength(n);
      if err.Some? {
        return;
      }
      if |data| < n {
        expected, pending := n, data;
        return;
      }
      err := EmitFrame(data[..n], emit);
      out := [data[..n]];
      if err.Some? {
        return;
      }
      rest, stop := data[n..], false;
    }

    /** One turn of the Feed loop. */
    method FeedTurn(data: bytes, emit: Emit) returns (rest: bytes, out: seq<bytes>, stop: bool, err: Option<Error>)
      requires Valid() && failed.None? && data != []
      modifies this
      ensures Valid()
      ensures old(pending) != [] ==> |out| <= 1
      ensures !stop ==> State() == Live([]) && err == None && |out| == 1 && |rest| < |old(pending)| + |data|
      ensures !stop ==> Split(emit, maxPDUSize, old(pending) + data) == Prepend(out, Split(emit, maxPDUSize, rest))
      ensures stop ==> FeedResult(State(), out, err) ==
                       Settled(Split(emit, maxPDUSize, old(pending) + data),
                               if old(pending) != [] && out != [] then out[0] else [])
    {
      if |pending| > 0 {
        rest, out, stop, err := FeedBuffered(data, emit);
      } else {
        assert pending + data == data;
        rest, out, stop, err := FeedDirect(data, emit);
      }
    }

    /** Consume bytes in stream order, emitting every PDU they complete. */
    method Feed(chunk: bytes, emit: Emit) returns (err: Option<Error>, out: seq<bytes>)
      requires Valid()
      modifies this
      ensures Valid()
      ensures FeedResult(State(), out, err) == FeedSpec(emit, maxPDUSize, old(State()), chunk)
    {
      err, out := failed, [];
      if failed.Some? {
        return;
      }
      var data := chunk;
      ghost var whole := Split(emit, maxPDUSize, pending + chunk);
      assert whole == Prepend([], whole);
      while |data| > 0
        invariant Valid() && failed.None? && err.None?
        invariant chunk == [] ==> data == [] && out == []
        invariant out == [] ==> pending == old(pending) && data == chunk
        invariant out != [] ==> pending == []
        invariant whole == Prepend(out, Split(emit, maxPDUSize, pending + data))
        decreases |pending| + |data|
      {
        ghost var before := Split(emit, maxPDUSize, pending + data);
        ghost var kept := pending != [];
        var frames, stop;
        data, frames, stop, err := FeedTurn(data, emit);
        if stop {
          LastTurn(emit, maxPDUSize, old(pending), chunk, out, before, if kept && frames != [] then frames[0] else []);
          out := out + frames;
          return;
        }
        assert pending + data == data;
        PrependAssoc(out, frames, Split(emit, maxPDUSize, data));
        out := out + frames;
      }
      if chunk != [] {
        assert pending + data == [] && out + [] == out;
        LastTurn(emit, maxPDUSize, old(pending), chunk, out, Outcome([], Rest([])), []);
      }
    }

    /** End of stream: a partial PDU is a fatal truncation. */
    method Finalize() returns (err: Option<Error>)
      requires Valid()
      modifies this
      ensures Valid()
      ensures err == FinalizeSpec(old(State()))
      ensures err.Some? <==> old(failed).Some? || old(pending) != []
      ensures old(failed).None? && old(pending) != [] ==>
              err == Some(Fatal(TruncatedFrame, if |old(pending)| < 4 then 0 else U32(old(pending)[..4])))
      ensures State() == if err.Some? then Poisoned(err.value) else old(State())
    {
      if failed.Some? {
        return failed;
      }
      if |pending| == 0 {
        return None;
      }
      var declared: uint32 := 0;
      if |pending| >= 4 {
        declared := Declared(pending);
      }
      var e := Fail(TruncatedFrame, declared);
      err := Some(e);
    }
  }
}
