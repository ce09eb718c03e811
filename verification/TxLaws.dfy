/** What the transmit loop promises, for every queue history. */
module TxLaws {
  import opened Bytes
  import opened TxLoop

  /** The items of positions i..j-1 that were active, or inactive, when dequeued. */
  function Chosen(h: History, i: nat, j: nat, active: bool): (xs: seq<Item>)
    requires Complete(h) && i <= j <= |h.queue|
    decreases j - i
  {
    if i == j then [] else (if h.active[i] == active then [h.queue[i]] else []) + Chosen(h, i + 1, j, active)
  }

  lemma {:induction false} ChosenSplit(h: History, i: nat, k: nat, j: nat, active: bool)
    requires Complete(h) && i <= k <= j <= |h.queue|
    ensures Chosen(h, i, j, active) == Chosen(h, i, k, active) + Chosen(h, k, j, active)
    decreases k - i
  {
    if i >= k {
    } else {
      ChosenSplit(h, i + 1, k, j, active);
    }
  }

  lemma {:induction false} DrainTakes(h: History, l: Limits, batch: seq<Item>, i: nat)
    requires Complete(h) && batch != [] && i <= |h.queue|
    ensures var d := Drain(h, l, batch, i);
            d.batch == batch + Chosen(h, i, d.next, true) && d.dropped == Chosen(h, i, d.next, false)
    decreases |h.queue| - i
  {
    if Full(l, batch) || i == |h.queue| || !h.ready[i] {
    } else if !h.active[i] {
      DrainTakes(h, l, batch, i + 1);
    } else {
      DrainTakes(h, l, batch + [h.queue[i]], i + 1);
    }
  }

  // ----- First in, first out -----

  function Frames(xs: seq<Item>): (s: bytes)
  {
    if xs == [] then [] else xs[0].frame + Frames(xs[1..])
  }

  lemma {:induction false} FramesAppend(xs: seq<Item>, ys: seq<Item>)
    ensures Frames(xs + ys) == Frames(xs) + Frames(ys)
  {
    if xs == [] {
      assert xs + ys == ys;
    } else {
      assert (xs + ys)[1..] == xs[1..] + ys;
      FramesAppend(xs[1..], ys);
    }
  }

  /** The octets that successful writes put on the wire. */
  function Written(log: seq<Event>): (s: bytes)
  {
    if log == [] then []
    else (if log[0].Write? && log[0].ok then Frames(log[0].batch) else []) + Written(log[1..])
  }

  lemma {:induction false} WrittenAppend(a: seq<Event>, b: seq<Event>)
    ensures Written(a + b) == Written(a) + Written(b)
  {
    if a == [] {
      assert a + b == b;
    } else {
      assert (a + b)[1..] == a[1..] + b;
      WrittenAppend(a[1..], b);
    }
  }

  predicate NoWrite(log: seq<Event>) { forall i | 0 <= i < |log| :: !log[i].Write? }

  lemma {:induction false} NothingWritten(log: seq<Event>)
    requires NoWrite(log)
    ensures Written(log) == []
  {
    if log == [] {
    } else {
      NothingWritten(log[1..]);
    }
  }

  lemma NoWriteAppend(a: seq<Event>, b: seq<Event>)
    requires NoWrite(a) && NoWrite(b)
    ensures NoWrite(a + b)
  {
  }

  lemma SentNoWrite(x: Item)
    ensures NoWrite(Sent(x))
  {
  }

  lemma {:induction false} PutsNoWrite(xs: seq<Item>)
    ensures NoWrite(Puts(xs)) && NoWrite(Commits(xs))
  {
    if xs == [] {
    } else {
      PutsNoWrite(xs[1..]);
      NoWriteAppend([Put(xs[0])], Puts(xs[1..]));
      NoWriteAppend(if NeedsCommit(xs[0]) then [Commit(xs[0])] else [], Commits(xs[1..]));
    }
  }

  lemma {:induction false} AfterNoWrite(xs: seq<Item>)
    ensures NoWrite(SentAll(xs)) && NoWrite(Lost(xs))
  {
    if xs == [] {
    } else {
      AfterNoWrite(xs[1..]);
      SentNoWrite(xs[0]);
      NoWriteAppend(Sent(xs[0]), if TerminatesAfterWrite(xs[0]) then [] else SentAll(xs[1..]));
      var head := (if xs[0].kind.OneWay? then [Dispatched(xs[0], false)] else []) + [Put(xs[0])];
      NoWriteAppend(head, Lost(xs[1..]));
    }
  }

  lemma WriteAlone(batch: seq<Item>, ok: bool)
    ensures Written([Write(batch, ok)]) == if ok then Frames(batch) else []
  {
    assert [Write(batch, ok)][1..] == [];
  }

  /** The log of a turn that writes. */
  function TurnLog(d: Drained, ok: bool): (log: seq<Event>)
  {
    Puts(d.dropped) + Commits(d.batch) + [Write(d.batch, ok)] + (if ok then SentAll(d.batch) else Lost(d.batch))
  }

  lemma TurnWritten(d: Drained, ok: bool)
    ensures Written(TurnLog(d, ok)) == if ok then Frames(d.batch) else []
  {
    PutsNoWrite(d.dropped);
    PutsNoWrite(d.batch);
    AfterNoWrite(d.batch);
    var a, b, c := Puts(d.dropped), Commits(d.batch), if ok then SentAll(d.batch) else Lost(d.batch);
    WrittenAppend(a + b + [Write(d.batch, ok)], c);
    WrittenAppend(a + b, [Write(d.batch, ok)]);
    NothingWritten(a + b);
    NothingWritten(c);
    WriteAlone(d.batch, ok);
  }

  /** How far the queue is on the wire: everything, or up to a batch whose write fails. */
  function WrittenTo(h: History, l: Limits, i: nat): (e: nat)
    requires Complete(h) && i <= |h.queue|
    ensures i <= e <= |h.queue|
    decreases |h.queue| - i
  {
    if i == |h.queue| || (h.active[i] && !h.writes[i]) then i
    else
      var t := Turned(h, l, i);
      if t.stop then t.next else WrittenTo(h, l, t.next)
  }

  lemma TurnIsFifo(h: History, l: Limits, i: nat)
    requires Complete(h) && i < |h.queue|
    ensures var t := Turned(h, l, i);
            Written(t.log) == if h.active[i] && !h.writes[i] then [] else Frames(Chosen(h, i, t.next, true))
  {
    var t := Turned(h, l, i);
    if h.active[i] {
      var d := Drain(h, l, [h.queue[i]], i + 1);
      DrainTakes(h, l, [h.queue[i]], i + 1);
      assert t.log == TurnLog(d, h.writes[i]);
      TurnWritten(d, h.writes[i]);
      assert Chosen(h, i, t.next, true) == d.batch;
    } else {
      assert t.log[1..] == [];
      assert Chosen(h, i, i + 1, true) == [];
    }
  }

  /** For every history, the octets written are the frames of the items that were
      active when dequeued, in queue order, up to where the writing ended. */
  lemma {:induction false} WritesAreFifo(h: History, l: Limits, i: nat)
    requires Complete(h) && i <= |h.queue|
    ensures Written(Run(h, l, i).log) == Frames(Chosen(h, i, WrittenTo(h, l, i), true))
    ensures (forall k | 0 <= k < |h.writes| :: h.writes[k]) ==> WrittenTo(h, l, i) == Run(h, l, i).end
    decreases |h.queue| - i
  {
    if i >= |h.queue| {
    } else {
      var t := Turned(h, l, i);
      TurnIsFifo(h, l, i);
      if !t.stop {
        WritesAreFifo(h, l, t.next);
        WrittenAppend(t.log, Run(h, l, t.next).log);
        ChosenSplit(h, i, t.next, WrittenTo(h, l, t.next), true);
        FramesAppend(Chosen(h, i, t.next, true), Chosen(h, t.next, WrittenTo(h, l, t.next), true));
      }
    }
  }

  // ----- Buffers -----

  function Bufs(xs: seq<Item>): (bs: set<nat>) { set i | 0 <= i < |xs| :: xs[i].buf }

  /** The buffers an event reads. */
  function Reads(e: Event): (bs: set<nat>)
  {
    match e
    case Write(batch, _) => Bufs(batch)
    case Trace(item) => {item.buf}
    case _ => {}
  }

  function Frees(e: Event): (bs: set<nat>) { if e.Put? then {e.item.buf} else {} }

  /** With `freed` already back in the pool, no event reads a freed buffer or frees it
      a second time. */
  predicate Safe(log: seq<Event>, freed: set<nat>)
  {
    log == [] ||
    (Reads(log[0]) !! freed && Frees(log[0]) !! freed && Safe(log[1..], freed + Frees(log[0])))
  }

  function Freed(log: seq<Event>): (bs: set<nat>)
  {
    if log == [] then {} else Frees(log[0]) + Freed(log[1..])
  }

  lemma {:induction false} SafeAppend(a: seq<Event>, b: seq<Event>, freed: set<nat>)
    requires Safe(a, freed) && Safe(b, freed + Freed(a))
    ensures Safe(a + b, freed) && Freed(a + b) == Freed(a) + Freed(b)
  {
    if a == [] {
      assert a + b == b && freed + Freed(a) == freed;
    } else {
      assert (a + b)[1..] == a[1..] + b;
      assert freed + Frees(a[0]) + Freed(a[1..]) == freed + Freed(a);
      SafeAppend(a[1..], b, freed + Frees(a[0]));
    }
  }

  predicate DistinctBufs(xs: seq<Item>)
  {
    forall i, j | 0 <= i < j < |xs| :: xs[i].buf != xs[j].buf
  }

  lemma BufsTail(xs: seq<Item>)
    requires xs != []
    ensures Bufs(xs) == {xs[0].buf} + Bufs(xs[1..])
    ensures DistinctBufs(xs) ==> xs[0].buf !in Bufs(xs[1..]) && DistinctBufs(xs[1..])
  {
    forall i | 0 <= i < |xs|
      ensures xs[i].buf in {xs[0].buf} + Bufs(xs[1..])
    {
      if i > 0 { assert xs[1..][i - 1] == xs[i]; }
    }
  }

  lemma {:induction false} PutsSafe(xs: seq<Item>, freed: set<nat>)
    requires DistinctBufs(xs) && Bufs(xs) !! freed
    ensures Safe(Puts(xs), freed) && Freed(Puts(xs)) == Bufs(xs)
  {
    if xs == [] {
    } else {
      BufsTail(xs);
      PutsSafe(xs[1..], freed + {xs[0].buf});
    }
  }

  lemma EventSafe(e: Event, freed: set<nat>)
    requires Reads(e) !! freed && Frees(e) !! freed
    ensures Safe([e], freed) && Freed([e]) == Frees(e)
  {
    assert [e][1..] == [];
  }

  lemma {:induction false} CommitsSafe(xs: seq<Item>, freed: set<nat>)
    ensures Safe(Commits(xs), freed) && Freed(Commits(xs)) == {}
  {
    if xs == [] {
    } else {
      CommitsSafe(xs[1..], freed);
      if NeedsCommit(xs[0]) {
        EventSafe(Commit(xs[0]), freed);
        assert freed + {} == freed;
        SafeAppend([Commit(xs[0])], Commits(xs[1..]), freed);
      } else {
        assert [] + Commits(xs[1..]) == Commits(xs[1..]);
      }
    }
  }

  /** No buffer is read or freed after the first two events. */
  lemma SentSafe(x: Item, freed: set<nat>)
    requires x.buf !in freed
    ensures Safe(Sent(x), freed) && Freed(Sent(x)) == {x.buf}
  {
    EventSafe(Trace(x), freed);
    EventSafe(Put(x), freed + {});
    SafeAppend([Trace(x)], [Put(x)], freed);
    assert [Trace(x)] + [Put(x)] == [Trace(x), Put(x)];
    var rest := Sent(x)[2..];
    assert Sent(x) == [Trace(x), Put(x)] + rest;
    if rest != [] { EventSafe(rest[0], freed + {x.buf}); }
    SafeAppend([Trace(x), Put(x)], rest, freed);
  }

  lemma {:induction false} SentAllSafe(xs: seq<Item>, freed: set<nat>)
    requires DistinctBufs(xs) && Bufs(xs) !! freed && TerminatesOnlyLast(xs)
    ensures Safe(SentAll(xs), freed) && Freed(SentAll(xs)) == Bufs(xs)
  {
    if xs == [] {
    } else {
      BufsTail(xs);
      SentSafe(xs[0], freed);
      if TerminatesAfterWrite(xs[0]) {
        assert |xs| == 1 && Sent(xs[0]) + [] == Sent(xs[0]);
      } else {
        SentAllSafe(xs[1..], freed + {xs[0].buf});
        SafeAppend(Sent(xs[0]), SentAll(xs[1..]), freed);
      }
    }
  }

  lemma LostOneSafe(x: Item, freed: set<nat>)
    requires x.buf !in freed
    ensures var one := (if x.kind.OneWay? then [Dispatched(x, false)] else []) + [Put(x)];
            Safe(one, freed) && Freed(one) == {x.buf}
  {
    EventSafe(Put(x), freed);
    if x.kind.OneWay? {
      EventSafe(Dispatched(x, false), freed);
      assert freed + {} == freed;
      SafeAppend([Dispatched(x, false)], [Put(x)], freed);
    } else {
      assert [] + [Put(x)] == [Put(x)];
    }
  }

  lemma {:induction false} LostSafe(xs: seq<Item>, freed: set<nat>)
    requires DistinctBufs(xs) && Bufs(xs) !! freed
    ensures Safe(Lost(xs), freed) && Freed(Lost(xs)) == Bufs(xs)
  {
    if xs == [] {
      assert Lost(xs)[1..] == [];
    } else {
      BufsTail(xs);
      var one := (if xs[0].kind.OneWay? then [Dispatched(xs[0], false)] else []) + [Put(xs[0])];
      LostOneSafe(xs[0], freed);
      LostSafe(xs[1..], freed + {xs[0].buf});
      SafeAppend(one, Lost(xs[1..]), freed);
    }
  }

  lemma HeadSafe(d: Drained, ok: bool, freed: set<nat>)
    requires DistinctBufs(d.dropped) && Bufs(d.dropped) !! freed
    requires Bufs(d.batch) !! freed + Bufs(d.dropped)
    ensures var head := Puts(d.dropped) + Commits(d.batch) + [Write(d.batch, ok)];
            Safe(head, freed) && Freed(head) == Bufs(d.dropped)
  {
    PutsSafe(d.dropped, freed);
    CommitsSafe(d.batch, freed + Bufs(d.dropped));
    SafeAppend(Puts(d.dropped), Commits(d.batch), freed);
    EventSafe(Write(d.batch, ok), freed + Bufs(d.dropped));
    SafeAppend(Puts(d.dropped) + Commits(d.batch), [Write(d.batch, ok)], freed);
  }

  lemma TurnLogSafe(d: Drained, ok: bool, freed: set<nat>)
    requires DistinctBufs(d.dropped) && DistinctBufs(d.batch) && TerminatesOnlyLast(d.batch)
    requires Bufs(d.dropped) !! freed && Bufs(d.batch) !! freed + Bufs(d.dropped)
    ensures Safe(TurnLog(d, ok), freed) && Freed(TurnLog(d, ok)) == Bufs(d.dropped) + Bufs(d.batch)
  {
    var head := Puts(d.dropped) + Commits(d.batch) + [Write(d.batch, ok)];
    HeadSafe(d, ok, freed);
    if ok {
      SentAllSafe(d.batch, freed + Bufs(d.dropped));
      SafeAppend(head, SentAll(d.batch), freed);
    } else {
      LostSafe(d.batch, freed + Bufs(d.dropped));
      SafeAppend(head, Lost(d.batch), freed);
    }
  }

  /** The buffers of positions i..j-1. */
  function Span(h: History, i: nat, j: nat): (bs: set<nat>)
    requires i <= j <= |h.queue|
  {
    set k | i <= k < j :: h.queue[k].buf
  }

  function Picked(h: History, i: nat, j: nat, active: bool): (bs: set<nat>)
    requires Complete(h) && i <= j <= |h.queue|
  {
    set k | i <= k < j && h.active[k] == active :: h.queue[k].buf
  }

  lemma ChosenStep(h: History, i: nat, j: nat, active: bool)
    requires Complete(h) && i < j <= |h.queue|
    ensures h.active[i] == active ==> Chosen(h, i, j, active) == [h.queue[i]] + Chosen(h, i + 1, j, active)
    ensures h.active[i] != active ==> Chosen(h, i, j, active) == Chosen(h, i + 1, j, active)
  {
  }

  lemma PickedStep(h: History, i: nat, j: nat, active: bool)
    requires Complete(h) && i < j <= |h.queue|
    ensures Picked(h, i, j, active) ==
              (if h.active[i] == active then {h.queue[i].buf} else {}) + Picked(h, i + 1, j, active)
  {
  }

  lemma NotPickedAgain(h: History, i: nat, j: nat, active: bool)
    requires Complete(h) && i < j <= |h.queue| && DistinctBufs(h.queue)
    ensures h.queue[i].buf !in Picked(h, i + 1, j, active)
  {
  }

  predicate BufsPicked(h: History, i: nat, j: nat, active: bool)
    requires Complete(h) && i <= j <= |h.queue|
  {
    DistinctBufs(Chosen(h, i, j, active)) && Bufs(Chosen(h, i, j, active)) == Picked(h, i, j, active)
  }

  lemma ChosenBufsStep(h: History, i: nat, j: nat, active: bool)
    requires Complete(h) && i < j <= |h.queue| && DistinctBufs(h.queue) && BufsPicked(h, i + 1, j, active)
    ensures BufsPicked(h, i, j, active)
  {
    PickedStep(h, i, j, active);
    ChosenStep(h, i, j, active);
    if h.active[i] == active {
      NotPickedAgain(h, i, j, active);
      DistinctCons(h.queue[i], Chosen(h, i + 1, j, active));
    }
  }

  lemma {:induction false} ChosenBufs(h: History, i: nat, j: nat, active: bool)
    requires Complete(h) && i <= j <= |h.queue| && DistinctBufs(h.queue)
    ensures BufsPicked(h, i, j, active)
    decreases j - i
  {
    if i == j {
    } else {
      ChosenBufs(h, i + 1, j, active);
      ChosenBufsStep(h, i, j, active);
    }
  }

  lemma DistinctCons(x: Item, ys: seq<Item>)
    requires DistinctBufs(ys) && x.buf !in Bufs(ys)
    ensures DistinctBufs([x] + ys) && Bufs([x] + ys) == {x.buf} + Bufs(ys)
  {
    assert ([x] + ys)[1..] == ys;
    BufsTail([x] + ys);
    forall j | 0 < j < |ys| + 1
      ensures ([x] + ys)[j].buf != x.buf
    {
      assert ([x] + ys)[j] == ys[j - 1];
    }
  }

  lemma ChosenPartition(h: History, i: nat, j: nat)
    requires Complete(h) && i <= j <= |h.queue| && DistinctBufs(h.queue)
    ensures Bufs(Chosen(h, i, j, true)) !! Bufs(Chosen(h, i, j, false))
    ensures Bufs(Chosen(h, i, j, true)) + Bufs(Chosen(h, i, j, false)) == Span(h, i, j)
  {
    ChosenBufs(h, i, j, true);
    ChosenBufs(h, i, j, false);
  }

  lemma TurnSafe(h: History, l: Limits, i: nat, freed: set<nat>)
    requires Complete(h) && i < |h.queue| && DistinctBufs(h.queue)
    requires Span(h, i, Turned(h, l, i).next) !! freed
    ensures var t := Turned(h, l, i); Safe(t.log, freed) && Freed(t.log) == Span(h, i, t.next)
  {
    var t := Turned(h, l, i);
    if h.active[i] {
      var d := Drain(h, l, [h.queue[i]], i + 1);
      DrainTakes(h, l, [h.queue[i]], i + 1);
      DrainTerminates(h, l, [h.queue[i]], i + 1);
      assert t.log == TurnLog(d, h.writes[i]);
      assert d.batch == Chosen(h, i, t.next, true);
      assert d.dropped == Chosen(h, i, t.next, false);
      ChosenBufs(h, i, t.next, true);
      ChosenBufs(h, i, t.next, false);
      ChosenPartition(h, i, t.next);
      TurnLogSafe(d, h.writes[i], freed);
    } else {
      assert t.log[1..] == [];
      assert Span(h, i, i + 1) == {h.queue[i].buf};
    }
  }

  /** For every history with one buffer per item: each buffer of a dequeued item is given
      back exactly once, no other is, and none is read after it was given back. */
  lemma {:induction false} BuffersReturnOnce(h: History, l: Limits, i: nat, freed: set<nat>)
    requires Complete(h) && i <= |h.queue| && DistinctBufs(h.queue) && Span(h, i, |h.queue|) !! freed
    ensures var o := Run(h, l, i); Safe(o.log, freed) && Freed(o.log) == Span(h, i, o.end)
    decreases |h.queue| - i
  {
    if i >= |h.queue| {
    } else {
      var t := Turned(h, l, i);
      assert Span(h, i, t.next) <= Span(h, i, |h.queue|);
      TurnSafe(h, l, i, freed);
      if !t.stop {
        var o := Run(h, l, t.next);
        assert Span(h, t.next, |h.queue|) !! Span(h, i, t.next);
        BuffersReturnOnce(h, l, t.next, freed + Span(h, i, t.next));
        SafeAppend(t.log, o.log, freed);
        assert Span(h, i, t.next) + Span(h, t.next, o.end) == Span(h, i, o.end);
      }
    }
  }

  // ----- Commit before write -----

  /** The responses of a batch that the state machine has to know of. */
  function Responses(xs: seq<Item>): (rs: seq<Item>)
  {
    if xs == [] then []
    else (if xs[0].kind.Response? && xs[0].kind.to.Some? then [xs[0]] else []) + Responses(xs[1..])
  }

  /** What has been committed since the last write, when `since` had been before. */
  function CommittedSince(log: seq<Event>, since: seq<Item>): (xs: seq<Item>)
    decreases |log|
  {
    if log == [] then since
    else CommittedSince(log[1..], if log[0].Write? then [] else if log[0].Commit? then since + [log[0].item] else since)
  }

  /** Between a write and the one before it, exactly the responses that it puts on the
      wire are committed to the state machine, one by one and in their order. */
  predicate CommitsFirst(log: seq<Event>, since: seq<Item>)
    decreases |log|
  {
    log == [] ||
    (&& (log[0].Write? ==> since == Responses(log[0].batch))
     && CommitsFirst(log[1..],
                     if log[0].Write? then [] else if log[0].Commit? then since + [log[0].item] else since))
  }

  lemma {:induction false} CommitsFirstAppend(a: seq<Event>, b: seq<Event>, since: seq<Item>)
    requires CommitsFirst(a, since) && CommitsFirst(b, CommittedSince(a, since))
    ensures CommitsFirst(a + b, since) && CommittedSince(a + b, since) == CommittedSince(b, CommittedSince(a, since))
    decreases |a|
  {
    if a == [] {
      assert a + b == b;
    } else {
      assert (a + b)[0] == a[0] && (a + b)[1..] == a[1..] + b;
      CommitsFirstAppend(a[1..], b, if a[0].Write? then [] else if a[0].Commit? then since + [a[0].item] else since);
    }
  }

  predicate NoCommit(log: seq<Event>) { forall i | 0 <= i < |log| :: !log[i].Commit? }

  lemma {:induction false} QuietCommits(log: seq<Event>, since: seq<Item>)
    requires NoWrite(log) && NoCommit(log)
    ensures CommitsFirst(log, since) && CommittedSince(log, since) == since
    decreases |log|
  {
    if log == [] {
    } else {
      QuietCommits(log[1..], since);
    }
  }

  lemma NoCommitAppend(a: seq<Event>, b: seq<Event>)
    requires NoCommit(a) && NoCommit(b)
    ensures NoCommit(a + b)
  {
  }

  lemma {:induction false} PutsNoCommit(xs: seq<Item>)
    ensures NoCommit(Puts(xs))
  {
    if xs == [] {
    } else {
      PutsNoCommit(xs[1..]);
      NoCommitAppend([Put(xs[0])], Puts(xs[1..]));
    }
  }

  lemma {:induction false} AfterNoCommit(xs: seq<Item>)
    ensures NoCommit(SentAll(xs)) && NoCommit(Lost(xs))
  {
    if xs == [] {
    } else {
      AfterNoCommit(xs[1..]);
      NoCommitAppend(Sent(xs[0]), if TerminatesAfterWrite(xs[0]) then [] else SentAll(xs[1..]));
      var head := (if xs[0].kind.OneWay? then [Dispatched(xs[0], false)] else []) + [Put(xs[0])];
      NoCommitAppend(head, Lost(xs[1..]));
    }
  }

  lemma CommitOne(x: Item, since: seq<Item>)
    ensures var one := if NeedsCommit(x) then [Commit(x)] else [];
            CommitsFirst(one, since) && CommittedSince(one, since) == since + if NeedsCommit(x) then [x] else []
  {
    assert [Commit(x)][1..] == [] && since + [] == since;
  }

  lemma {:induction false} CommitsCommit(xs: seq<Item>, since: seq<Item>)
    ensures CommitsFirst(Commits(xs), since) && CommittedSince(Commits(xs), since) == since + Responses(xs)
    decreases |xs|
  {
    if xs == [] {
    } else {
      var first := if NeedsCommit(xs[0]) then [xs[0]] else [];
      CommitOne(xs[0], since);
      CommitsCommit(xs[1..], since + first);
      CommitsFirstAppend(if NeedsCommit(xs[0]) then [Commit(xs[0])] else [], Commits(xs[1..]), since);
      assert since + (first + Responses(xs[1..])) == since + first + Responses(xs[1..]);
    }
  }

  lemma WriteCommits(batch: seq<Item>, ok: bool)
    ensures var w := [Write(batch, ok)];
            CommitsFirst(w, Responses(batch)) && CommittedSince(w, Responses(batch)) == []
  {
    assert [Write(batch, ok)][1..] == [];
  }

  /** A turn that writes leaves nothing committed that it has not written. */
  lemma TurnCommits(d: Drained, ok: bool)
    ensures CommitsFirst(TurnLog(d, ok), []) && CommittedSince(TurnLog(d, ok), []) == []
  {
    var puts, commits, w := Puts(d.dropped), Commits(d.batch), [Write(d.batch, ok)];
    var tail := if ok then SentAll(d.batch) else Lost(d.batch);
    PutsNoWrite(d.dropped);
    PutsNoCommit(d.dropped);
    AfterNoWrite(d.batch);
    AfterNoCommit(d.batch);
    QuietCommits(puts, []);
    CommitsCommit(d.batch, []);
    assert [] + Responses(d.batch) == Responses(d.batch);
    CommitsFirstAppend(puts, commits, []);
    WriteCommits(d.batch, ok);
    CommitsFirstAppend(puts + commits, w, []);
    QuietCommits(tail, []);
    CommitsFirstAppend(puts + commits + w, tail, []);
  }

  lemma {:induction false} CommitPrecedesWrite(h: History, l: Limits, i: nat)
    requires Complete(h) && i <= |h.queue|
    ensures CommitsFirst(Run(h, l, i).log, [])
    decreases |h.queue| - i
  {
    if i == |h.queue| {
    } else {
      var t := Turned(h, l, i);
      if h.active[i] {
        TurnCommits(Drain(h, l, [h.queue[i]], i + 1), h.writes[i]);
        assert t.log == TurnLog(Drain(h, l, [h.queue[i]], i + 1), h.writes[i]);
      } else {
        QuietCommits(t.log, []);
      }
      if !t.stop {
        CommitPrecedesWrite(h, l, t.next);
        CommitsFirstAppend(t.log, Run(h, l, t.next).log, []);
      }
    }
  }

  // ----- Batches -----

  /** Within the bounds: the item limit, the octet limit before the last item was added,
      and a terminating item only at the end. */
  predicate WellBatched(l: Limits, batch: seq<Item>)
  {
    && batch != [] && |batch| <= l.items && TerminatesOnlyLast(batch)
    && (|batch| > 1 ==> Octets(batch[..|batch| - 1]) < l.octets)
  }

  lemma {:induction false} DrainBounded(h: History, l: Limits, batch: seq<Item>, i: nat)
    requires Complete(h) && i <= |h.queue| && WellBatched(l, batch)
    ensures WellBatched(l, Drain(h, l, batch, i).batch)
    decreases |h.queue| - i
  {
    if Full(l, batch) || i == |h.queue| || !h.ready[i] {
    } else if !h.active[i] {
      DrainBounded(h, l, batch, i + 1);
    } else {
      var more := batch + [h.queue[i]];
      assert more[..|more| - 1] == batch;
      DrainBounded(h, l, more, i + 1);
    }
  }

  /** A write after which the loop ends: it failed, or it carried a successful
      unbind_resp. */
  predicate Final(e: Event) { e.Write? && e.batch != [] && (!e.ok || TerminatesAfterWrite(e.batch[|e.batch| - 1])) }

  predicate BatchesOk(l: Limits, log: seq<Event>)
  {
    && (forall p | 0 <= p < |log| && log[p].Write? :: WellBatched(l, log[p].batch))
    && (forall p, q | 0 <= p < q < |log| && Final(log[p]) :: !log[q].Write?)
  }

  predicate NoneFinal(log: seq<Event>) { forall p | 0 <= p < |log| :: !Final(log[p]) }

  lemma OneWrite(l: Limits, d: Drained, ok: bool)
    requires WellBatched(l, d.batch)
    ensures BatchesOk(l, TurnLog(d, ok))
    ensures ok && !TerminatesAfterWrite(d.batch[|d.batch| - 1]) ==> NoneFinal(TurnLog(d, ok))
  {
    PutsNoWrite(d.dropped);
    PutsNoWrite(d.batch);
    AfterNoWrite(d.batch);
    OneWriteAmong(l, Puts(d.dropped) + Commits(d.batch), Write(d.batch, ok),
                  if ok then SentAll(d.batch) else Lost(d.batch));
  }

  lemma OneWriteAmong(l: Limits, a: seq<Event>, w: Event, b: seq<Event>)
    requires NoWrite(a) && NoWrite(b) && w.Write? && WellBatched(l, w.batch)
    ensures BatchesOk(l, a + [w] + b)
    ensures !Final(w) ==> NoneFinal(a + [w] + b)
  {
  }

  lemma BatchesAppend(l: Limits, a: seq<Event>, b: seq<Event>)
    requires BatchesOk(l, a) && NoneFinal(a) && BatchesOk(l, b)
    ensures BatchesOk(l, a + b)
  {
  }

  lemma TurnBounded(h: History, l: Limits, i: nat)
    requires Complete(h) && i < |h.queue| && l.items > 0
    ensures var t := Turned(h, l, i); BatchesOk(l, t.log) && (!t.stop ==> NoneFinal(t.log))
  {
    if h.active[i] {
      var d := Drain(h, l, [h.queue[i]], i + 1);
      DrainBounded(h, l, [h.queue[i]], i + 1);
      OneWrite(l, d, h.writes[i]);
      assert Turned(h, l, i).log == TurnLog(d, h.writes[i]);
    }
  }

  /** For every history: every write respects the bounds, and nothing is written after a
      failed write or after a successful unbind_resp. */
  lemma {:induction false} BatchesAreBounded(h: History, l: Limits, i: nat)
    requires Complete(h) && i <= |h.queue| && l.items > 0
    ensures BatchesOk(l, Run(h, l, i).log)
    decreases |h.queue| - i
  {
    if i >= |h.queue| {
    } else {
      var t := Turned(h, l, i);
      TurnBounded(h, l, i);
      if !t.stop {
        BatchesAreBounded(h, l, t.next);
        BatchesAppend(l, t.log, Run(h, l, t.next).log);
      }
    }
  }

  // ----- The write deadline -----

  /** The clock does not go back. */
  predicate Clocked(h: History) { forall i, j | 0 <= i < j < |h.times| :: h.times[i] <= h.times[j] }

  predicate StartsInTime(w: Timed, timeout: int)
    requires timeout > 0
  {
    timeout / 2 <= w.until - w.now <= timeout
  }

  /** Every write starts with at least half the timeout left and at most all of it: under
      the deadline of the write before it as long as that leaves so much, and otherwise
      under one armed when it starts itself. */
  predicate InTime(ws: seq<Timed>, armed: Option<int>, timeout: int)
    requires timeout > 0
    decreases |ws|
  {
    ws == [] ||
    (&& StartsInTime(ws[0], timeout)
     && ws[0].until == (if armed.Some? && ws[0].now + timeout / 2 <= armed.value then armed.value
                        else ws[0].now + timeout)
     && InTime(ws[1..], Some(ws[0].until), timeout))
  }

  /** The deadline in force was armed before position i. */
  predicate ArmedBefore(armed: Option<int>, h: History, i: nat, timeout: int)
  {
    armed.Some? ==> forall k | i <= k < |h.times| :: armed.value <= h.times[k] + timeout
  }

  lemma DeadlineIsInTime(armed: Option<int>, now: int, timeout: int)
    requires timeout > 0 && (armed.Some? ==> armed.value <= now + timeout)
    ensures StartsInTime(Timed(now, Deadline(armed, now, timeout)), timeout)
  {
  }

  lemma {:induction false} DeadlinesInTime(h: History, l: Limits, i: nat, armed: Option<int>, timeout: int)
    requires Complete(h) && Clocked(h) && i <= |h.queue| && timeout > 0 && ArmedBefore(armed, h, i, timeout)
    ensures InTime(Deadlines(h, l, i, armed, timeout), armed, timeout)
    decreases |h.queue| - i
  {
    if i == |h.queue| {
    } else if !h.active[i] {
      DeadlinesInTime(h, l, i + 1, armed, timeout);
    } else {
      var t, until := Turned(h, l, i), Deadline(armed, h.times[i], timeout);
      var w := Timed(h.times[i], until);
      DeadlineIsInTime(armed, h.times[i], timeout);
      var rest := if t.stop then [] else Deadlines(h, l, t.next, Some(until), timeout);
      if !t.stop {
        assert ArmedBefore(Some(until), h, t.next, timeout);
        DeadlinesInTime(h, l, t.next, Some(until), timeout);
      }
      assert ([w] + rest)[1..] == rest;
      assert Deadlines(h, l, i, armed, timeout) == [w] + rest;
    }
  }

  function Writes(log: seq<Event>): (n: nat)
  {
    if log == [] then 0 else (if log[0].Write? then 1 else 0) + Writes(log[1..])
  }

  lemma {:induction false} WritesAppend(a: seq<Event>, b: seq<Event>)
    ensures Writes(a + b) == Writes(a) + Writes(b)
  {
    if a == [] {
      assert a + b == b;
    } else {
      assert (a + b)[0] == a[0] && (a + b)[1..] == a[1..] + b;
      WritesAppend(a[1..], b);
    }
  }

  lemma {:induction false} QuietWrites(log: seq<Event>)
    requires NoWrite(log)
    ensures Writes(log) == 0
  {
    if log == [] {
    } else {
      QuietWrites(log[1..]);
    }
  }

  lemma TurnWritesOnce(d: Drained, ok: bool)
    ensures Writes(TurnLog(d, ok)) == 1
  {
    var head, w := Puts(d.dropped) + Commits(d.batch), [Write(d.batch, ok)];
    var tail := if ok then SentAll(d.batch) else Lost(d.batch);
    PutsNoWrite(d.dropped);
    PutsNoWrite(d.batch);
    AfterNoWrite(d.batch);
    QuietWrites(head);
    QuietWrites(tail);
    assert w[1..] == [];
    WritesAppend(head, w);
    WritesAppend(head + w, tail);
  }

  /** There is one timed write for every write of the loop. */
  lemma {:induction false} EveryWriteIsTimed(h: History, l: Limits, i: nat, armed: Option<int>, timeout: int)
    requires Complete(h) && i <= |h.queue| && timeout > 0
    ensures |Deadlines(h, l, i, armed, timeout)| == Writes(Run(h, l, i).log)
    decreases |h.queue| - i
  {
    if i == |h.queue| {
    } else {
      var t := Turned(h, l, i);
      var next := if h.active[i] then Some(Deadline(armed, h.times[i], timeout)) else armed;
      if h.active[i] {
        var d := Drain(h, l, [h.queue[i]], i + 1);
        TurnWritesOnce(d, h.writes[i]);
        assert t.log == TurnLog(d, h.writes[i]);
      } else {
        QuietWrites(t.log);
      }
      if !t.stop {
        EveryWriteIsTimed(h, l, t.next, next, timeout);
        WritesAppend(t.log, Run(h, l, t.next).log);
      }
    }
  }

  /** For every history in which the clock does not go back, every write of the loop starts
      with at least half the timeout left, under the deadline of the write before it or
      one that it has just armed. */
  lemma WritesStartInTime(h: History, l: Limits, timeout: int)
    requires Complete(h) && Clocked(h) && timeout > 0
    ensures InTime(Deadlines(h, l, 0, None, timeout), None, timeout)
    ensures |Deadlines(h, l, 0, None, timeout)| == Writes(Run(h, l, 0).log)
  {
    DeadlinesInTime(h, l, 0, None, timeout);
    EveryWriteIsTimed(h, l, 0, None, timeout);
  }
}
