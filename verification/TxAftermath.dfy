/** What the transmit loop does around its writes, for every queue history: who is told of
    which write and when, when the session is ended, and that no batch is cut short. */
module TxAftermath {
  import opened Bytes
  import Lifecycle
  import opened TxLoop
  import opened TxLaws

  // ----- Who is told -----

  /** Requests that are marked as dispatched, one-way senders told of success or of
      failure, and frames that are traced. */
  datatype Notice = Marked | Confirmed | Refused | Traced

  function Told(n: Notice, e: Event): (xs: seq<Item>)
  {
    match n
    case Marked => if e.Mark? then [e.item] else []
    case Confirmed => if e.Dispatched? && e.ok then [e.item] else []
    case Refused => if e.Dispatched? && !e.ok then [e.item] else []
    case Traced => if e.Trace? then [e.item] else []
  }

  function AllTold(n: Notice, log: seq<Event>): (xs: seq<Item>)
  {
    if log == [] then [] else Told(n, log[0]) + AllTold(n, log[1..])
  }

  /** Which items of a write are due a notice, by how the write went. */
  predicate Due(n: Notice, x: Item, ok: bool)
  {
    match n
    case Marked => ok && x.kind.Request?
    case Confirmed => ok && x.kind.OneWay?
    case Refused => !ok && x.kind.OneWay?
    case Traced => ok
  }

  function AllDue(n: Notice, xs: seq<Item>, ok: bool): (ys: seq<Item>)
  {
    if xs == [] then [] else (if Due(n, xs[0], ok) then [xs[0]] else []) + AllDue(n, xs[1..], ok)
  }

  lemma {:induction false} ToldAppend(n: Notice, a: seq<Event>, b: seq<Event>)
    ensures AllTold(n, a + b) == AllTold(n, a) + AllTold(n, b)
  {
    if a == [] {
      assert a + b == b;
    } else {
      assert (a + b)[0] == a[0] && (a + b)[1..] == a[1..] + b;
      ToldAppend(n, a[1..], b);
    }
  }

  lemma {:induction false} DueAppend(n: Notice, xs: seq<Item>, ys: seq<Item>, ok: bool)
    ensures AllDue(n, xs + ys, ok) == AllDue(n, xs, ok) + AllDue(n, ys, ok)
  {
    if xs == [] {
      assert xs + ys == ys;
    } else {
      assert (xs + ys)[0] == xs[0] && (xs + ys)[1..] == xs[1..] + ys;
      DueAppend(n, xs[1..], ys, ok);
      var first := if Due(n, xs[0], ok) then [xs[0]] else [];
      assert AllDue(n, xs + ys, ok) == first + AllDue(n, xs[1..] + ys, ok);
      assert first + (AllDue(n, xs[1..], ok) + AllDue(n, ys, ok)) == first + AllDue(n, xs[1..], ok) + AllDue(n, ys, ok);
    }
  }

  predicate Silent(log: seq<Event>) { forall i | 0 <= i < |log| :: log[i].Put? || log[i].Commit? || log[i].Write? }

  lemma {:induction false} SilentTellsNone(n: Notice, log: seq<Event>)
    requires Silent(log)
    ensures AllTold(n, log) == []
  {
    if log == [] {
    } else {
      SilentTellsNone(n, log[1..]);
    }
  }

  lemma SilentAppend(a: seq<Event>, b: seq<Event>)
    requires Silent(a) && Silent(b)
    ensures Silent(a + b)
  {
  }

  lemma {:induction false} HeadIsSilent(xs: seq<Item>)
    ensures Silent(Puts(xs)) && Silent(Commits(xs))
  {
    if xs == [] {
    } else {
      HeadIsSilent(xs[1..]);
      SilentAppend([Put(xs[0])], Puts(xs[1..]));
      SilentAppend(if NeedsCommit(xs[0]) then [Commit(xs[0])] else [], Commits(xs[1..]));
    }
  }

  lemma ToldOne(n: Notice, e: Event)
    ensures AllTold(n, [e]) == Told(n, e)
  {
    assert [e][1..] == [] && Told(n, e) + [] == Told(n, e);
  }

  lemma ToldTwo(n: Notice, e: Event, f: Event)
    ensures AllTold(n, [e, f]) == Told(n, e) + Told(n, f)
  {
    assert [e, f] == [e] + [f];
    ToldOne(n, e);
    ToldOne(n, f);
    ToldAppend(n, [e], [f]);
  }

  lemma SentTells(n: Notice, x: Item)
    ensures AllTold(n, Sent(x)) == if Due(n, x, true) then [x] else []
  {
    var more := Sent(x)[2..];
    assert Sent(x) == [Trace(x), Put(x)] + more;
    ToldTwo(n, Trace(x), Put(x));
    ToldAppend(n, [Trace(x), Put(x)], more);
    if more != [] {
      assert more == [more[0]];
      ToldOne(n, more[0]);
    }
  }

  lemma {:induction false} SentAllTells(n: Notice, xs: seq<Item>)
    requires TerminatesOnlyLast(xs)
    ensures AllTold(n, SentAll(xs)) == AllDue(n, xs, true)
  {
    if xs == [] {
    } else {
      SentTells(n, xs[0]);
      if TerminatesAfterWrite(xs[0]) {
        assert xs[1..] == [];
        assert Sent(xs[0]) + [] == Sent(xs[0]);
      } else {
        SentAllTells(n, xs[1..]);
        ToldAppend(n, Sent(xs[0]), SentAll(xs[1..]));
      }
    }
  }

  lemma LostTells(n: Notice, x: Item)
    ensures var one := (if x.kind.OneWay? then [Dispatched(x, false)] else []) + [Put(x)];
            AllTold(n, one) == if Due(n, x, false) then [x] else []
  {
    if x.kind.OneWay? {
      assert [Dispatched(x, false)] + [Put(x)] == [Dispatched(x, false), Put(x)];
      ToldTwo(n, Dispatched(x, false), Put(x));
    } else {
      assert [] + [Put(x)] == [Put(x)];
      ToldOne(n, Put(x));
    }
  }

  lemma {:induction false} LostAllTells(n: Notice, xs: seq<Item>)
    ensures AllTold(n, Lost(xs)) == AllDue(n, xs, false)
  {
    if xs == [] {
      ToldOne(n, Terminate);
    } else {
      var one := (if xs[0].kind.OneWay? then [Dispatched(xs[0], false)] else []) + [Put(xs[0])];
      LostTells(n, xs[0]);
      LostAllTells(n, xs[1..]);
      ToldAppend(n, one, Lost(xs[1..]));
      assert Lost(xs) == one + Lost(xs[1..]);
    }
  }

  lemma TurnTells(n: Notice, d: Drained, ok: bool)
    requires TerminatesOnlyLast(d.batch)
    ensures AllTold(n, TurnLog(d, ok)) == AllDue(n, d.batch, ok)
  {
    var head := Puts(d.dropped) + Commits(d.batch) + [Write(d.batch, ok)];
    HeadIsSilent(d.dropped);
    HeadIsSilent(d.batch);
    SilentAppend(Puts(d.dropped), Commits(d.batch));
    SilentAppend(Puts(d.dropped) + Commits(d.batch), [Write(d.batch, ok)]);
    SilentTellsNone(n, head);
    if ok {
      SentAllTells(n, d.batch);
      ToldAppend(n, head, SentAll(d.batch));
    } else {
      LostAllTells(n, d.batch);
      ToldAppend(n, head, Lost(d.batch));
    }
  }

  lemma OneTurnTells(n: Notice, h: History, l: Limits, i: nat)
    requires Complete(h) && i < |h.queue|
    ensures var t := Turned(h, l, i);
            AllTold(n, t.log) == AllDue(n, Chosen(h, i, t.next, true), !h.active[i] || h.writes[i])
  {
    var t := Turned(h, l, i);
    if h.active[i] {
      var d := Drain(h, l, [h.queue[i]], i + 1);
      DrainTakes(h, l, [h.queue[i]], i + 1);
      DrainTerminates(h, l, [h.queue[i]], i + 1);
      assert t.log == TurnLog(d, h.writes[i]);
      TurnTells(n, d, h.writes[i]);
      assert Chosen(h, i, t.next, true) == d.batch;
    } else {
      ToldOne(n, Put(h.queue[i]));
      assert Chosen(h, i, i + 1, true) == [];
    }
  }

  /** The items from position i on that were written, and those of the failed batch. */
  function WasWritten(h: History, l: Limits, i: nat): (xs: seq<Item>)
    requires Complete(h) && i <= |h.queue|
  {
    Chosen(h, i, WrittenTo(h, l, i), true)
  }

  function WasLost(h: History, l: Limits, i: nat): (xs: seq<Item>)
    requires Complete(h) && i <= |h.queue|
  {
    var w, end := WrittenTo(h, l, i), Run(h, l, i).end;
    if w <= end then Chosen(h, w, end, true) else []
  }

  lemma LastTurnSplits(h: History, l: Limits, i: nat)
    requires Complete(h) && i < |h.queue| && Turned(h, l, i).stop
    ensures var xs := Chosen(h, i, Turned(h, l, i).next, true);
            if h.active[i] && !h.writes[i] then WasWritten(h, l, i) == [] && WasLost(h, l, i) == xs
            else WasWritten(h, l, i) == xs && WasLost(h, l, i) == []
  {
  }

  lemma NextTurnSplits(h: History, l: Limits, i: nat)
    requires Complete(h) && i < |h.queue| && !Turned(h, l, i).stop
    ensures var t := Turned(h, l, i);
            && (h.active[i] ==> h.writes[i])
            && WasWritten(h, l, i) == Chosen(h, i, t.next, true) + WasWritten(h, l, t.next)
            && WasLost(h, l, i) == WasLost(h, l, t.next)
  {
    var t := Turned(h, l, i);
    ChosenSplit(h, i, t.next, WrittenTo(h, l, t.next), true);
  }

  lemma {:induction false} WrittenBeforeEnd(h: History, l: Limits, i: nat)
    requires Complete(h) && i <= |h.queue|
    ensures WrittenTo(h, l, i) <= Run(h, l, i).end
    decreases |h.queue| - i
  {
    if i == |h.queue| || Turned(h, l, i).stop {
    } else {
      WrittenBeforeEnd(h, l, Turned(h, l, i).next);
    }
  }

  /** For every history and in queue order: the requests marked as dispatched are exactly
      those of the items that were written, the one-way senders told of success exactly
      theirs, and the frames traced exactly theirs; the one-way senders told of failure are
      exactly those of the batch whose write failed. */
  lemma {:induction false} NoticesAreExact(n: Notice, h: History, l: Limits, i: nat)
    requires Complete(h) && i <= |h.queue|
    ensures WrittenTo(h, l, i) <= Run(h, l, i).end
    ensures AllTold(n, Run(h, l, i).log) == AllDue(n, WasWritten(h, l, i), true) + AllDue(n, WasLost(h, l, i), false)
    decreases |h.queue| - i
  {
    WrittenBeforeEnd(h, l, i);
    if i == |h.queue| {
    } else {
      var t := Turned(h, l, i);
      var xs := Chosen(h, i, t.next, true);
      OneTurnTells(n, h, l, i);
      if t.stop {
        LastTurnSplits(h, l, i);
      } else {
        NextTurnSplits(h, l, i);
        NoticesAreExact(n, h, l, t.next);
        ToldAppend(n, t.log, Run(h, l, t.next).log);
        DueAppend(n, xs, WasWritten(h, l, t.next), true);
        Regroup(AllDue(n, xs, true), AllDue(n, WasWritten(h, l, t.next), true),
            AllDue(n, WasLost(h, l, t.next), false));
      }
    }
  }

  lemma Regroup(a: seq<Item>, b: seq<Item>, c: seq<Item>)
    ensures a + (b + c) == a + b + c
  {
  }

  // ----- After its own write -----

  /** The batch of the last write, and how it went. */
  datatype Last = Last(batch: seq<Item>, ok: bool)

  function LastWrite(log: seq<Event>, last: Last): (w: Last)
    decreases |log|
  {
    if log == [] then last else LastWrite(log[1..], if log[0].Write? then Last(log[0].batch, log[0].ok) else last)
  }

  /** Every notice is of an item of the last write, and says how that write went. */
  predicate AfterItsWrite(log: seq<Event>, last: Last)
    decreases |log|
  {
    log == [] ||
    (&& (log[0].Mark? || log[0].Trace? ==> log[0].item in last.batch && last.ok)
     && (log[0].Dispatched? ==> log[0].item in last.batch && log[0].ok == last.ok)
     && AfterItsWrite(log[1..], if log[0].Write? then Last(log[0].batch, log[0].ok) else last))
  }

  lemma {:induction false} AfterAppend(a: seq<Event>, b: seq<Event>, last: Last)
    requires AfterItsWrite(a, last) && AfterItsWrite(b, LastWrite(a, last))
    ensures AfterItsWrite(a + b, last) && LastWrite(a + b, last) == LastWrite(b, LastWrite(a, last))
    decreases |a|
  {
    if a == [] {
      assert a + b == b;
    } else {
      assert (a + b)[0] == a[0] && (a + b)[1..] == a[1..] + b;
      AfterAppend(a[1..], b, if a[0].Write? then Last(a[0].batch, a[0].ok) else last);
    }
  }

  lemma {:induction false} SilentFollows(log: seq<Event>, last: Last)
    requires Silent(log)
    ensures AfterItsWrite(log, last)
    decreases |log|
  {
    if log == [] {
    } else {
      SilentFollows(log[1..], if log[0].Write? then Last(log[0].batch, log[0].ok) else last);
    }
  }

  /** Notices of items among xs, all of which say ok. */
  predicate NoticesOf(log: seq<Event>, xs: seq<Item>, ok: bool)
  {
    forall i | 0 <= i < |log| ::
      && !log[i].Write?
      && (log[i].Mark? || log[i].Trace? ==> log[i].item in xs && ok)
      && (log[i].Dispatched? ==> log[i].item in xs && log[i].ok == ok)
  }

  lemma NoticesAppend(a: seq<Event>, b: seq<Event>, xs: seq<Item>, ok: bool)
    requires NoticesOf(a, xs, ok) && NoticesOf(b, xs, ok)
    ensures NoticesOf(a + b, xs, ok)
  {
  }

  lemma {:induction false} NoticesFollow(log: seq<Event>, xs: seq<Item>, ok: bool)
    requires NoticesOf(log, xs, ok)
    ensures AfterItsWrite(log, Last(xs, ok))
    decreases |log|
  {
    if log == [] {
    } else {
      NoticesFollow(log[1..], xs, ok);
    }
  }

  lemma SentIsOf(x: Item, ys: seq<Item>)
    requires x in ys
    ensures NoticesOf(Sent(x), ys, true)
  {
  }

  lemma {:induction false} AfterIsOf(xs: seq<Item>, ys: seq<Item>)
    requires forall x | x in xs :: x in ys
    ensures NoticesOf(SentAll(xs), ys, true) && NoticesOf(Lost(xs), ys, false)
    decreases |xs|
  {
    if xs == [] {
    } else {
      AfterIsOf(xs[1..], ys);
      SentIsOf(xs[0], ys);
      NoticesAppend(Sent(xs[0]), if TerminatesAfterWrite(xs[0]) then [] else SentAll(xs[1..]), ys, true);
      var one := (if xs[0].kind.OneWay? then [Dispatched(xs[0], false)] else []) + [Put(xs[0])];
      NoticesAppend(one, Lost(xs[1..]), ys, false);
    }
  }

  lemma {:induction false} QuietLast(log: seq<Event>, last: Last)
    requires NoWrite(log)
    ensures LastWrite(log, last) == last
    decreases |log|
  {
    if log == [] {
    } else {
      QuietLast(log[1..], last);
    }
  }

  lemma TurnFollows(d: Drained, ok: bool, last: Last)
    ensures AfterItsWrite(TurnLog(d, ok), last)
  {
    var head, w := Puts(d.dropped) + Commits(d.batch), [Write(d.batch, ok)];
    HeadIsSilent(d.dropped);
    HeadIsSilent(d.batch);
    PutsNoWrite(d.dropped);
    PutsNoWrite(d.batch);
    SilentAppend(Puts(d.dropped), Commits(d.batch));
    NoWriteAppend(Puts(d.dropped), Commits(d.batch));
    SilentFollows(head, last);
    QuietLast(head, last);
    SilentFollows(w, last);
    assert w[1..] == [] && LastWrite(w, last) == Last(d.batch, ok);
    AfterAppend(head, w, last);
    var tail := if ok then SentAll(d.batch) else Lost(d.batch);
    AfterIsOf(d.batch, d.batch);
    NoticesFollow(tail, d.batch, ok);
    AfterAppend(head + w, tail, last);
  }

  /** For every history every notice comes after the write that carries its item, before
      the next write, and says how that write went. */
  lemma {:induction false} NoticesFollowWrites(h: History, l: Limits, i: nat, last: Last)
    requires Complete(h) && i <= |h.queue|
    ensures AfterItsWrite(Run(h, l, i).log, last)
    decreases |h.queue| - i
  {
    if i == |h.queue| {
    } else {
      var t := Turned(h, l, i);
      if h.active[i] {
        TurnFollows(Drain(h, l, [h.queue[i]], i + 1), h.writes[i], last);
        assert t.log == TurnLog(Drain(h, l, [h.queue[i]], i + 1), h.writes[i]);
      } else {
        SilentFollows(t.log, last);
      }
      if !t.stop {
        NoticesFollowWrites(h, l, t.next, LastWrite(t.log, last));
        AfterAppend(t.log, Run(h, l, t.next).log, last);
      }
    }
  }

  // ----- The end of the session -----

  predicate NoEnd(log: seq<Event>) { forall i | 0 <= i < |log| :: !log[i].Terminate? }

  /** The session is ended by the last event, and by no other. */
  predicate EndsLast(log: seq<Event>) { log != [] && log[|log| - 1].Terminate? && NoEnd(log[..|log| - 1]) }

  /** A write that failed, or whose last item is a successful answer to an unbind. */
  predicate Ending(e: Event)
  {
    e.Write? && (!e.ok || (e.batch != [] && e.batch[|e.batch| - 1].kind == Response(Some(Lifecycle.Unbind), true)))
  }

  predicate HasEnding(log: seq<Event>) { exists i | 0 <= i < |log| :: Ending(log[i]) }

  lemma NoEndAppend(a: seq<Event>, b: seq<Event>)
    requires NoEnd(a) && NoEnd(b)
    ensures NoEnd(a + b)
  {
  }

  lemma EndsLastAppend(a: seq<Event>, b: seq<Event>)
    requires NoEnd(a) && EndsLast(b)
    ensures EndsLast(a + b)
  {
    assert (a + b)[..|a + b| - 1] == a + b[..|b| - 1];
    NoEndAppend(a, b[..|b| - 1]);
  }

  lemma {:induction false} HeadHasNoEnd(xs: seq<Item>)
    ensures NoEnd(Puts(xs)) && NoEnd(Commits(xs))
  {
    if xs == [] {
    } else {
      HeadHasNoEnd(xs[1..]);
      NoEndAppend([Put(xs[0])], Puts(xs[1..]));
      NoEndAppend(if NeedsCommit(xs[0]) then [Commit(xs[0])] else [], Commits(xs[1..]));
    }
  }

  lemma {:induction false} LostEnds(xs: seq<Item>)
    ensures EndsLast(Lost(xs))
  {
    if xs == [] {
      assert [Terminate][..0] == [];
    } else {
      var one := (if xs[0].kind.OneWay? then [Dispatched(xs[0], false)] else []) + [Put(xs[0])];
      LostEnds(xs[1..]);
      EndsLastAppend(one, Lost(xs[1..]));
      assert Lost(xs) == one + Lost(xs[1..]);
    }
  }

  lemma SentEnds(x: Item)
    ensures if x.kind == Response(Some(Lifecycle.Unbind), true) then EndsLast(Sent(x)) else NoEnd(Sent(x))
  {
    if x.kind == Response(Some(Lifecycle.Unbind), true) {
      assert Sent(x) == [Trace(x), Put(x)] + [Terminate];
      assert [Terminate][..0] == [];
      EndsLastAppend([Trace(x), Put(x)], [Terminate]);
    }
  }

  lemma {:induction false} SentAllEnds(xs: seq<Item>)
    requires xs != [] && TerminatesOnlyLast(xs)
    ensures if xs[|xs| - 1].kind == Response(Some(Lifecycle.Unbind), true) then EndsLast(SentAll(xs))
            else NoEnd(SentAll(xs))
  {
    SentEnds(xs[0]);
    if |xs| == 1 {
      assert xs[1..] == [] && Sent(xs[0]) + [] == Sent(xs[0]);
    } else {
      assert !TerminatesAfterWrite(xs[0]);
      SentAllEnds(xs[1..]);
      if xs[|xs| - 1].kind == Response(Some(Lifecycle.Unbind), true) {
        EndsLastAppend(Sent(xs[0]), SentAll(xs[1..]));
      } else {
        NoEndAppend(Sent(xs[0]), SentAll(xs[1..]));
      }
    }
  }

  lemma TurnEnds(d: Drained, ok: bool)
    requires d.batch != [] && TerminatesOnlyLast(d.batch)
    ensures if Ending(Write(d.batch, ok)) then EndsLast(TurnLog(d, ok)) else NoEnd(TurnLog(d, ok))
  {
    var head := Puts(d.dropped) + Commits(d.batch) + [Write(d.batch, ok)];
    HeadHasNoEnd(d.dropped);
    HeadHasNoEnd(d.batch);
    NoEndAppend(Puts(d.dropped), Commits(d.batch));
    NoEndAppend(Puts(d.dropped) + Commits(d.batch), [Write(d.batch, ok)]);
    if !ok {
      LostEnds(d.batch);
      EndsLastAppend(head, Lost(d.batch));
    } else {
      SentAllEnds(d.batch);
      if Ending(Write(d.batch, ok)) {
        EndsLastAppend(head, SentAll(d.batch));
      } else {
        NoEndAppend(head, SentAll(d.batch));
      }
    }
  }

  lemma TurnHasEnding(d: Drained, ok: bool)
    ensures HasEnding(TurnLog(d, ok)) <==> Ending(Write(d.batch, ok))
  {
    var head, w := Puts(d.dropped) + Commits(d.batch), Write(d.batch, ok);
    var tail := if ok then SentAll(d.batch) else Lost(d.batch);
    PutsNoWrite(d.dropped);
    PutsNoWrite(d.batch);
    AfterNoWrite(d.batch);
    assert TurnLog(d, ok)[|head|] == w;
    assert forall i | 0 <= i < |TurnLog(d, ok)| && i != |head| :: !TurnLog(d, ok)[i].Write?;
  }

  lemma HasEndingAppend(a: seq<Event>, b: seq<Event>)
    ensures HasEnding(a + b) <==> HasEnding(a) || HasEnding(b)
  {
    if HasEnding(b) {
      var i :| 0 <= i < |b| && Ending(b[i]);
      assert (a + b)[|a| + i] == b[i];
    }
    if HasEnding(a) {
      var i :| 0 <= i < |a| && Ending(a[i]);
      assert (a + b)[i] == a[i];
    }
  }

  lemma OneTurnEnds(h: History, l: Limits, i: nat)
    requires Complete(h) && i < |h.queue|
    ensures var t := Turned(h, l, i);
            && (t.stop <==> HasEnding(t.log))
            && (if t.stop then EndsLast(t.log) else NoEnd(t.log))
  {
    var t := Turned(h, l, i);
    if h.active[i] {
      var d := Drain(h, l, [h.queue[i]], i + 1);
      DrainTerminates(h, l, [h.queue[i]], i + 1);
      assert t.log == TurnLog(d, h.writes[i]);
      TurnEnds(d, h.writes[i]);
      TurnHasEnding(d, h.writes[i]);
    }
  }

  /** For every history the loop ends the session exactly when a write fails or carries a
      successful answer to an unbind, as the last thing it does; otherwise it works
      through the whole queue. */
  lemma {:induction false} EndsExactlyWhenDue(h: History, l: Limits, i: nat)
    requires Complete(h) && i <= |h.queue|
    ensures var o := Run(h, l, i);
            if HasEnding(o.log) then EndsLast(o.log) else NoEnd(o.log) && o.end == |h.queue|
    decreases |h.queue| - i
  {
    if i == |h.queue| {
    } else {
      var t := Turned(h, l, i);
      OneTurnEnds(h, l, i);
      if !t.stop {
        var o := Run(h, l, t.next);
        EndsExactlyWhenDue(h, l, t.next);
        HasEndingAppend(t.log, o.log);
        if HasEnding(o.log) {
          EndsLastAppend(t.log, o.log);
        } else {
          NoEndAppend(t.log, o.log);
        }
      }
    }
  }

  // ----- Batches are not cut short -----

  function Sizes(xs: seq<Item>): (n: nat)
  {
    if xs == [] then 0 else |xs[0].frame| + Sizes(xs[1..])
  }

  lemma {:induction false} SizesAppend(xs: seq<Item>, ys: seq<Item>)
    ensures Sizes(xs + ys) == Sizes(xs) + Sizes(ys)
  {
    if xs == [] {
      assert xs + ys == ys;
    } else {
      assert (xs + ys)[0] == xs[0] && (xs + ys)[1..] == xs[1..] + ys;
      SizesAppend(xs[1..], ys);
    }
  }

  lemma {:induction false} OctetsAreSizes(xs: seq<Item>)
    ensures Octets(xs) == Sizes(xs)
  {
    if xs == [] {
    } else {
      var n := |xs| - 1;
      OctetsAreSizes(xs[..n]);
      SizesAppend(xs[..n], [xs[n]]);
      assert xs == xs[..n] + [xs[n]] && Sizes([xs[n]]) == |xs[n].frame| by { assert [xs[n]][1..] == []; }
    }
  }

  /** A batch stops growing only at an answer to an unbind, at the item limit, at the octet
      limit, or where nothing more is queued yet; all it took was queued by then. */
  lemma {:induction false} BatchesAreNotCutShort(h: History, l: Limits, batch: seq<Item>, i: nat)
    requires Complete(h) && batch != [] && i <= |h.queue|
    ensures var d := Drain(h, l, batch, i);
            && (forall k | i <= k < d.next :: h.ready[k])
            && (|| d.batch[|d.batch| - 1].kind == Response(Some(Lifecycle.Unbind), true)
                || |d.batch| >= l.items || Sizes(d.batch) >= l.octets
                || d.next == |h.queue| || !h.ready[d.next])
    decreases |h.queue| - i
  {
    OctetsAreSizes(batch);
    if Full(l, batch) || i == |h.queue| || !h.ready[i] {
    } else if !h.active[i] {
      BatchesAreNotCutShort(h, l, batch, i + 1);
    } else {
      BatchesAreNotCutShort(h, l, batch + [h.queue[i]], i + 1);
    }
  }
}
