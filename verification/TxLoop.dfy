/** The transmit loop of a session (session/tx.go): batching, commit before write, and
    the single owner of every frame buffer. */
module TxLoop {
  import opened Bytes
  import opened Lifecycle

  /** A response names the request it answers, unless it is a generic_nack. */
  datatype Kind = Request | OneWay | Response(to: Option<Command>, ok: bool)

  /** A queue item; buf identifies its pooled frame buffer. */
  datatype Item = Item(buf: nat, frame: bytes, kind: Kind)

  predicate TerminatesAfterWrite(x: Item)
  {
    x.kind.Response? && x.kind.to == Some(Unbind) && x.kind.ok
  }

  predicate NeedsCommit(x: Item) { x.kind.Response? && x.kind.to.Some? }

  /** What the loop does, in order. Write and Trace read frames; Put gives the buffer
      back to the pool. */
  datatype Event =
    | Commit(item: Item)
    | Write(batch: seq<Item>, ok: bool)
    | Trace(item: Item)
    | Put(item: Item)
    | Dispatched(item: Item, ok: bool)
    | Mark(item: Item)
    | Terminate

  /** A queue history: the items in queue order; whether each is active when it is
      dequeued; whether it is already queued when a draining loop looks for it; whether a
      write that starts with it succeeds, and the time at which that write starts. */
  datatype History = History(
    queue: seq<Item>, active: seq<bool>, ready: seq<bool>, writes: seq<bool>, times: seq<int>)

  predicate Complete(h: History)
  {
    |h.active| == |h.ready| == |h.writes| == |h.times| == |h.queue|
  }

  datatype Limits = Limits(items: nat, octets: nat)

  function Octets(batch: seq<Item>): (n: nat)
  {
    if batch == [] then 0 else Octets(batch[..|batch| - 1]) + |batch[|batch| - 1].frame|
  }

  predicate Full(l: Limits, batch: seq<Item>)
    requires batch != []
  {
    TerminatesAfterWrite(batch[|batch| - 1]) || |batch| >= l.items || Octets(batch) >= l.octets
  }

  // ----- Specification -----

  datatype Drained = Drained(batch: seq<Item>, dropped: seq<Item>, next: nat)

  /** What the draining loop adds to a batch from position i on. */
  function Drain(h: History, l: Limits, batch: seq<Item>, i: nat): (d: Drained)
    requires Complete(h) && batch != [] && i <= |h.queue|
    ensures i <= d.next <= |h.queue|
    ensures d.batch != []
    decreases |h.queue| - i
  {
    if Full(l, batch) || i == |h.queue| || !h.ready[i] then Drained(batch, [], i)
    else if !h.active[i] then
      var d := Drain(h, l, batch, i + 1);
      d.(dropped := [h.queue[i]] + d.dropped)
    else Drain(h, l, batch + [h.queue[i]], i + 1)
  }

  function Puts(xs: seq<Item>): (es: seq<Event>)
  {
    if xs == [] then [] else [Put(xs[0])] + Puts(xs[1..])
  }

  function Commits(xs: seq<Item>): (es: seq<Event>)
  {
    if xs == [] then [] else (if NeedsCommit(xs[0]) then [Commit(xs[0])] else []) + Commits(xs[1..])
  }

  /** After a successful write. */
  function Sent(x: Item): (es: seq<Event>)
  {
    [Trace(x), Put(x)] +
    (match x.kind
     case Request => [Mark(x)]
     case OneWay => [Dispatched(x, true)]
     case Response(_, _) => if TerminatesAfterWrite(x) then [Terminate] else [])
  }

  function SentAll(xs: seq<Item>): (es: seq<Event>)
  {
    if xs == [] then [] else Sent(xs[0]) + (if TerminatesAfterWrite(xs[0]) then [] else SentAll(xs[1..]))
  }

  /** After a failed write. */
  function Lost(xs: seq<Item>): (es: seq<Event>)
  {
    if xs == [] then [Terminate]
    else (if xs[0].kind.OneWay? then [Dispatched(xs[0], false)] else []) + [Put(xs[0])] + Lost(xs[1..])
  }

  datatype Turn = Turn(log: seq<Event>, next: nat, stop: bool)

  /** One turn of the outer loop from position i. */
  function Turned(h: History, l: Limits, i: nat): (t: Turn)
    requires Complete(h) && i < |h.queue|
    ensures i < t.next <= |h.queue|
  {
    if !h.active[i] then Turn([Put(h.queue[i])], i + 1, false)
    else
      var d := Drain(h, l, [h.queue[i]], i + 1);
      var head := Puts(d.dropped) + Commits(d.batch) + [Write(d.batch, h.writes[i])];
      if h.writes[i] then Turn(head + SentAll(d.batch), d.next, TerminatesAfterWrite(d.batch[|d.batch| - 1]))
      else Turn(head + Lost(d.batch), d.next, true)
  }

  datatype Outcome = Outcome(log: seq<Event>, end: nat)

  /** The whole loop from position i; when the queue is exhausted the session's end is
      what the loop sees next. */
  function Run(h: History, l: Limits, i: nat): (o: Outcome)
    requires Complete(h) && i <= |h.queue|
    ensures i <= o.end <= |h.queue|
    decreases |h.queue| - i
  {
    if i == |h.queue| then Outcome([], i)
    else
      var t := Turned(h, l, i);
      if t.stop then Outcome(t.log, t.next)
      else
        var o := Run(h, l, t.next);
        Outcome(t.log + o.log, o.end)
  }

  // ----- The write deadline -----

  /** A write that starts at `now` under the deadline `until`. */
  datatype Timed = Timed(now: int, until: int)

  /** The deadline of a write that starts at `now`: the one in force, unless less than half
      the timeout is left of it. */
  function Deadline(armed: Option<int>, now: int, timeout: int): (until: int)
    requires timeout > 0
  {
    if armed.None? || armed.value - now < timeout / 2 then now + timeout else armed.value
  }

  /** The writes of the loop from position i on, when `armed` is in force. */
  function Deadlines(h: History, l: Limits, i: nat, armed: Option<int>, timeout: int): (ws: seq<Timed>)
    requires Complete(h) && i <= |h.queue|
    decreases |h.queue| - i
  {
    if i == |h.queue| || timeout <= 0 then []
    else if !h.active[i] then Deadlines(h, l, i + 1, armed, timeout)
    else
      var t, until := Turned(h, l, i), Deadline(armed, h.times[i], timeout);
      [Timed(h.times[i], until)] + (if t.stop then [] else Deadlines(h, l, t.next, Some(until), timeout))
  }

  // ----- The loop itself -----

  method DrainQueue(h: History, l: Limits, first: Item, start: nat)
      returns (batch: seq<Item>, log: seq<Event>, next: nat)
    requires Complete(h) && start <= |h.queue|
    ensures var d := Drain(h, l, [first], start); batch == d.batch && log == Puts(d.dropped) && next == d.next
  {
    batch := [first];
    log := [];
    next := start;
    var octets := |first.frame|;
    var terminal := TerminatesAfterWrite(first);
    ghost var whole := Drain(h, l, batch, start);
    ghost var dropped: seq<Item> := [];
    while !terminal && |batch| < l.items && octets < l.octets
      invariant batch != [] && start <= next <= |h.queue| && octets == Octets(batch)
      invariant log == Puts(dropped)
      invariant whole == var d := Drain(h, l, batch, next); d.(dropped := dropped + d.dropped)
      invariant TerminatesAfterWrite(batch[|batch| - 1]) ==> terminal
      invariant terminal ==> TerminatesAfterWrite(batch[|batch| - 1]) || next == |h.queue| || !h.ready[next]
      decreases |h.queue| - next, !terminal
    {
      if next < |h.queue| && h.ready[next] {
        var item := h.queue[next];
        next := next + 1;
        if !h.active[next - 1] {
          log := log + [Put(item)];
          PutsSnoc(dropped, item);
          dropped := dropped + [item];
          continue;
        }
        batch := batch + [item];
        octets := octets + |item.frame|;
        terminal := TerminatesAfterWrite(item);
      } else {
        terminal := true;
      }
    }
    assert dropped + [] == dropped;
  }

  lemma {:induction false} PutsSnoc(xs: seq<Item>, x: Item)
    ensures Puts(xs + [x]) == Puts(xs) + [Put(x)]
  {
    if xs == [] {
    } else {
      assert (xs + [x])[1..] == xs[1..] + [x];
      PutsSnoc(xs[1..], x);
    }
  }

  method CommitBatch(batch: seq<Item>) returns (log: seq<Event>)
    ensures log == Commits(batch)
  {
    log := [];
    for i := 0 to |batch|
      invariant Commits(batch) == log + Commits(batch[i..])
    {
      assert batch[i..][1..] == batch[i + 1..];
      if NeedsCommit(batch[i]) {
        log := log + [Commit(batch[i])];
      }
    }
  }

  method AfterOne(item: Item) returns (log: seq<Event>)
    ensures log == Sent(item)
  {
    log := [Trace(item), Put(item)];
    if item.kind.OneWay? {
      log := log + [Dispatched(item, true)];
    }
    if item.kind.Request? {
      log := log + [Mark(item)];
    } else if TerminatesAfterWrite(item) {
      log := log + [Terminate];
    }
  }

  predicate AnyTerminates(batch: seq<Item>)
  {
    exists i | 0 <= i < |batch| :: TerminatesAfterWrite(batch[i])
  }

  /** The loop over a written batch; it returns at a terminating item. */
  method AfterWrite(batch: seq<Item>) returns (log: seq<Event>, stop: bool)
    ensures (log, stop) == (SentAll(batch), AnyTerminates(batch))
  {
    log := [];
    for i := 0 to |batch|
      invariant SentAll(batch) == log + SentAll(batch[i..])
      invariant forall j | 0 <= j < i :: !TerminatesAfterWrite(batch[j])
    {
      SentAllStep(log, batch, i);
      var one := AfterOne(batch[i]);
      log := log + one;
      if TerminatesAfterWrite(batch[i]) {
        assert log == SentAll(batch);
        return log, true;
      }
    }
    assert log == SentAll(batch);
    stop := false;
  }

  lemma SentAllStep(log: seq<Event>, batch: seq<Item>, i: nat)
    requires i < |batch|
    ensures log + SentAll(batch[i..]) ==
              (log + Sent(batch[i])) + (if TerminatesAfterWrite(batch[i]) then [] else SentAll(batch[i + 1..]))
  {
    assert batch[i..][1..] == batch[i + 1..];
  }

  method AfterFailure(batch: seq<Item>) returns (log: seq<Event>)
    ensures log == Lost(batch)
  {
    log := [];
    for i := 0 to |batch|
      invariant Lost(batch) == log + Lost(batch[i..])
    {
      assert batch[i..][1..] == batch[i + 1..];
      if batch[i].kind.OneWay? {
        log := log + [Dispatched(batch[i], false)];
      }
      log := log + [Put(batch[i])];
    }
    log := log + [Terminate];
  }

  /** Re-arms the deadline of the connection only when less than half of it is left. */
  method ArmWrite(armed: Option<int>, now: int, timeout: int) returns (until: Option<int>)
    ensures until == if timeout > 0 then Some(Deadline(armed, now, timeout)) else armed
  {
    until := armed;
    if timeout > 0 {
      if armed.None? || armed.value - now < timeout / 2 {
        until := Some(now + timeout);
      }
    }
  }

  /** Everything after the batch is drained: commit, deadline, write, and the write's
      aftermath. */
  method Transmit(batch: seq<Item>, ok: bool, armed: Option<int>, now: int, timeout: int)
      returns (log: seq<Event>, stop: bool, until: Option<int>)
    requires batch != [] && TerminatesOnlyLast(batch)
    ensures (log, stop) == (Commits(batch) + [Write(batch, ok)] + (if ok then SentAll(batch) else Lost(batch)),
                            !ok || TerminatesAfterWrite(batch[|batch| - 1]))
    ensures until == if timeout > 0 then Some(Deadline(armed, now, timeout)) else armed
  {
    log := CommitBatch(batch);
    until := ArmWrite(armed, now, timeout);
    log := log + [Write(batch, ok)];
    var more;
    if !ok {
      more := AfterFailure(batch);
      stop := true;
    } else {
      more, stop := AfterWrite(batch);
    }
    log := log + more;
  }

  predicate TerminatesOnlyLast(batch: seq<Item>)
  {
    forall i | 0 <= i < |batch| - 1 :: !TerminatesAfterWrite(batch[i])
  }

  lemma {:induction false} DrainTerminates(h: History, l: Limits, batch: seq<Item>, i: nat)
    requires Complete(h) && batch != [] && i <= |h.queue| && TerminatesOnlyLast(batch)
    ensures TerminatesOnlyLast(Drain(h, l, batch, i).batch)
    decreases |h.queue| - i
  {
    if Full(l, batch) || i == |h.queue| || !h.ready[i] {
    } else if !h.active[i] {
      DrainTerminates(h, l, batch, i + 1);
    } else {
      DrainTerminates(h, l, batch + [h.queue[i]], i + 1);
    }
  }

  method OneTurn(h: History, l: Limits, i: nat, armed: Option<int>, timeout: int)
      returns (log: seq<Event>, next: nat, stop: bool, until: Option<int>)
    requires Complete(h) && i < |h.queue|
    ensures Turn(log, next, stop) == Turned(h, l, i)
    ensures until == if h.active[i] && timeout > 0 then Some(Deadline(armed, h.times[i], timeout)) else armed
  {
    var item := h.queue[i];
    if !h.active[i] {
      return [Put(item)], i + 1, false, armed;
    }
    var batch, puts;
    batch, puts, next := DrainQueue(h, l, item, i + 1);
    DrainTerminates(h, l, [item], i + 1);
    var sent;
    sent, stop, until := Transmit(batch, h.writes[i], armed, h.times[i], timeout);
    log := puts + sent;
  }

  lemma DeadlinesStep(h: History, l: Limits, i: nat, armed: Option<int>, timeout: int, ws: seq<Timed>)
    requires Complete(h) && i < |h.queue|
    ensures !h.active[i] || timeout <= 0 ==>
              ws + Deadlines(h, l, i, armed, timeout) == ws + Deadlines(h, l, Turned(h, l, i).next, armed, timeout)
    ensures h.active[i] && timeout > 0 ==>
              var t, until := Turned(h, l, i), Deadline(armed, h.times[i], timeout);
              ws + Deadlines(h, l, i, armed, timeout) ==
              ws + [Timed(h.times[i], until)] + (if t.stop then [] else Deadlines(h, l, t.next, Some(until), timeout))
  {
  }

  /** The transmit loop over a queue history; no deadline is armed when it starts, and
      none at all for a timeout that is not positive. */
  method TransmitLoop(h: History, l: Limits, timeout: int) returns (log: seq<Event>, end: nat, writes: seq<Timed>)
    requires Complete(h)
    ensures Outcome(log, end) == Run(h, l, 0)
    ensures writes == Deadlines(h, l, 0, None, timeout)
  {
    log := [];
    end := 0;
    writes := [];
    var armed: Option<int> := None;
    while end < |h.queue|
      invariant end <= |h.queue|
      invariant Run(h, l, 0) == var o := Run(h, l, end); Outcome(log + o.log, o.end)
      invariant Deadlines(h, l, 0, None, timeout) == writes + Deadlines(h, l, end, armed, timeout)
    {
      DeadlinesStep(h, l, end, armed, timeout, writes);
      var turn, next, stop, until := OneTurn(h, l, end, armed, timeout);
      if h.active[end] && timeout > 0 {
        writes := writes + [Timed(h.times[end], until.value)];
      }
      armed := until;
      log := log + turn;
      end := next;
      if stop {
        return;
      }
    }
  }
}
