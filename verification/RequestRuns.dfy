/** One request from its first step to its last: the run in which it is answered, from any
    state that lets it start (session/session.go, session/tx.go, session/rx.go). */
module RequestRuns {
  import opened Lifecycle
  import opened Correlation
  import opened CorrelationLaws
  import opened Dispatching

  /** The session y with one more request r, which holds a token or not and is listed under
      its number or not. */
  function With(y: Sys, r: Id, q: Request, m: Machine, token: bool): (z: Sys)
  {
    y.(m := m, reqs := y.reqs[r := q],
       table := if q.stage.Listed? then y.table[q.seqno := r] else y.table,
       tokens := if token then y.tokens + 1 else y.tokens)
  }

  /** A request of command c under number s that is not queued yet. */
  function Fresh(c: Command, g: Stage, caller: Caller, s: nat, late: bool): (q: Request)
  {
    Request(c, g, caller, NotQueued, Off, s, false, false, 0, 0, late)
  }

  ghost predicate Reaches(y: Sys, z: Sys) { exists acts: seq<Act> :: IsRun(y, acts) && RunTo(y, acts) == z }

  lemma ReachNothing(y: Sys)
    ensures Reaches(y, y)
  {
    assert IsRun(y, []) && RunTo(y, []) == y;
  }

  lemma Then(y: Sys, z: Sys, a: Act, w: Sys)
    requires Reaches(y, z) && Enabled(z, a) && Next(z, a) == w
    ensures Reaches(y, w)
  {
    var acts: seq<Act> :| IsRun(y, acts) && RunTo(y, acts) == z;
    RunSnoc(y, acts, a);
  }

  /** Everything a request needs to start. */
  predicate CanStart(y: Sys, r: Id, c: Command, s: nat)
  {
    && r !in y.reqs && y.tokens < y.cfg.window && AcceptsOutbound(y.m, c) && !IsOneWay(c)
    && 0 < s && s !in y.table && |y.table| < y.cfg.maxPending && Unused(y, s)
  }

  // ----- Each step -----

  lemma AcquireIs(y: Sys, r: Id, c: Command)
    requires r !in y.reqs && y.tokens < y.cfg.window && !IsOneWay(c)
    ensures Enabled(y, Acquire(r, c))
    ensures Next(y, Acquire(r, c)) == With(y, r, Fresh(c, Acquired, Entering, 0, false), y.m, true)
  {
  }

  lemma BeginIs(y: Sys, r: Id, c: Command)
    requires AcceptsOutbound(y.m, c)
    ensures var z := With(y, r, Fresh(c, Acquired, Entering, 0, false), y.m, true);
            && Enabled(z, Begin(r))
            && Next(z, Begin(r)) == With(y, r, Fresh(c, Drawing, Entering, 0, false), BeginOutbound(y.m, c), true)
  {
    var q := Fresh(c, Acquired, Entering, 0, false);
    assert y.reqs[r := q][r := q.(stage := Drawing)] == y.reqs[r := q.(stage := Drawing)];
  }

  lemma UnusedStill(y: Sys, r: Id, q: Request, m: Machine, s: nat)
    requires Unused(y, s) && q.seqno != s && !q.stage.Listed?
    ensures Unused(With(y, r, q, m, true), s)
  {
  }

  lemma InsertIs(y: Sys, r: Id, c: Command, s: nat, m: Machine)
    requires CanStart(y, r, c, s)
    ensures var z := With(y, r, Fresh(c, Drawing, Entering, 0, false), m, true);
            && Enabled(z, Insert(r, s))
            && Next(z, Insert(r, s)) == With(y, r, Fresh(c, Listed, Encoding, s, y.failed), m, true)
  {
    var q, p := Fresh(c, Drawing, Entering, 0, false), Fresh(c, Listed, Encoding, s, y.failed);
    UnusedStill(y, r, q, m, s);
    assert y.reqs[r := q][r := p] == y.reqs[r := p];
  }

  lemma EnqueueIs(y: Sys, r: Id, q: Request, m: Machine)
    requires q.stage.Listed? && q.caller.Encoding?
    ensures var z := With(y, r, q, m, true);
            Enabled(z, Enqueue(r)) && Next(z, Enqueue(r)) == With(y, r, q.(caller := Waiting, tx := Queued), m, true)
  {
    assert y.reqs[r := q][r := q.(caller := Waiting, tx := Queued)] == y.reqs[r := q.(caller := Waiting, tx := Queued)];
  }

  lemma TxIs(y: Sys, r: Id, q: Request, m: Machine)
    requires q.stage.Listed? && TxCanStep(q) && !y.txStopped
    ensures var z := With(y, r, q, m, true);
            Enabled(z, TxStep(r, true)) && Next(z, TxStep(r, true)) == With(y, r, TxMoved(q, true, true), m, true)
  {
    var p := TxMoved(q, true, true);
    assert y.reqs[r := q][r := p] == y.reqs[r := p];
  }

  lemma ResponseIs(y: Sys, r: Id, q: Request, m: Machine, ok: bool)
    requires q.stage.Listed? && q.seqno !in y.table && !y.rxStopped
    ensures var z := With(y, r, q, m, true);
            && Enabled(z, TakeResponse(q.seqno, ok))
            && Next(z, TakeResponse(q.seqno, ok)) == With(y, r, q.(stage := Removed(ByResponse(ok))), m, true)
  {
    var p := q.(stage := Removed(ByResponse(ok)));
    assert y.reqs[r := q][r := p] == y.reqs[r := p];
    assert y.table[q.seqno := r] - {q.seqno} == y.table;
  }

  /** A step of the winner that neither calls the machine nor gives the token back. */
  lemma AdvanceIs(y: Sys, r: Id, q: Request, m: Machine, token: bool)
    requires Won(q.stage) && CanAdvance(q) && !CallsMachine(q.stage) && !ReleasesToken(q.stage)
    ensures var z := With(y, r, q, m, token);
            Enabled(z, Advance(r)) && Next(z, Advance(r)) == With(y, r, Advanced(q), m, token)
  {
    var p := Advanced(q);
    assert y.reqs[r := q][r := p] == y.reqs[r := p];
  }

  lemma ReleaseIs(y: Sys, r: Id, q: Request, m: Machine)
    requires q.stage.Cancelled?
    ensures var z := With(y, r, q, m, true);
            Enabled(z, Advance(r)) && Next(z, Advance(r)) == With(y, r, Advanced(q), m, false)
  {
    var p := Advanced(q);
    assert y.reqs[r := q][r := p] == y.reqs[r := p];
  }

  lemma TellIs(y: Sys, r: Id, q: Request, m: Machine)
    requires q.stage.Released? && q.stage.who.ByResponse?
    ensures var z := With(y, r, q, m, false);
            && Enabled(z, Advance(r))
            && Next(z, Advance(r)) == With(y, r, Advanced(q), CompleteOutbound(m, q.command, q.stage.who.ok), false)
  {
    var p := Advanced(q);
    assert y.reqs[r := q][r := p] == y.reqs[r := p];
  }

  lemma ReceiveIs(y: Sys, r: Id, q: Request, m: Machine)
    requires q.stage.Settled? && q.caller.Waiting? && q.buffered > 0
    ensures var z, p := With(y, r, q, m, false), q.(caller := Returned, buffered := q.buffered - 1);
            Enabled(z, Receive(r)) && Next(z, Receive(r)) == With(y, r, p, m, false)
  {
    var p := q.(caller := Returned, buffered := q.buffered - 1);
    assert y.reqs[r := q][r := p] == y.reqs[r := p];
  }

  // ----- The run -----

  lemma Listing(y: Sys, r: Id, c: Command, s: nat)
    requires CanStart(y, r, c, s)
    ensures Reaches(y, With(y, r, Fresh(c, Listed, Encoding, s, y.failed), BeginOutbound(y.m, c), true))
  {
    var m := BeginOutbound(y.m, c);
    ReachNothing(y);
    AcquireIs(y, r, c);
    Then(y, y, Acquire(r, c), With(y, r, Fresh(c, Acquired, Entering, 0, false), y.m, true));
    BeginIs(y, r, c);
    var z := With(y, r, Fresh(c, Drawing, Entering, 0, false), m, true);
    Then(y, With(y, r, Fresh(c, Acquired, Entering, 0, false), y.m, true), Begin(r), z);
    InsertIs(y, r, c, s, m);
    Then(y, z, Insert(r, s), With(y, r, Fresh(c, Listed, Encoding, s, y.failed), m, true));
  }

  /** The request once the transmit loop is through with it. */
  function Timed(q: Request): (p: Request) { q.(tx := Dispatched, timer := InHeap, attached := true) }

  predicate OnItsWay(q: Request)
  {
    q.stage.Listed? && !q.finished && TxCanStep(q) && !q.tx.Undoing? && (q.tx.Scheduled? ==> q.timer.InHeap?)
  }

  lemma TxMovedIs(q: Request)
    requires OnItsWay(q)
    ensures var p := TxMoved(q, true, true);
            && Left(q.tx) == Left(p.tx) + 1
            && if q.tx.Scheduled? then p == Timed(q) else OnItsWay(p) && Timed(p) == Timed(q)
  {
  }

  lemma {:induction false} Transmitting(y0: Sys, y: Sys, r: Id, q: Request, m: Machine, n: nat)
    requires Reaches(y0, With(y, r, q, m, true)) && OnItsWay(q) && !y.txStopped && n == Left(q.tx)
    ensures Reaches(y0, With(y, r, Timed(q), m, true))
    decreases n
  {
    var p := TxMoved(q, true, true);
    TxIs(y, r, q, m);
    TxMovedIs(q);
    Then(y0, With(y, r, q, m, true), TxStep(r, true), With(y, r, p, m, true));
    if q.tx.Scheduled? {
    } else {
      Transmitting(y0, y, r, p, m, n - 1);
    }
  }

  /** The request behind its answer, stage by stage. */
  function Answered(c: Command, g: Stage, timer: Timer, s: nat, late: bool): (q: Request)
  {
    var open := g.Removed?;
    var sent := if g.Settled? then 1 else 0;
    Request(c, g, Waiting, Dispatched, timer, s, !open, open, sent, sent, late)
  }

  lemma Winning(y0: Sys, y: Sys, r: Id, c: Command, s: nat, m: Machine, who: Winner)
    requires Reaches(y0, With(y, r, Answered(c, Removed(who), InHeap, s, y.failed), m, true)) && who.ByResponse?
    ensures Reaches(y0, With(y, r, Answered(c, Released(who), Off, s, y.failed), m, false))
  {
    var q0 := Answered(c, Removed(who), InHeap, s, y.failed);
    var q1 := Answered(c, Finishing(who, true), InHeap, s, y.failed);
    var q2 := Answered(c, Cancelled(who), Off, s, y.failed);
    AdvanceIs(y, r, q0, m, true);
    Then(y0, With(y, r, q0, m, true), Advance(r), With(y, r, q1, m, true));
    AdvanceIs(y, r, q1, m, true);
    Then(y0, With(y, r, q1, m, true), Advance(r), With(y, r, q2, m, true));
    ReleaseIs(y, r, q2, m);
    Then(y0, With(y, r, q2, m, true), Advance(r), With(y, r, Answered(c, Released(who), Off, s, y.failed), m, false));
  }

  lemma AnsweredAdvances(c: Command, s: nat, late: bool, ok: bool)
    ensures var who := ByResponse(ok);
            var q3, q4 := Answered(c, Released(who), Off, s, late), Answered(c, Half(who), Off, s, late);
            && CanAdvance(q3) && Advanced(q3) == q4
            && CanAdvance(q4) && Advanced(q4) == Answered(c, Settled(who), Off, s, late)
  {
  }

  lemma Telling(y0: Sys, y: Sys, r: Id, c: Command, s: nat, m: Machine, ok: bool)
    requires Reaches(y0, With(y, r, Answered(c, Released(ByResponse(ok)), Off, s, y.failed), m, false))
    ensures Reaches(y0, With(y, r, Answered(c, Settled(ByResponse(ok)), Off, s, y.failed), CompleteOutbound(m, c, ok),
                             false))
  {
    var q3, n := Answered(c, Released(ByResponse(ok)), Off, s, y.failed), CompleteOutbound(m, c, ok);
    var q4 := Answered(c, Half(ByResponse(ok)), Off, s, y.failed);
    AnsweredAdvances(c, s, y.failed, ok);
    TellIs(y, r, q3, m);
    Then(y0, With(y, r, q3, m, false), Advance(r), With(y, r, q4, n, false));
    AdvanceIs(y, r, q4, n, false);
    Then(y0, With(y, r, q4, n, false), Advance(r),
         With(y, r, Answered(c, Settled(ByResponse(ok)), Off, s, y.failed), n, false));
  }

  lemma Timing(y: Sys, r: Id, c: Command, s: nat)
    requires CanStart(y, r, c, s) && !y.txStopped
    ensures Reaches(y, With(y, r, Timed(Fresh(c, Listed, Waiting, s, y.failed)), BeginOutbound(y.m, c), true))
  {
    var q, m := Fresh(c, Listed, Encoding, s, y.failed), BeginOutbound(y.m, c);
    Listing(y, r, c, s);
    EnqueueIs(y, r, q, m);
    var queued := q.(caller := Waiting, tx := Queued);
    Then(y, With(y, r, q, m, true), Enqueue(r), With(y, r, queued, m, true));
    Transmitting(y, y, r, queued, m, 5);
  }

  /** A request that finds a token, a state that allows it, a free number and room in the
      table can be listed, queued, written, timed, answered either way and returned to its
      caller with the one value it is sent; afterwards its deadline is cancelled, table and
      window are as before, and the machine is as the answer leaves it. */
  lemma RequestIsServed(y: Sys, r: Id, c: Command, s: nat, ok: bool)
    requires CanStart(y, r, c, s) && !y.txStopped && !y.rxStopped
    ensures var q := Request(c, Settled(ByResponse(ok)), Returned, Dispatched, Off, s, true, false, 1, 0, y.failed);
            Reaches(y, y.(m := CompleteOutbound(BeginOutbound(y.m, c), c, ok), reqs := y.reqs[r := q]))
  {
    var m := BeginOutbound(y.m, c);
    var timed := Timed(Fresh(c, Listed, Waiting, s, y.failed));
    Timing(y, r, c, s);
    ResponseIs(y, r, timed, m, ok);
    Then(y, With(y, r, timed, m, true), TakeResponse(s, ok),
         With(y, r, Answered(c, Removed(ByResponse(ok)), InHeap, s, y.failed), m, true));
    Winning(y, y, r, c, s, m, ByResponse(ok));
    Telling(y, y, r, c, s, m, ok);
    var settled, n := Answered(c, Settled(ByResponse(ok)), Off, s, y.failed), CompleteOutbound(m, c, ok);
    ReceiveIs(y, r, settled, n);
    Then(y, With(y, r, settled, n, false), Receive(r),
         With(y, r, settled.(caller := Returned, buffered := 0), n, false));
  }
}
