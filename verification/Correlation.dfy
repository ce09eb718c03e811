/** The request correlation engine of one session as a step system.

    A request takes a window token, reserves lifecycle state, draws a sequence number
    and enters the pending table; it is queued, written and given a deadline; and it is
    taken out of the table by a response, a timeout, its caller or the loss of the
    session. Every step is one locked region, one atomic or one channel operation of
    session/session.go, session/pending.go, session/tx.go, session/rx.go,
    session/liveness.go or session/window.go, and any two parties interleave freely. */
module Correlation {
  import opened Lifecycle

  type Id = nat

  /** Who took a request out of the table. */
  datatype Winner = ByResponse(ok: bool) | ByTimeout | ByCaller | ByLoss

  /** How far a request is. From Removed on, the winner works through `finish`
      (Finishing holds the deadline item it collected), the window release, and the two
      things left: the machine call and the value on the completion channel. */
  datatype Stage =
    | Acquired | Drawing | Listed
    | Removed(who: Winner) | Finishing(who: Winner, item: bool) | Cancelled(who: Winner)
    | Released(who: Winner) | Half(who: Winner) | Settled(who: Winner)
    | Abandoned(owes: bool) | Gone

  /** Where the goroutine that called Request is. */
  datatype Caller = Entering | Encoding | Waiting | Draining | Leaving | Owing | Returned

  /** Where the transmit loop is with the request's queue item. */
  datatype Tx =
    | NotQueued | Queued | Dropped | Batched | Failed
    | Written | Marked | Scheduled | Undoing | Dispatched

  datatype Timer = Off | InHeap | Expired

  datatype Request = Request(
    command: Command,
    stage: Stage,
    caller: Caller,
    tx: Tx,
    timer: Timer,
    seqno: nat,       // 0 until inserted
    finished: bool,
    attached: bool,   // the request points at its deadline item
    values: nat,      // values sent on the completion channel so far
    buffered: nat,    // values in the channel, whose capacity is 1
    late: bool)       // inserted after failAll took the table

  datatype Config = Config(window: nat, maxPending: nat)

  datatype Sys = Sys(
    cfg: Config,
    m: Machine,
    reqs: map<Id, Request>,
    table: map<nat, Id>,
    tokens: nat,
    underflows: nat,
    done: bool,       // the session's done channel is closed
    failed: bool,     // failAll has taken the table
    rxStopped: bool,
    txStopped: bool,
    runnerStopped: bool)

  predicate Normal(cfg: Config) { 0 < cfg.window <= cfg.maxPending }

  const DEFAULT_WINDOW := 1024
  const DEFAULT_MAX_PENDING := 1024

  /** New's normalisation of WindowSize and MaxPending. */
  function Normalised(windowSize: int, maxPending: int): (cfg: Config)
    ensures Normal(cfg)
    ensures windowSize > 0 ==> cfg.window == windowSize
    ensures windowSize <= 0 ==> cfg.window == 1024
    ensures maxPending > 0 ==> cfg.maxPending == if maxPending < cfg.window then cfg.window else maxPending
    ensures maxPending <= 0 ==> cfg.maxPending == if 1024 < cfg.window then cfg.window else 1024
  {
    var w := if windowSize <= 0 then DEFAULT_WINDOW else windowSize;
    var p := if maxPending <= 0 then DEFAULT_MAX_PENDING else maxPending;
    Config(w, if p < w then w else p)
  }

  function Init(cfg: Config, role: Role): (y: Sys)
  {
    Sys(cfg, Opened(role), map[], map[], 0, 0, false, false, false, false, false)
  }

  datatype Act =
    // the caller
    | Acquire(r: Id, c: Command) | Refuse(r: Id) | Begin(r: Id) | GiveUp(r: Id) | Insert(r: Id, s: nat)
    | EncodeFails(r: Id) | Enqueue(r: Id) | CancelUnsent(r: Id) | DoneUnsent(r: Id) | CancelWaiting(r: Id)
    | Receive(r: Id) | OweCancel(r: Id)
    // the winner, or a caller that never inserted
    | Advance(r: Id)
    // the transmit loop; `well` is whether the write succeeds, or the timeout is positive
    | TxStep(r: Id, well: bool)
    // the deadline runner
    | Expire(r: Id) | TimeOut(r: Id)
    // the receive loop
    | TakeResponse(s: nat, ok: bool)
    // termination
    | CloseMachine | CloseDone | FailAll | StopRx | StopTx | StopRunner
    // every other call on the machine: inbound requests and one-way sends
    | Other(op: Op)

  // ----- What the code does to one request -----

  predicate Won(g: Stage)
  {
    g.Removed? || g.Finishing? || g.Cancelled? || g.Released? || g.Half? || g.Settled?
  }

  /** The request still owes the window its token. */
  predicate Holds(g: Stage)
  {
    g.Acquired? || g.Drawing? || g.Listed? || g.Removed? || g.Finishing? || g.Cancelled? || g.Abandoned?
  }

  /** BeginOutbound has reserved for the request and no call has settled it yet. */
  predicate Reserved(g: Stage)
  {
    match g
    case Drawing | Listed => true
    case Removed(_) | Finishing(_, _) | Cancelled(_) | Released(_) => true
    case Half(who) => !who.ByResponse?
    case Settled(who) => who.ByLoss?
    case Abandoned(owes) => owes
    case Acquired | Gone => false
  }

  /** The winner's next step calls the machine. */
  predicate CallsMachine(g: Stage)
  {
    match g
    case Released(who) => who.ByResponse?
    case Half(who) => who.ByTimeout? || who.ByCaller?
    case Abandoned(owes) => owes
    case _ => false
  }

  /** The winner's next step sends on the completion channel. */
  predicate Sends(g: Stage)
  {
    match g
    case Released(who) => !who.ByResponse?
    case Half(who) => who.ByResponse?
    case _ => false
  }

  predicate ReleasesToken(g: Stage) { g.Cancelled? || g == Abandoned(false) }

  predicate CanAdvance(q: Request)
  {
    && (q.stage.Abandoned? || (Won(q.stage) && !q.stage.Settled?))
    && (Sends(q.stage) ==> q.buffered < 1)
  }

  /** deadlineManager.cancel on the request's item. */
  function Unscheduled(t: Timer): (u: Timer) { if t.InHeap? then Off else t }

  function Advanced(q: Request): (p: Request)
    requires CanAdvance(q)
  {
    match q.stage
    case Removed(who) =>
      if q.finished then q.(stage := Finishing(who, false))
      else q.(stage := Finishing(who, q.attached), finished := true, attached := false)
    case Finishing(who, item) =>
      q.(stage := Cancelled(who), timer := if item then Unscheduled(q.timer) else q.timer)
    case Cancelled(who) => q.(stage := Released(who))
    case Released(who) =>
      if who.ByResponse? then q.(stage := Half(who))
      else q.(stage := if who.ByLoss? then Settled(who) else Half(who),
              values := q.values + 1, buffered := q.buffered + 1)
    case Half(who) =>
      if who.ByResponse? then q.(stage := Settled(who), values := q.values + 1, buffered := q.buffered + 1)
      else q.(stage := Settled(who))
    case Abandoned(owes) => if owes then q.(stage := Abandoned(false)) else q.(stage := Gone, caller := Returned)
  }

  predicate TxCanStep(q: Request)
  {
    q.tx.Queued? || q.tx.Batched? || q.tx.Written? || q.tx.Marked? || q.tx.Scheduled? || q.tx.Undoing?
  }

  function TxMoved(q: Request, listed: bool, well: bool): (p: Request)
    requires TxCanStep(q)
  {
    match q.tx
    case Queued => q.(tx := if listed then Batched else Dropped)
    case Batched => q.(tx := if well then Written else Failed)
    case Written => q.(tx := if listed then Marked else Dispatched)
    case Marked => if well then q.(tx := Scheduled, timer := InHeap) else q.(tx := Dispatched)
    case Scheduled => if q.finished then q.(tx := Undoing) else q.(tx := Dispatched, attached := true)
    case Undoing => q.(tx := Dispatched, timer := Unscheduled(q.timer))
  }

  // ----- Steps -----

  /** Someone may still use the request's sequence number: to look it up, or because
      it is queued or timed under it. */
  predicate Carries(q: Request)
  {
    || q.stage.Listed? || q.caller.Encoding? || q.caller.Waiting?
    || q.tx.Queued? || q.tx.Batched? || q.tx.Written? || q.tx.Marked? || q.tx.Scheduled?
    || !q.timer.Off?
  }

  /** A number is not reissued while something carrying it is in flight. */
  predicate Unused(y: Sys, s: nat)
  {
    forall r | r in y.reqs && Carries(y.reqs[r]) :: y.reqs[r].seqno != s
  }

  predicate At(y: Sys, r: Id, c: Caller) { r in y.reqs && y.reqs[r].caller == c }

  /** Calls that are not made for a request: inbound traffic and one-way sends. */
  predicate NotForRequest(op: Op)
  {
    !op.DoClose? &&
    (op.DoBeginOutbound? || op.DoCancelOutbound? || op.DoCompleteOutbound? ==> IsOneWay(op.c))
  }

  predicate Enabled(y: Sys, a: Act)
  {
    match a
    case Acquire(r, c) => r !in y.reqs && y.tokens < y.cfg.window && !IsOneWay(c)
    case Refuse(r) => r in y.reqs && y.reqs[r].stage.Acquired? && !AcceptsOutbound(y.m, y.reqs[r].command)
    case Begin(r) => r in y.reqs && y.reqs[r].stage.Acquired? && AcceptsOutbound(y.m, y.reqs[r].command)
    case GiveUp(r) => r in y.reqs && y.reqs[r].stage.Drawing?
    case Insert(r, s) =>
      r in y.reqs && y.reqs[r].stage.Drawing? && 0 < s && s !in y.table && |y.table| < y.cfg.maxPending && Unused(y, s)
    case EncodeFails(r) => At(y, r, Encoding)
    case Enqueue(r) => At(y, r, Encoding)
    case CancelUnsent(r) => At(y, r, Encoding)
    case DoneUnsent(r) => At(y, r, Encoding) && y.done
    case CancelWaiting(r) => At(y, r, Waiting)
    case Receive(r) => (At(y, r, Waiting) || At(y, r, Draining)) && y.reqs[r].buffered > 0
    case OweCancel(r) => At(y, r, Owing)
    case Advance(r) => r in y.reqs && CanAdvance(y.reqs[r])
    case TxStep(r, _) => r in y.reqs && TxCanStep(y.reqs[r]) && !y.txStopped
    case Expire(r) => r in y.reqs && y.reqs[r].timer.InHeap? && !y.runnerStopped
    case TimeOut(r) => r in y.reqs && y.reqs[r].timer.Expired? && !y.runnerStopped
    case TakeResponse(s, _) => s in y.table && !y.rxStopped
    case CloseMachine => true
    case CloseDone => y.m.state.Closed?
    case FailAll => y.done && !y.failed
    case StopRx => y.done
    case StopTx => y.done && forall r | r in y.reqs :: y.reqs[r].tx.Queued? || !TxCanStep(y.reqs[r])
    case StopRunner => y.done
    case Other(op) => NotForRequest(op)
  }

  function Put(y: Sys, r: Id, q: Request): (z: Sys) { y.(reqs := y.reqs[r := q]) }

  /** The table's entry for s leaves it; nothing happens when there is none. */
  function Take(y: Sys, s: nat, who: Winner): (z: Sys)
  {
    if s in y.table && y.table[s] in y.reqs then
      y.(table := y.table - {s}, reqs := y.reqs[y.table[s] := y.reqs[y.table[s]].(stage := Removed(who))])
    else y
  }

  /** A caller's completeError: it moves to `won` when it took the entry. */
  function CallerTakes(y: Sys, r: Id, lost: Caller): (z: Sys)
    requires r in y.reqs
  {
    var s := y.reqs[r].seqno;
    var z := Take(y, s, ByCaller);
    Put(z, r, z.reqs[r].(caller := if s in y.table then Leaving else lost))
  }

  /** The machine call the winner makes for a request. */
  function CallOf(q: Request): (op: Op)
    requires CallsMachine(q.stage)
  {
    if q.stage.Released? then DoCompleteOutbound(q.command, q.stage.who.ok) else DoCancelOutbound(q.command)
  }

  function Next(y: Sys, a: Act): (z: Sys)
    requires Enabled(y, a)
  {
    match a
    case Acquire(r, c) =>
      Put(y, r, Request(c, Acquired, Entering, NotQueued, Off, 0, false, false, 0, 0, false)).(tokens := y.tokens + 1)
    case Refuse(r) => Put(y, r, y.reqs[r].(stage := Abandoned(false)))
    case Begin(r) => Put(y, r, y.reqs[r].(stage := Drawing)).(m := BeginOutbound(y.m, y.reqs[r].command))
    case GiveUp(r) => Put(y, r, y.reqs[r].(stage := Abandoned(true)))
    case Insert(r, s) =>
      Put(y, r, y.reqs[r].(stage := Listed, caller := Encoding, seqno := s, late := y.failed))
      .(table := y.table[s := r])
    case EncodeFails(r) => CallerTakes(y, r, Owing)
    case Enqueue(r) => Put(y, r, y.reqs[r].(caller := Waiting, tx := Queued))
    case CancelUnsent(r) => CallerTakes(y, r, Draining)
    case DoneUnsent(r) => Put(y, r, y.reqs[r].(caller := Draining))
    case CancelWaiting(r) => CallerTakes(y, r, Draining)
    case Receive(r) => Put(y, r, y.reqs[r].(caller := Returned, buffered := y.reqs[r].buffered - 1))
    case OweCancel(r) => Put(y, r, y.reqs[r].(caller := Returned)).(m := CancelOutbound(y.m, y.reqs[r].command))
    case Advance(r) =>
      var q := y.reqs[r];
      var z := Put(y, r, Advanced(q)).(m := if CallsMachine(q.stage) then Apply(y.m, CallOf(q)) else y.m);
      if !ReleasesToken(q.stage) then z
      else if y.tokens > 0 then z.(tokens := y.tokens - 1)
      else z.(underflows := y.underflows + 1)
    case TxStep(r, well) => Put(y, r, TxMoved(y.reqs[r], y.reqs[r].seqno in y.table, well))
    case Expire(r) => Put(y, r, y.reqs[r].(timer := Expired))
    case TimeOut(r) => Take(Put(y, r, y.reqs[r].(timer := Off)), y.reqs[r].seqno, ByTimeout)
    case TakeResponse(s, ok) => Take(y, s, ByResponse(ok))
    case CloseMachine => y.(m := Close(y.m))
    case CloseDone => y.(done := true)
    case FailAll =>
      y.(failed := true, table := map[],
         reqs := map r | r in y.reqs :: if r in y.table.Values then y.reqs[r].(stage := Removed(ByLoss)) else y.reqs[r])
    case StopRx => y.(rxStopped := true)
    case StopTx => y.(txStopped := true)
    case StopRunner => y.(runnerStopped := true)
    case Other(op) => y.(m := Apply(y.m, op))
  }
}
