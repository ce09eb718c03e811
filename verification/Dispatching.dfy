/** From the queue to the deadline: a queued request is written, marked and timed
    (session/tx.go, session/deadline.go), and a timed request can time out. */
module Dispatching {
  import opened Lifecycle
  import opened Correlation
  import opened CorrelationLaws
  import opened CorrelationResults

  /** A listed request that the transmit loop has dispatched has its deadline running. */
  predicate Armed(q: Request)
  {
    && (q.stage.Listed? && (q.tx.Scheduled? || q.tx.Dispatched?) ==> !q.timer.Off?)
    && (q.stage.Listed? && q.tx.Dispatched? ==> q.attached)
  }

  predicate AllArmed(y: Sys) { forall r | r in y.reqs :: Armed(y.reqs[r]) }

  /** Requests whose timeout is not positive are dispatched without a deadline; these runs
      have none. */
  predicate HasTimeout(y: Sys, a: Act) { a.TxStep? && a.r in y.reqs && y.reqs[a.r].tx.Marked? ==> a.well }

  lemma PutArmed(y: Sys, z: Sys, r: Id, q: Request)
    requires AllArmed(y) && z.reqs == y.reqs[r := q] && Armed(q)
    ensures AllArmed(z)
  {
  }

  lemma TxMovedArmed(q: Request, failed: bool, well: bool)
    requires ReqOk(q, failed) && Armed(q) && TxCanStep(q) && (q.tx.Marked? ==> well)
    ensures Armed(TxMoved(q, q.stage.Listed?, well))
  {
  }

  lemma TxIs(y: Sys, a: Act)
    requires CoreInv(y) && Enabled(y, a) && a.TxStep?
    ensures Next(y, a) == Put(y, a.r, TxMoved(y.reqs[a.r], y.reqs[a.r].stage.Listed?, a.well))
  {
    if !y.reqs[a.r].tx.Undoing? {
      FindsOwn(y, a.r);
    }
  }

  lemma TxArmed(y: Sys, a: Act)
    requires CoreInv(y) && AllArmed(y) && Enabled(y, a) && a.TxStep? && HasTimeout(y, a)
    ensures AllArmed(Next(y, a))
  {
    TxIs(y, a);
    var q := y.reqs[a.r];
    assert ReqOk(q, y.failed) && Armed(q);
    TxMovedArmed(q, y.failed, a.well);
    PutArmed(y, Next(y, a), a.r, TxMoved(q, q.stage.Listed?, a.well));
  }

  lemma SimpleArmed(y: Sys, a: Act)
    requires CoreInv(y) && AllArmed(y) && Enabled(y, a) && Simple(a)
    ensures AllArmed(Next(y, a))
  {
    if !a.Acquire? {
      assert ReqOk(y.reqs[a.r], y.failed) && Armed(y.reqs[a.r]);
    }
    PutArmed(y, Next(y, a), a.r, Next(y, a).reqs[a.r]);
  }

  lemma CallerArmed(y: Sys, a: Act)
    requires CoreInv(y) && AllArmed(y) && Enabled(y, a) && (a.EncodeFails? || a.CancelUnsent? || a.CancelWaiting?)
    ensures AllArmed(Next(y, a))
  {
    CallerStepIs(y, a);
    assert Armed(y.reqs[a.r]);
    PutArmed(y, Next(y, a), a.r, CallerTook(y.reqs[a.r], if a.EncodeFails? then Owing else Draining));
  }

  lemma TimeOutArmed(y: Sys, a: Act)
    requires CoreInv(y) && AllArmed(y) && Enabled(y, a) && a.TimeOut?
    ensures AllArmed(Next(y, a))
  {
    TimeOutIs(y, a.r);
    PutArmed(y, Next(y, a), a.r, Next(y, a).reqs[a.r]);
  }

  lemma TakeArmed(y: Sys, a: Act)
    requires CoreInv(y) && AllArmed(y) && Enabled(y, a) && (a.TakeResponse? || a.FailAll?)
    ensures AllArmed(Next(y, a))
  {
    if a.TakeResponse? {
      PutArmed(y, Next(y, a), y.table[a.s], Next(y, a).reqs[y.table[a.s]]);
    }
  }

  lemma AdvancedIsArmed(q: Request)
    requires CanAdvance(q)
    ensures Armed(Advanced(q))
  {
  }

  lemma UntouchedArmed(y: Sys, a: Act)
    requires AllArmed(y) && Enabled(y, a) && Untouched(a)
    ensures AllArmed(Next(y, a))
  {
    assert Next(y, a).reqs == y.reqs;
  }

  lemma AdvanceArmed(y: Sys, a: Act)
    requires CoreInv(y) && AllArmed(y) && Enabled(y, a) && a.Advance?
    ensures AllArmed(Next(y, a))
  {
    AdvanceIs(y, a.r);
    AdvancedIsArmed(y.reqs[a.r]);
    PutArmed(y, Next(y, a), a.r, Advanced(y.reqs[a.r]));
  }

  lemma StepArmed(y: Sys, a: Act)
    requires CoreInv(y) && AllArmed(y) && Enabled(y, a) && HasTimeout(y, a)
    ensures AllArmed(Next(y, a))
  {
    if Simple(a) {
      SimpleArmed(y, a);
    } else if Untouched(a) {
      UntouchedArmed(y, a);
    } else if a.TxStep? {
      TxArmed(y, a);
    } else if a.Advance? {
      AdvanceArmed(y, a);
    } else if a.TimeOut? {
      TimeOutArmed(y, a);
    } else if a.TakeResponse? || a.FailAll? {
      TakeArmed(y, a);
    } else {
      CallerArmed(y, a);
    }
  }

  predicate TimedRun(y: Sys, acts: seq<Act>)
    requires IsRun(y, acts)
    decreases |acts|
  {
    acts == [] || (HasTimeout(y, acts[0]) && TimedRun(Next(y, acts[0]), acts[1..]))
  }

  lemma {:induction false} RunArmed(y: Sys, acts: seq<Act>)
    requires CoreInv(y) && AllArmed(y) && IsRun(y, acts) && TimedRun(y, acts)
    ensures AllArmed(RunTo(y, acts))
    decreases |acts|
  {
    if acts == [] {
    } else {
      StepCore(y, acts[0]);
      StepArmed(y, acts[0]);
      RunArmed(Next(y, acts[0]), acts[1..]);
    }
  }

  /** In every run in which all timeouts are positive, a request that is dispatched and not
      yet completed has its deadline running. */
  lemma DispatchedHasDeadline(cfg: Config, role: Role, acts: seq<Act>, r: Id)
    requires Normal(cfg) && IsRun(Init(cfg, role), acts) && TimedRun(Init(cfg, role), acts)
    requires var y := RunTo(Init(cfg, role), acts);
             r in y.reqs && y.reqs[r].stage.Listed? && y.reqs[r].tx.Dispatched?
    ensures var q := RunTo(Init(cfg, role), acts).reqs[r]; q.attached && (q.timer.InHeap? || q.timer.Expired?)
  {
    InitCore(cfg, role);
    RunArmed(Init(cfg, role), acts);
    assert Armed(RunTo(Init(cfg, role), acts).reqs[r]);
  }

  /** A running deadline completes its request with a timeout unless another party does. */
  lemma DeadlineTakesRequest(y: Sys, r: Id)
    requires CoreInv(y) && r in y.reqs && y.reqs[r].stage.Listed? && y.reqs[r].timer.InHeap? && !y.runnerStopped
    ensures Enabled(y, Expire(r)) && Enabled(Next(y, Expire(r)), TimeOut(r))
    ensures var z := Next(Next(y, Expire(r)), TimeOut(r));
            && r in z.reqs && z.reqs[r].stage == Removed(ByTimeout) && z.reqs[r].timer.Off?
            && z.table == y.table - {y.reqs[r].seqno}
  {
    var w := Next(y, Expire(r));
    StepCore(y, Expire(r));
    TimeOutIs(w, r);
  }

  // ----- From the queue to the deadline -----

  /** One step of the transmit loop on a listed request, in a session that goes on. */
  lemma TxListedIs(y: Sys, r: Id)
    requires CoreInv(y) && r in y.reqs && y.reqs[r].stage.Listed? && TxCanStep(y.reqs[r]) && !y.txStopped
    ensures Enabled(y, TxStep(r, true)) && CoreInv(Next(y, TxStep(r, true)))
    ensures Next(y, TxStep(r, true)) == Put(y, r, TxMoved(y.reqs[r], true, true))
  {
    TxIs(y, TxStep(r, true));
    StepCore(y, TxStep(r, true));
  }

  /** How many steps the transmit loop has left for a listed request. */
  function Left(t: Tx): (n: nat)
  {
    match t
    case Queued => 5
    case Batched => 4
    case Written => 3
    case Marked => 2
    case Scheduled => 1
    case _ => 0
  }

  function TxRun(r: Id, n: nat): (acts: seq<Act>)
  {
    if n == 0 then [] else [TxStep(r, true)] + TxRun(r, n - 1)
  }

  lemma TxMovedIsCloser(q: Request, failed: bool)
    requires ReqOk(q, failed) && q.stage.Listed? && TxCanStep(q)
    ensures var p := TxMoved(q, true, true);
            && Left(q.tx) == Left(p.tx) + 1 && p.stage.Listed? && (TxCanStep(p) || p.tx.Dispatched?)
            && (p.tx.Scheduled? ==> p.timer.InHeap?) && (p.tx.Dispatched? ==> p.attached && p.timer == q.timer)
  {
  }

  lemma TxRunIs(y: Sys, r: Id, n: nat)
    requires n > 0 && Enabled(y, TxStep(r, true))
    ensures var z := Next(y, TxStep(r, true));
            IsRun(y, TxRun(r, n)) == IsRun(z, TxRun(r, n - 1)) &&
            (IsRun(y, TxRun(r, n)) ==> RunTo(y, TxRun(r, n)) == RunTo(z, TxRun(r, n - 1)))
  {
    assert TxRun(r, n)[1..] == TxRun(r, n - 1);
  }

  /** A queued request that nobody completes meanwhile is written, marked and given its
      deadline by the next steps of the transmit loop, which are all enabled. */
  lemma {:induction false} QueuedIsTimed(y: Sys, r: Id)
    requires CoreInv(y) && r in y.reqs && y.reqs[r].stage.Listed? && !y.txStopped
    requires TxCanStep(y.reqs[r]) && (y.reqs[r].tx.Scheduled? ==> y.reqs[r].timer.InHeap?)
    ensures IsRun(y, TxRun(r, Left(y.reqs[r].tx)))
    ensures var z := RunTo(y, TxRun(r, Left(y.reqs[r].tx)));
            r in z.reqs && z.reqs[r].stage.Listed? && z.reqs[r].tx.Dispatched? && z.reqs[r].attached
            && z.reqs[r].timer.InHeap?
    decreases Left(y.reqs[r].tx)
  {
    var q, n := y.reqs[r], Left(y.reqs[r].tx);
    assert ReqOk(q, y.failed);
    TxListedIs(y, r);
    TxMovedIsCloser(q, y.failed);
    TxRunIs(y, r, n);
    if n == 1 {
    } else {
      QueuedIsTimed(Next(y, TxStep(r, true)), r);
    }
  }
}
