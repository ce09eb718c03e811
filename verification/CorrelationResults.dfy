/** The promises of the correlation engine, over every reachable state and every run. */
module CorrelationResults {
  import opened Correlation
  import opened CorrelationLaws

  predicate InTable(y: Sys, r: Id) { exists s | s in y.table :: y.table[s] == r }

  // ----- Exactly-once completion -----

  /** A request is in the table or has a winner, never both; at most one value is ever
      sent to it, exactly one once its winner is through; and no send finds the
      capacity-1 channel full. */
  lemma AtMostOnce(y: Sys, r: Id)
    requires Reachable(y) && r in y.reqs
    ensures var q := y.reqs[r];
            && (InTable(y, r) <==> q.stage.Listed?)
            && !(InTable(y, r) && Won(q.stage))
            && q.values <= 1 && (q.values == 1 <==> Sent(q.stage))
            && (InTable(y, r) ==> q.values == 0)
            && (Sends(q.stage) ==> q.values == 0 && q.buffered == 0)
  {
    ReachableCore(y);
    var q := y.reqs[r];
    if q.stage.Listed? { assert y.table[q.seqno] == r; }
  }

  /** Completed, and the transmit loop is through with it. */
  predicate AtRest(q: Request)
  {
    q.stage.Settled? && !q.caller.Encoding? && (q.tx.NotQueued? || q.tx.Dropped? || q.tx.Failed? || q.tx.Dispatched?)
  }

  /** What a step may do to a request: it never leaves the hands of its winner, and no
      value sent is taken back. */
  predicate Follows(q: Request, p: Request)
  {
    && p.command == q.command && q.values <= p.values
    && (Won(q.stage) ==> Won(p.stage) && p.stage.who == q.stage.who && p.seqno == q.seqno)
    && (AtRest(q) ==> AtRest(p))
  }

  lemma FollowsTrans(q: Request, p: Request, o: Request)
    requires Follows(q, p) && Follows(p, o)
    ensures Follows(q, o)
  {
  }

  lemma TakeFollows(y: Sys, s: nat, who: Winner, r: Id)
    requires TableOk(y) && r in y.reqs
    ensures r in Take(y, s, who).reqs && Follows(y.reqs[r], Take(y, s, who).reqs[r])
  {
  }

  lemma CallerTakesFollows(y: Sys, t: Id, lost: Caller, r: Id)
    requires TableOk(y) && SeqOk(y) && t in y.reqs && r in y.reqs && Carries(y.reqs[t]) && !lost.Encoding?
    ensures r in CallerTakes(y, t, lost).reqs && Follows(y.reqs[r], CallerTakes(y, t, lost).reqs[r])
  {
    CallerTakesIs(y, t, lost);
  }

  lemma FailAllFollows(y: Sys, r: Id)
    requires TableOk(y) && Enabled(y, FailAll) && r in y.reqs
    ensures r in Next(y, FailAll).reqs && Follows(y.reqs[r], Next(y, FailAll).reqs[r])
  {
    FailAllEmpties(y);
  }

  predicate AllFollow(y: Sys, z: Sys)
  {
    forall r | r in y.reqs :: r in z.reqs && Follows(y.reqs[r], z.reqs[r])
  }

  lemma PutFollows(y: Sys, z: Sys, t: Id, q: Request)
    requires z.reqs == y.reqs[t := q] && (t in y.reqs ==> Follows(y.reqs[t], q))
    ensures AllFollow(y, z)
  {
  }

  lemma TimeOutFollows(y: Sys, t: Id)
    requires TableOk(y) && SeqOk(y) && Enabled(y, TimeOut(t))
    ensures AllFollow(y, Next(y, TimeOut(t)))
  {
    TimeOutIs(y, t);
    var q := y.reqs[t];
    PutFollows(y, Next(y, TimeOut(t)), t,
               if q.stage.Listed? then q.(timer := Off, stage := Removed(ByTimeout)) else q.(timer := Off));
  }

  lemma AdvancedFollows(q: Request)
    requires CanAdvance(q)
    ensures Follows(q, Advanced(q))
  {
  }

  lemma AdvanceFollows(y: Sys, t: Id)
    requires Enabled(y, Advance(t))
    ensures AllFollow(y, Next(y, Advance(t)))
  {
    AdvanceIs(y, t);
    AdvancedFollows(y.reqs[t]);
    PutFollows(y, Next(y, Advance(t)), t, Advanced(y.reqs[t]));
  }

  lemma TxFollows(y: Sys, a: Act)
    requires a.TxStep? && Enabled(y, a)
    ensures AllFollow(y, Next(y, a))
  {
    PutFollows(y, Next(y, a), a.r, Next(y, a).reqs[a.r]);
  }

  predicate Simple(a: Act)
  {
    || a.Acquire? || a.Insert? || a.Begin? || a.Receive? || a.OweCancel? || a.Refuse? || a.GiveUp? || a.Enqueue?
    || a.DoneUnsent? || a.Expire?
  }

  lemma SimpleFollows(y: Sys, a: Act)
    requires Simple(a) && Enabled(y, a)
    ensures AllFollow(y, Next(y, a))
  {
    PutFollows(y, Next(y, a), a.r, Next(y, a).reqs[a.r]);
  }

  predicate Untouched(a: Act)
  {
    a.CloseMachine? || a.CloseDone? || a.StopRx? || a.StopTx? || a.StopRunner? || a.Other?
  }

  lemma UntouchedFollows(y: Sys, a: Act)
    requires Untouched(a) && Enabled(y, a)
    ensures AllFollow(y, Next(y, a))
  {
    assert Next(y, a).reqs == y.reqs;
  }

  lemma OthersFollow(y: Sys, a: Act, r: Id)
    requires CoreInv(y) && Enabled(y, a) && r in y.reqs && !Simple(a) && !Untouched(a)
    ensures r in Next(y, a).reqs && Follows(y.reqs[r], Next(y, a).reqs[r])
  {
    if a.EncodeFails? || a.CancelUnsent? || a.CancelWaiting? {
      CallerTakesFollows(y, a.r, if a.EncodeFails? then Owing else Draining, r);
    } else if a.TimeOut? {
      TimeOutFollows(y, a.r);
    } else if a.TakeResponse? {
      TakeFollows(y, a.s, ByResponse(a.ok), r);
    } else if a.FailAll? {
      FailAllFollows(y, r);
    } else if a.Advance? {
      AdvanceFollows(y, a.r);
    } else {
      TxFollows(y, a);
    }
  }

  lemma StepFollows(y: Sys, a: Act, r: Id)
    requires CoreInv(y) && Enabled(y, a) && r in y.reqs
    ensures r in Next(y, a).reqs && Follows(y.reqs[r], Next(y, a).reqs[r])
  {
    if Simple(a) {
      SimpleFollows(y, a);
    } else if Untouched(a) {
      UntouchedFollows(y, a);
    } else {
      OthersFollow(y, a, r);
    }
  }

  /** One winner: whatever happens afterwards, whoever took a request out of the table
      stays its only winner. */
  lemma {:induction false} WinnerIsFinal(y: Sys, acts: seq<Act>, r: Id)
    requires CoreInv(y) && IsRun(y, acts) && r in y.reqs
    ensures r in RunTo(y, acts).reqs && Follows(y.reqs[r], RunTo(y, acts).reqs[r])
    decreases |acts|
  {
    if acts == [] {
    } else {
      var z := Next(y, acts[0]);
      StepFollows(y, acts[0], r);
      StepCore(y, acts[0]);
      WinnerIsFinal(z, acts[1..], r);
      FollowsTrans(y.reqs[r], z.reqs[r], RunTo(y, acts).reqs[r]);
    }
  }

  function Rank(g: Stage): (n: nat)
    requires Won(g)
  {
    match g
    case Removed(_) => 5
    case Finishing(_, _) => 4
    case Cancelled(_) => 3
    case Released(who) => if who.ByLoss? then 1 else 2
    case Half(_) => 1
    case Settled(_) => 0
  }

  lemma AdvanceRanks(q: Request)
    requires ReqOk(q, true) || ReqOk(q, false)
    requires Won(q.stage) && !q.stage.Settled?
    ensures CanAdvance(q) && Won(Advanced(q).stage) && Rank(Advanced(q).stage) < Rank(q.stage)
  {
  }

  lemma WinnerSteps(y: Sys, r: Id)
    requires CoreInv(y) && r in y.reqs && Won(y.reqs[r].stage) && !y.reqs[r].stage.Settled?
    ensures Enabled(y, Advance(r))
    ensures var z := Next(y, Advance(r));
            && CoreInv(z) && r in z.reqs && Won(z.reqs[r].stage)
            && z.reqs[r].stage.who == y.reqs[r].stage.who && Rank(z.reqs[r].stage) < Rank(y.reqs[r].stage)
  {
    AdvanceRanks(y.reqs[r]);
    AdvanceCore(y, r);
    AdvanceIs(y, r);
    AdvancedFollows(y.reqs[r]);
  }

  /** The winner's remaining steps, in order. */
  function Finishes(y: Sys, r: Id): (acts: seq<Act>)
    requires CoreInv(y) && r in y.reqs && Won(y.reqs[r].stage)
    decreases Rank(y.reqs[r].stage)
  {
    if y.reqs[r].stage.Settled? then [] else
      WinnerSteps(y, r);
      [Advance(r)] + Finishes(Next(y, Advance(r)), r)
  }

  /** At least once: nothing can stop a winner. From any reachable state its own next
      steps are all enabled, and they leave the caller exactly one value. */
  lemma {:induction false} WinnerFinishes(y: Sys, r: Id)
    requires CoreInv(y) && r in y.reqs && Won(y.reqs[r].stage)
    ensures IsRun(y, Finishes(y, r))
    ensures var z := RunTo(y, Finishes(y, r));
            r in z.reqs && z.reqs[r].stage == Settled(y.reqs[r].stage.who) && z.reqs[r].values == 1
    decreases Rank(y.reqs[r].stage)
  {
    if y.reqs[r].stage.Settled? {
    } else {
      WinnerSteps(y, r);
      WinnerFinishes(Next(y, Advance(r)), r);
      assert Finishes(y, r)[1..] == Finishes(Next(y, Advance(r)), r);
    }
  }

  /** Once failAll has taken the table, every request that was inserted before has a
      winner; the ones left in the table are exactly the late inserts. */
  lemma EarlyRequestsAreTaken(y: Sys, r: Id)
    requires Reachable(y) && y.failed && r in y.reqs && y.reqs[r].seqno > 0
    requires !NotInserted(y.reqs[r].stage) && !y.reqs[r].stage.Gone?
    ensures InTable(y, r) ==> y.reqs[r].late
    ensures !y.reqs[r].late ==> Won(y.reqs[r].stage)
  {
    ReachableCore(y);
    AtMostOnce(y, r);
  }

  /** A late insert whose caller has seen the session end waits for a value that can
      only come from a response, and there is no receive loop any more. */
  predicate Stranded(y: Sys, r: Id)
  {
    && r in y.reqs && y.reqs[r].stage.Listed? && y.reqs[r].caller.Draining? && y.reqs[r].tx.NotQueued?
    && y.failed && y.rxStopped
  }

  lemma StrandedTake(y: Sys, t: Id, lost: Caller, r: Id)
    requires CoreInv(y) && Stranded(y, r) && t in y.reqs && Carries(y.reqs[t]) &&
             (At(y, t, Encoding) || At(y, t, Waiting))
    ensures Stranded(CallerTakes(y, t, lost), r)
  {
    CallerTakesIs(y, t, lost);
  }

  lemma StrandedTimeOut(y: Sys, t: Id, r: Id)
    requires CoreInv(y) && Stranded(y, r) && Enabled(y, TimeOut(t))
    ensures Stranded(Next(y, TimeOut(t)), r)
  {
    FindsOwn(y, t);
    assert ReqOk(y.reqs[r], y.failed);
  }

  lemma StrandedSimple(y: Sys, a: Act, r: Id)
    requires Simple(a) && Enabled(y, a) && Stranded(y, r) && y.reqs[r].buffered == 0
    ensures Stranded(Next(y, a), r)
  {
  }

  lemma StrandedUntouched(y: Sys, a: Act, r: Id)
    requires Untouched(a) && Enabled(y, a) && Stranded(y, r)
    ensures Stranded(Next(y, a), r)
  {
  }

  lemma StrandedAdvance(y: Sys, t: Id, r: Id)
    requires CoreInv(y) && Stranded(y, r) && Enabled(y, Advance(t))
    ensures Stranded(Next(y, Advance(t)), r)
  {
    AdvanceIs(y, t);
  }

  lemma StrandedStep(y: Sys, a: Act, r: Id)
    requires CoreInv(y) && Stranded(y, r) && Enabled(y, a)
    ensures Stranded(Next(y, a), r)
  {
    if Simple(a) {
      assert ReqOk(y.reqs[r], y.failed);
      StrandedSimple(y, a, r);
    } else if Untouched(a) {
      StrandedUntouched(y, a, r);
    } else {
      match a
      case EncodeFails(t) => StrandedTake(y, t, Owing, r);
      case CancelUnsent(t) => StrandedTake(y, t, Draining, r);
      case CancelWaiting(t) => StrandedTake(y, t, Draining, r);
      case TimeOut(t) => StrandedTimeOut(y, t, r);
      case Advance(t) => StrandedAdvance(y, t, r);
      case TxStep(_, _) =>
    }
  }

  lemma {:induction false} StrandedForever(y: Sys, acts: seq<Act>, r: Id)
    requires CoreInv(y) && Stranded(y, r) && IsRun(y, acts)
    ensures Stranded(RunTo(y, acts), r)
    decreases |acts|
  {
    if acts == [] {
    } else {
      StrandedStep(y, acts[0], r);
      StepCore(y, acts[0]);
      StrandedForever(Next(y, acts[0]), acts[1..], r);
    }
  }

  ghost predicate CanBeWon(y: Sys, r: Id)
  {
    exists acts :: IsRun(y, acts) && r in RunTo(y, acts).reqs && Won(RunTo(y, acts).reqs[r].stage)
  }

  lemma CancelTakes(y: Sys, r: Id, a: Act)
    requires TableOk(y) && SeqOk(y) && r in y.reqs && y.reqs[r].stage.Listed?
    requires (a == CancelUnsent(r) && At(y, r, Encoding)) || (a == CancelWaiting(r) && At(y, r, Waiting))
    ensures Enabled(y, a) && r in Next(y, a).reqs && Won(Next(y, a).reqs[r].stage)
  {
    CallerTakesIs(y, r, Draining);
  }

  lemma CancelWins(y: Sys, r: Id)
    requires CoreInv(y) && r in y.reqs && y.reqs[r].stage.Listed? && !y.reqs[r].caller.Draining?
    ensures CanBeWon(y, r)
  {
    assert ReqOk(y.reqs[r], y.failed);
    var a := if y.reqs[r].caller.Encoding? then CancelUnsent(r) else CancelWaiting(r);
    CancelTakes(y, r, a);
    RunOne(y, a);
  }

  /** The fate of an insert that comes after failAll, once the receive loop is gone:
      someone can still complete it if and only if its caller has not yet turned to
      waiting for the session's own completion. */
  lemma LateInsertCompletesIff(y: Sys, r: Id)
    requires Reachable(y) && y.failed && y.rxStopped && r in y.reqs && y.reqs[r].stage.Listed?
    ensures y.reqs[r].late
    ensures CanBeWon(y, r) <==> !y.reqs[r].caller.Draining?
  {
    ReachableCore(y);
    assert ReqOk(y.reqs[r], y.failed);
    if y.reqs[r].caller.Draining? {
      forall acts | IsRun(y, acts)
        ensures r in RunTo(y, acts).reqs && !Won(RunTo(y, acts).reqs[r].stage)
      {
        StrandedForever(y, acts, r);
      }
    } else {
      CancelWins(y, r);
    }
  }

  // ----- The window -----

  /** An injective table has as many entries as requests listed in it. */
  lemma {:induction false} InjectiveCard(m: map<nat, Id>, ids: set<Id>)
    requires forall s, t | s in m && t in m && s != t :: m[s] != m[t]
    requires forall s | s in m :: m[s] in ids
    requires forall r | r in ids :: exists s | s in m :: m[s] == r
    ensures |m| == |ids|
    decreases |m|
  {
    if |m| == 0 {
      assert ids == {};
    } else {
      var s :| s in m;
      var n := m - {s};
      assert m == n[s := m[s]];
      forall r | r in ids - {m[s]}
        ensures exists t | t in n :: n[t] == r
      {
        var t :| t in m && m[t] == r;
        assert t in n && n[t] == r;
      }
      InjectiveCard(n, ids - {m[s]});
    }
  }

  function Entered(y: Sys): (ids: set<Id>) { set r | r in y.reqs && NotInserted(y.reqs[r].stage) }

  function ListedIds(y: Sys): (ids: set<Id>) { set r | r in y.reqs && y.reqs[r].stage.Listed? }

  function Unreleased(y: Sys): (ids: set<Id>)
  {
    set r | r in y.reqs && Won(y.reqs[r].stage) && Holds(y.reqs[r].stage)
  }

  lemma TableCard(y: Sys)
    requires TableOk(y)
    ensures |y.table| == |ListedIds(y)|
  {
    forall r | r in ListedIds(y)
      ensures exists s | s in y.table :: y.table[s] == r
    {
      assert y.table[y.reqs[r].seqno] == r;
    }
    InjectiveCard(y.table, ListedIds(y));
  }

  lemma HoldersCard(y: Sys)
    ensures |Holders(y.reqs)| == |Entered(y)| + |ListedIds(y)| + |Unreleased(y)|
  {
    assert Holders(y.reqs) == Entered(y) + ListedIds(y) + Unreleased(y);
    assert Entered(y) !! ListedIds(y);
    assert Entered(y) + ListedIds(y) !! Unreleased(y);
  }

  /** Window conservation: the tokens taken are the callers that have one and are not in
      the table yet, the requests in the table, and the requests taken out of it whose
      finish has not given the token back. No release ever finds the window empty, and
      the window is never exceeded. */
  lemma WindowConservation(y: Sys)
    requires Reachable(y)
    ensures y.tokens == |Entered(y)| + |y.table| + |Unreleased(y)|
    ensures y.tokens <= y.cfg.window && y.underflows == 0
  {
    ReachableCore(y);
    TableCard(y);
    HoldersCard(y);
  }

  /** A caller about to insert always finds room in the table, even if every other
      caller that has a token inserts first. */
  lemma InsertNeverHitsLimit(y: Sys, r: Id)
    requires Reachable(y) && r in y.reqs && y.reqs[r].stage.Drawing?
    ensures |y.table| + |Entered(y) - {r}| < y.cfg.window <= y.cfg.maxPending
  {
    ReachableCore(y);
    WindowConservation(y);
    assert r in Entered(y);
  }

  /** When every request is terminal the window and the table are empty again. */
  lemma WindowEmptiesAtRest(y: Sys)
    requires Reachable(y) && forall r | r in y.reqs :: y.reqs[r].stage.Settled? || y.reqs[r].stage.Gone?
    ensures y.tokens == 0 && y.table == map[]
  {
    ReachableCore(y);
    WindowConservation(y);
    assert Entered(y) == {} && Unreleased(y) == {} && ListedIds(y) == {};
    TableCard(y);
  }

  // ----- Timers -----

  /** No leaked timer: a deadline is in the heap only while its request is unfinished,
      while the transmit loop is between schedule and attach (or undoing it), or while
      finish is about to cancel the item it collected. */
  lemma NoLeakedTimer(y: Sys, r: Id)
    requires Reachable(y) && r in y.reqs && y.reqs[r].timer.InHeap?
    ensures var q := y.reqs[r];
            !q.finished || q.tx.Scheduled? || q.tx.Undoing? || (q.stage.Finishing? && q.stage.item)
  {
    ReachableCore(y);
    assert ReqOk(y.reqs[r], y.failed);
  }

  /** The item handed to scheduleItemAt is never in the heap, or on its way out of it,
      already: the transmit loop schedules a request at most once. */
  lemma ScheduledOnce(y: Sys, r: Id)
    requires Reachable(y) && r in y.reqs && y.reqs[r].tx.Marked?
    ensures y.reqs[r].timer.Off? && !y.reqs[r].attached
  {
    ReachableCore(y);
    assert ReqOk(y.reqs[r], y.failed);
  }

  lemma RestHasNoTimer(q: Request, failed: bool)
    requires ReqOk(q, failed) && AtRest(q)
    ensures !q.timer.InHeap?
  {
  }

  /** Never resurrected: a completed request that the transmit loop is through with has
      no deadline in the heap, now or ever after. */
  lemma NoResurrectedTimer(y: Sys, acts: seq<Act>, r: Id)
    requires Reachable(y) && IsRun(y, acts) && r in y.reqs && AtRest(y.reqs[r])
    ensures r in RunTo(y, acts).reqs && !RunTo(y, acts).reqs[r].timer.InHeap?
  {
    ReachableCore(y);
    WinnerIsFinal(y, acts, r);
    CoreRun(y, acts);
    RestHasNoTimer(RunTo(y, acts).reqs[r], RunTo(y, acts).failed);
  }
}
