/** What the end of a request does to the session: which state a bind, an unbind or any
    other request leaves behind, by who won it and what the answer was. */
module Outcomes {
  import opened Bytes
  import opened Lifecycle
  import opened Correlation
  import opened CorrelationLaws
  import opened CorrelationResults
  import opened Reservations

  /** The winner has still to tell the machine. */
  predicate Untold(g: Stage)
  {
    Won(g) && !g.Settled? && !g.who.ByLoss? && !(g.Half? && g.who.ByResponse?)
  }

  /** The request was granted: a response with status ok has won it. */
  predicate GrantedBy(who: Winner) { who == ByResponse(true) }

  /** What the machine is after a bind c has ended in state m: bound in the mode of c if it
      was granted, and as it was otherwise; either way nothing is reserved. */
  predicate BindEnded(m: Machine, c: Command, granted: bool, n: Machine)
  {
    && n.localBind.None?
    && (!granted ==> n.state == m.state)
    && (granted && c.BindTransmitter? ==> n.state == BoundTX)
    && (granted && c.BindReceiver? ==> n.state == BoundRX)
    && (granted && c.BindTransceiver? ==> n.state == BoundTRX)
  }

  /** And after an unbind: closed, or back in the mode it was bound in. */
  predicate UnbindEnded(m: Machine, granted: bool, n: Machine)
  {
    n.state == if granted then Closed else Mode(m)
  }

  /** The request ended as the source says, or its end changed nothing: it had been told
      before, or the session was closed meanwhile. */
  predicate Ended(m: Machine, q: Request, n: Machine)
  {
    if !Untold(q.stage) || m.state.Closed? then n == m
    else if IsBind(q.command) then BindEnded(m, q.command, GrantedBy(q.stage.who), n)
    else if q.command.Unbind? then UnbindEnded(m, GrantedBy(q.stage.who), n)
    else n == m
  }

  lemma TellingEnds(m: Machine, q: Request)
    requires Inv(m) && Held(m, q.command) && !IsOneWay(q.command) && CanAdvance(q) && Untold(q.stage)
    requires CallsMachine(q.stage)
    ensures Ended(m, q, Apply(m, CallOf(q)))
  {
  }

  lemma AdvanceTells(q: Request)
    requires CanAdvance(q) && Won(q.stage)
    ensures CallsMachine(q.stage) ==> Untold(q.stage) && !Untold(Advanced(q).stage)
    ensures !CallsMachine(q.stage) ==> Untold(Advanced(q).stage) == Untold(q.stage)
    ensures Advanced(q).command == q.command && Won(Advanced(q).stage) && Advanced(q).stage.who == q.stage.who
  {
  }

  /** From every state: whoever has won a request, once it has worked through its remaining
      steps the session is in the state that the answer, or the lack of one, calls for. */
  lemma {:induction false} WinnerSettlesMachine(y: Sys, r: Id)
    requires CoreInv(y) && r in y.reqs && Won(y.reqs[r].stage)
    requires !IsOneWay(y.reqs[r].command) && (Untold(y.reqs[r].stage) ==> Held(y.m, y.reqs[r].command))
    ensures IsRun(y, Finishes(y, r)) && Ended(y.m, y.reqs[r], RunTo(y, Finishes(y, r)).m)
    decreases Rank(y.reqs[r].stage)
  {
    WinnerFinishes(y, r);
    var q := y.reqs[r];
    if q.stage.Settled? {
    } else {
      var z := Next(y, Advance(r));
      WinnerSteps(y, r);
      AdvanceIs(y, r);
      AdvanceTells(q);
      assert Finishes(y, r)[1..] == Finishes(z, r);
      if CallsMachine(q.stage) {
        TellingEnds(y.m, q);
      }
      WinnerSettlesMachine(z, r);
    }
  }

  /** A caller that gives up after reserving, before it has a number, leaves the session
      as if the request had been refused. */
  lemma GivingUpEnds(y: Sys, r: Id)
    requires Inv(y.m) && Enabled(y, Advance(r)) && y.reqs[r].stage == Abandoned(true) && !y.m.state.Closed?
    requires !IsOneWay(y.reqs[r].command) && Held(y.m, y.reqs[r].command)
    ensures var c, n := y.reqs[r].command, Next(y, Advance(r)).m;
            && (IsBind(c) ==> BindEnded(y.m, c, false, n)) && (c.Unbind? ==> UnbindEnded(y.m, false, n))
            && (!IsBind(c) && !c.Unbind? ==> n == y.m)
  {
    AdvanceIs(y, r);
  }

  // ----- Over runs -----

  predicate AllAnswered(y: Sys) { forall r | r in y.reqs :: !IsOneWay(y.reqs[r].command) }

  /** The requests of z are those of y, or new ones that have an answer. */
  predicate SameCommands(y: Sys, z: Sys)
  {
    forall r | r in z.reqs ::
        if r in y.reqs then z.reqs[r].command == y.reqs[r].command else !IsOneWay(z.reqs[r].command)
  }

  lemma PutSameCommands(y: Sys, z: Sys, r: Id, q: Request)
    requires z.reqs == y.reqs[r := q]
    requires if r in y.reqs then q.command == y.reqs[r].command else !IsOneWay(q.command)
    ensures SameCommands(y, z)
  {
  }

  lemma QuietCommands(y: Sys, a: Act)
    requires Enabled(y, a) && Simple(a)
    ensures SameCommands(y, Next(y, a))
  {
    PutSameCommands(y, Next(y, a), a.r, Next(y, a).reqs[a.r]);
  }

  lemma CallerTakingIs(y: Sys, a: Act)
    requires CoreInv(y) && Enabled(y, a) && (a.EncodeFails? || a.CancelUnsent? || a.CancelWaiting?)
    ensures Next(y, a).reqs.Keys <= y.reqs.Keys && Next(y, a).m == y.m
  {
    CallerStepIs(y, a);
  }

  lemma TimeOutTakingIs(y: Sys, a: Act)
    requires CoreInv(y) && Enabled(y, a) && a.TimeOut?
    ensures Next(y, a).reqs.Keys <= y.reqs.Keys && Next(y, a).m == y.m
  {
    TimeOutIs(y, a.r);
  }

  lemma OthersTakingIs(y: Sys, a: Act)
    requires CoreInv(y) && Enabled(y, a) && (a.TakeResponse? || a.FailAll?)
    ensures Next(y, a).reqs.Keys <= y.reqs.Keys && Next(y, a).m == y.m
  {
  }

  /** The steps that take requests from the table leave the machine alone. */
  lemma TakingIs(y: Sys, a: Act)
    requires CoreInv(y) && Enabled(y, a) && Takes(a)
    ensures Next(y, a).reqs.Keys <= y.reqs.Keys && Next(y, a).m == y.m
  {
    if a.TimeOut? {
      TimeOutTakingIs(y, a);
    } else if a.TakeResponse? || a.FailAll? {
      OthersTakingIs(y, a);
    } else {
      CallerTakingIs(y, a);
    }
  }

  lemma NoNewRequests(y: Sys, a: Act)
    requires CoreInv(y) && Enabled(y, a) && !Simple(a)
    ensures Next(y, a).reqs.Keys <= y.reqs.Keys
  {
    if Takes(a) {
      TakingIs(y, a);
    } else if a.Advance? {
      AdvanceIs(y, a.r);
    } else if Stops(a) {
      StopIs(y, a);
    } else if a.TxStep? {
    } else {
      MachineIs(y, a);
    }
  }

  lemma StepCommands(y: Sys, a: Act)
    requires CoreInv(y) && Enabled(y, a)
    ensures SameCommands(y, Next(y, a))
  {
    if Simple(a) {
      QuietCommands(y, a);
    } else {
      NoNewRequests(y, a);
      forall r | r in y.reqs
        ensures r in Next(y, a).reqs && Follows(y.reqs[r], Next(y, a).reqs[r])
      {
        StepFollows(y, a, r);
      }
    }
  }

  lemma {:induction false} RunAnswered(y: Sys, acts: seq<Act>)
    requires CoreInv(y) && AllAnswered(y) && IsRun(y, acts)
    ensures AllAnswered(RunTo(y, acts))
    decreases |acts|
  {
    if acts == [] {
    } else {
      StepCommands(y, acts[0]);
      StepCore(y, acts[0]);
      RunAnswered(Next(y, acts[0]), acts[1..]);
    }
  }

  /** In every run with a peer that answers no request before its frame is queued, of every
      request that has been won: its winner's remaining steps leave a granted bind bound in
      its own mode and a granted unbind closed; a refused, timed out or cancelled bind leaves
      the state as it is and the reservation free, such an unbind the mode it was bound in;
      and no other request touches the session's state. */
  lemma EveryRequestEnds(cfg: Config, role: Role, acts: seq<Act>, r: Id)
    requires Normal(cfg) && IsRun(Init(cfg, role), acts) && SolicitedRun(Init(cfg, role), acts)
    requires var y := RunTo(Init(cfg, role), acts); r in y.reqs && Won(y.reqs[r].stage)
    ensures var y := RunTo(Init(cfg, role), acts);
            CoreInv(y) && IsRun(y, Finishes(y, r)) && Ended(y.m, y.reqs[r], RunTo(y, Finishes(y, r)).m)
  {
    var y := RunTo(Init(cfg, role), acts);
    InitCore(cfg, role);
    CoreRun(Init(cfg, role), acts);
    RunAnswered(Init(cfg, role), acts);
    NoPartySettlesAnother(cfg, role, acts);
    WinnerSettlesMachine(y, r);
  }

  // ----- The mode an unbind goes back to -----

  predicate ModeKept(m: Machine, n: Machine)
  {
    Phase(m.state) <= Phase(n.state) && (Phase(m.state) == 1 == Phase(n.state) ==> Mode(n) == Mode(m))
  }

  /** The call a step makes on the machine, if any. */
  function OpOf(y: Sys, a: Act): (op: Option<Op>)
    requires Enabled(y, a)
  {
    match a
    case Begin(r) => Some(DoBeginOutbound(y.reqs[r].command))
    case OweCancel(r) => Some(DoCancelOutbound(y.reqs[r].command))
    case Advance(r) => if CallsMachine(y.reqs[r].stage) then Some(CallOf(y.reqs[r])) else None
    case CloseMachine => Some(DoClose)
    case Other(op) => Some(op)
    case _ => None
  }

  /** The steps of a caller, the transmit loop or the runner on one request. */
  lemma OneRequestMoves(y: Sys, a: Act)
    requires Enabled(y, a) && (Simple(a) || a.TxStep?)
    ensures Next(y, a).m == match OpOf(y, a) case None => y.m case Some(op) => Apply(y.m, op)
  {
  }

  lemma MachineMoves(y: Sys, a: Act)
    requires CoreInv(y) && Enabled(y, a)
    ensures Next(y, a).m == match OpOf(y, a) case None => y.m case Some(op) => Apply(y.m, op)
  {
    if Simple(a) || a.TxStep? {
      OneRequestMoves(y, a);
    } else if Takes(a) {
      TakingIs(y, a);
    } else if a.Advance? {
      AdvanceIs(y, a.r);
    } else if Stops(a) {
      StopIs(y, a);
    }
  }

  lemma StepKeepsMode(y: Sys, a: Act)
    requires CoreInv(y) && Enabled(y, a)
    ensures ModeKept(y.m, Next(y, a).m)
  {
    MachineMoves(y, a);
    if OpOf(y, a).Some? {
      PhaseStep(y.m, OpOf(y, a).value);
    }
  }

  lemma {:induction false} RunKeepsMode(y: Sys, acts: seq<Act>)
    requires CoreInv(y) && IsRun(y, acts)
    ensures ModeKept(y.m, RunTo(y, acts).m)
    decreases |acts|
  {
    if acts == [] {
    } else {
      StepKeepsMode(y, acts[0]);
      StepCore(y, acts[0]);
      RunKeepsMode(Next(y, acts[0]), acts[1..]);
    }
  }

  lemma BeginsBound(m: Machine)
    requires AcceptsOutbound(m, Unbind)
    ensures IsBound(m.state)
  {
  }

  /** The mode that a failed unbind goes back to is the bound state it was begun in, however
      much happens in between. */
  lemma UnbindGoesBack(y: Sys, r: Id, acts: seq<Act>)
    requires CoreInv(y) && Enabled(y, Begin(r)) && y.reqs[r].command.Unbind? && IsRun(y, [Begin(r)] + acts)
    ensures var z := RunTo(y, [Begin(r)] + acts); IsBound(y.m.state) && (z.m.state.Closed? || Mode(z.m) == y.m.state)
  {
    var ts := [Begin(r)] + acts;
    RunKeepsMode(y, ts);
    BeginsBound(y.m);
  }
}
