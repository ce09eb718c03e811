/** From every state, a harmful accept can break the bind agreement: the ESME, if it does
    not hold the reservation of the bind it awaits, can come to hold it. */
module HarmfulBinds {
  import opened Bytes
  import opened Lifecycle
  import opened TwoParty
  import opened BindFlow
  import opened BindAgreements
  import opened StaleBinds

  ghost predicate CanBreak(y: Sys)
  {
    exists ts: seq<Step> :: IsRun(y, ts) && !Agreement(RunTo(y, ts))
  }

  lemma BreakNow(y: Sys)
    requires !Agreement(y)
    ensures CanBreak(y)
  {
    assert IsRun(y, []) && RunTo(y, []) == y;
  }

  lemma BreakLater(y: Sys, t: Step)
    requires Enabled(y, t) && CanBreak(Next(y, t))
    ensures CanBreak(y)
  {
    var ts: seq<Step> :| IsRun(Next(y, t), ts) && !Agreement(RunTo(Next(y, t), ts));
    var us := [t] + ts;
    assert us[0] == t && us[1..] == ts;
    assert IsRun(y, us) && RunTo(y, us) == RunTo(Next(y, t), ts);
  }

  lemma StrandBreaks(y: Sys, c: Command, st: State)
    requires IsBind(c) && CanStrand(y, c, st)
    ensures CanBreak(y)
  {
    var ts: seq<Step> :| IsRun(y, ts) && Stranded(RunTo(y, ts), c, st);
    StrandedDisagrees(RunTo(y, ts), c, st);
  }

  // ----- What an ESME needs to come to hold a reservation -----

  /** Someone at the ESME will settle the bind reservation d, or can be made to. */
  predicate Owner(x: Side, d: Command)
  {
    || d in x.reserving || d in x.cancelling
    || (exists k | k in x.pending :: x.pending[k] == d)
    || (x.rx.Completing? && x.rx.c == d)
  }

  predicate Owned(x: Side) { x.m.localBind.Some? ==> Owner(x, x.m.localBind.value) }

  /** The ESME is connected, may issue c, and the reservation it holds, if any, has an
      owner. */
  predicate Willing(x: Side, c: Command)
  {
    IsConnected(x.m.state) && CanIssue(x.m.state, ESME, c) && Owned(x)
  }

  // ----- Only the ESME moves -----

  predicate SameAt(p: Pending, r: Pending, n: nat) { (n in p <==> n in r) && (n in p ==> p[n] == r[n]) }

  lemma {:induction false} AfterAllAt(p: Pending, r: Pending, q: seq<Msg>, n: nat)
    requires SameAt(p, r, n)
    ensures SameAt(AfterAll(p, q), AfterAll(r, q), n)
    decreases |q|
  {
    if q == [] {
    } else {
      AfterAllAt(After(p, q[0]), After(r, q[0]), q[1..], n);
    }
  }

  lemma LooseEsme(y: Sys, x: Side, c: Command, n: nat, st: State)
    requires Loose(y, c, n, st) && Inv(x.m) && x.m.role.ESME? && SameAt(y.e.pending, x.pending, n)
    ensures Loose(y.(e := x), c, n, st)
  {
    var q := Incoming(y);
    AfterAllAt(y.e.pending, x.pending, q[..|q| - 1], n);
    assert Incoming(y.(e := x)) == q;
  }

  /** A local step of the ESME that leaves its number n pending. */
  lemma LooseStep(y: Sys, a: Act, c: Command, n: nat, st: State)
    requires Loose(y, c, n, st) && LocalEnabled(y.e, a) && SameAt(y.e.pending, LocalNext(y.e, a).pending, n)
    ensures Enabled(y, Step(ESME, a)) && Next(y, Step(ESME, a)) == y.(e := LocalNext(y.e, a))
    ensures Loose(Next(y, Step(ESME, a)), c, n, st)
  {
    LocalMachine(y.e, a);
    LooseEsme(y, LocalNext(y.e, a), c, n, st);
    LocalStepIs(y, a);
  }

  lemma StillPending(y: Sys, c: Command, n: nat, st: State)
    requires Loose(y, c, n, st)
    ensures Held(y.e.pending, c, n)
  {
    var q := Incoming(y);
    HeldBefore(y.e.pending, q[..|q| - 1], c, n);
  }

  predicate Alone(x: Side, n: nat) { x.rx.Idle? && forall k | k in x.pending :: k == n }

  lemma TrappedBreaks(y: Sys, c: Command, n: nat, st: State)
    requires Trapped(y, c, n, st)
    ensures CanBreak(y)
  {
    TrappedStrands(y, c, n, st);
    StrandBreaks(y, c, st);
  }

  /** Without a reservation, a further request of the same command takes one. */
  lemma FreeBreaks(y: Sys, c: Command, n: nat, st: State)
    requires Loose(y, c, n, st) && CanIssue(y.e.m.state, ESME, c) && Alone(y.e, n) && y.e.m.localBind.None?
    ensures CanBreak(y)
  {
    LooseStep(y, Begin(c), c, n, st);
    TrappedBreaks(Next(y, Step(ESME, Begin(c))), c, n, st);
    BreakLater(y, Step(ESME, Begin(c)));
  }

  function Settle(x: Side, d: Command): (a: Act)
  {
    if d in x.reserving then AbortReserved(d) else FinishCancel(d)
  }

  /** The owner of another reservation gives it back. */
  lemma SettleFrees(x: Side, d: Command)
    requires IsBind(d) && x.m.localBind == Some(d) && (d in x.reserving || d in x.cancelling)
    ensures LocalEnabled(x, Settle(x, d))
    ensures var z := LocalNext(x, Settle(x, d));
            z.m == x.m.(localBind := None) && z.pending == x.pending && z.rx == x.rx
  {
  }

  lemma AloneBreaks(y: Sys, c: Command, n: nat, st: State)
    requires Loose(y, c, n, st) && Willing(y.e, c) && Alone(y.e, n)
    ensures CanBreak(y)
  {
    if y.e.m.localBind == Some(c) {
      TrappedBreaks(y, c, n, st);
    } else if y.e.m.localBind.None? {
      FreeBreaks(y, c, n, st);
    } else {
      var d := y.e.m.localBind.value;
      StillPending(y, c, n, st);
      SettleFrees(y.e, d);
      var a := Settle(y.e, d);
      LooseStep(y, a, c, n, st);
      FreeBreaks(Next(y, Step(ESME, a)), c, n, st);
      BreakLater(y, Step(ESME, a));
    }
  }

  lemma WithdrawKeeps(x: Side, k: nat, c: Command, n: nat)
    requires Willing(x, c) && x.rx.Idle? && k in x.pending && k != n
    ensures var z := LocalNext(x, Withdraw(k));
            Willing(z, c) && z.rx.Idle? && SameAt(x.pending, z.pending, n) && z.pending == x.pending - {k}
  {
    var z := LocalNext(x, Withdraw(k));
    if x.m.localBind.Some? {
      var d := x.m.localBind.value;
      if d !in x.reserving && d !in x.cancelling {
        var i :| i in x.pending && x.pending[i] == d;
        assert i == k || z.pending[i] == d;
      }
    }
  }

  /** The other requests of the ESME are withdrawn. */
  lemma {:induction false} OthersBreak(y: Sys, c: Command, n: nat, st: State)
    requires Loose(y, c, n, st) && Willing(y.e, c) && y.e.rx.Idle?
    ensures CanBreak(y)
    decreases |y.e.pending|
  {
    if k :| k in y.e.pending && k != n {
      var t := Step(ESME, Withdraw(k));
      WithdrawKeeps(y.e, k, c, n);
      LooseStep(y, Withdraw(k), c, n, st);
      OthersBreak(Next(y, t), c, n, st);
      BreakLater(y, t);
    } else {
      AloneBreaks(y, c, n, st);
    }
  }

  lemma CompleteKeeps(x: Side, z: Side, c: Command)
    requires Inv(x.m) && x.m.role.ESME? && Willing(x, c) && x.rx.Completing?
    requires z == x.(m := CompleteOutbound(x.m, x.rx.c, x.rx.ok), rx := Idle)
    ensures Phase(z.m.state) == 1 || Willing(z, c)
  {
  }

  /** What the receive loop is in the middle of either binds the ESME, to an SMSC that is
      not bound, or leaves it willing. */
  lemma FinishKeeps(x: Side, c: Command)
    requires Inv(x.m) && x.m.role.ESME? && Willing(x, c) && !x.rx.Idle?
    ensures LocalEnabled(x, FinishRx(x.rx))
    ensures var z := LocalNext(x, FinishRx(x.rx));
            z.pending == x.pending && z.rx.Idle? && (Phase(z.m.state) == 1 || Willing(z, c))
  {
    var z := LocalNext(x, FinishRx(x.rx));
    if x.rx.Completing? {
      assert z == x.(m := CompleteOutbound(x.m, x.rx.c, x.rx.ok), rx := Idle);
      CompleteKeeps(x, z, c);
    } else {
      assert z == x.(rx := Idle, txq := z.txq);
    }
  }

  lemma LooseBreaks(y: Sys, c: Command, n: nat, st: State)
    requires Loose(y, c, n, st) && Willing(y.e, c)
    ensures CanBreak(y)
  {
    if y.e.rx.Idle? {
      OthersBreak(y, c, n, st);
    } else {
      var a := FinishRx(y.e.rx);
      var t := Step(ESME, a);
      FinishKeeps(y.e, c);
      LooseStep(y, a, c, n, st);
      if Willing(Next(y, t).e, c) {
        OthersBreak(Next(y, t), c, n, st);
      } else {
        BreakNow(Next(y, t));
      }
      BreakLater(y, t);
    }
  }

  /** From every state: once the SMSC accepts a bind that the ESME still awaits while the
      first answer queued to that command is a refusal, some continuation breaks the
      agreement, whether or not the ESME holds that bind's reservation and whatever else
      it has under way, as long as it is connected, may issue the command, and the
      reservation it holds, if any, has an owner. */
  lemma HarmfulAcceptCanBreak(y: Sys)
    requires Machines(y) && y.s.rx.Idle? && HarmfulAccept(y, Step(SMSC, Deliver)) && Willing(y.e, y.toS[0].c)
    ensures CanBreak(Next(y, Step(SMSC, Deliver)))
  {
    HarmfulAcceptLoosens(y);
    LooseBreaks(Granted(y), y.toS[0].c, y.toS[0].seqno, y.s.m.state);
    BreakLater(Next(y, Step(SMSC, Deliver)), Step(SMSC, Reply(true)));
  }
}
