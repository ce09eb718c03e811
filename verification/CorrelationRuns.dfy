/** Two concrete runs that show where the engine's promises end: an insert after
    failAll that nobody completes, and an unsolicited response that lets a failed
    encoding cancel a newer bind. */
module CorrelationRuns {
  import opened Bytes
  import opened Lifecycle
  import opened Correlation
  import opened CorrelationLaws
  import opened CorrelationResults
  import opened Reservations

  const CFG := Config(2, 2)
  const BTX := BindTransmitter

  /** A bind that was never queued. */
  function Unqueued(g: Stage, c: Caller, s: nat, finished: bool, late: bool): (q: Request)
  {
    Request(BTX, g, c, NotQueued, Off, s, finished, false, if Sent(g) then 1 else 0, if Sent(g) then 1 else 0, late)
  }

  function Fresh(): (y: Sys) { Init(CFG, ESME) }

  function Binding(): (m: Machine) { Opened(ESME).(localBind := Some(BTX)) }

  /** One more step of a run. */
  lemma Then(y: Sys, a: Act, z: Sys)
    requires Reachable(y) && Enabled(y, a) && Next(y, a) == z
    ensures Reachable(z)
  {
    ReachableStep(y, a);
  }

  function Reserving(): (y: Sys)
  {
    Fresh().(m := Binding(), tokens := 1, reqs := map[0 := Unqueued(Drawing, Entering, 0, false, false)])
  }

  lemma ReservingReachable()
    ensures Reachable(Reserving())
  {
    ReachableInit(CFG, ESME);
    var y := Fresh().(tokens := 1, reqs := map[0 := Unqueued(Acquired, Entering, 0, false, false)]);
    Then(Fresh(), Acquire(0, BTX), y);
    Then(y, Begin(0), Reserving());
  }

  // ----- The late insert -----

  function ShutDown(): (y: Sys)
  {
    Reserving().(m := Close(Binding()), done := true, failed := true, rxStopped := true)
  }

  lemma ClosedReachable()
    ensures Reachable(Reserving().(m := Close(Binding()), done := true))
  {
    ReservingReachable();
    var y := Reserving().(m := Close(Binding()));
    Then(Reserving(), CloseMachine, y);
    Then(y, CloseDone, y.(done := true));
  }

  lemma ShutDownReachable()
    ensures Reachable(ShutDown())
  {
    ClosedReachable();
    var y := Reserving().(m := Close(Binding()), done := true);
    Then(y, FailAll, y.(failed := true));
    Then(y.(failed := true), StopRx, ShutDown());
  }

  function LateInsert(c: Caller): (y: Sys)
  {
    ShutDown().(table := map[1 := 0], reqs := map[0 := Unqueued(Listed, c, 1, false, true)])
  }

  lemma LateInsertReachable()
    ensures Reachable(LateInsert(Encoding))
  {
    ShutDownReachable();
    Then(ShutDown(), Insert(0, 1), LateInsert(Encoding));
  }

  /** At least one completion fails for a request inserted after failAll: its caller
      sees the session's end and waits, and no further step of anyone completes it. */
  lemma LateInsertIsStranded()
    ensures Reachable(LateInsert(Draining)) && Stranded(LateInsert(Draining), 0)
    ensures !CanBeWon(LateInsert(Draining), 0)
  {
    LateInsertReachable();
    Then(LateInsert(Encoding), DoneUnsent(0), LateInsert(Draining));
    LateInsertCompletesIff(LateInsert(Draining), 0);
  }

  // ----- The unsolicited response -----

  function Unsolicited(g: Stage, c: Caller, finished: bool): (y: Sys)
  {
    Reserving().(reqs := map[0 := Unqueued(g, c, 1, finished, false)])
  }

  const ROGUE := ByResponse(false)

  /** The bind is in the table, not yet encoded, when a response to it arrives. */
  lemma BindIsListed()
    ensures Reachable(Unsolicited(Listed, Encoding, false).(table := map[1 := 0]))
  {
    ReservingReachable();
    Then(Reserving(), Insert(0, 1), Unsolicited(Listed, Encoding, false).(table := map[1 := 0]));
  }

  lemma RogueResponse()
    ensures Reachable(Unsolicited(Removed(ROGUE), Encoding, false))
  {
    BindIsListed();
    var y := Unsolicited(Listed, Encoding, false).(table := map[1 := 0]);
    assert map[1 := 0] - {1} == map[];
    Then(y, TakeResponse(1, false), Unsolicited(Removed(ROGUE), Encoding, false));
  }

  lemma RogueFinishing()
    ensures Reachable(Unsolicited(Finishing(ROGUE, false), Encoding, true))
  {
    RogueResponse();
    Then(Unsolicited(Removed(ROGUE), Encoding, false), Advance(0),
        Unsolicited(Finishing(ROGUE, false), Encoding, true));
  }

  lemma RogueCancelled()
    ensures Reachable(Unsolicited(Cancelled(ROGUE), Encoding, true))
  {
    RogueFinishing();
    Then(Unsolicited(Finishing(ROGUE, false), Encoding, true), Advance(0),
        Unsolicited(Cancelled(ROGUE), Encoding, true));
  }

  lemma RogueReleased()
    ensures Reachable(Unsolicited(Released(ROGUE), Encoding, true).(tokens := 0))
  {
    RogueCancelled();
    Then(Unsolicited(Cancelled(ROGUE), Encoding, true), Advance(0),
        Unsolicited(Released(ROGUE), Encoding, true).(tokens := 0));
  }

  function AfterRefusal(c: Caller): (y: Sys)
  {
    Unsolicited(Half(ROGUE), c, true).(tokens := 0, m := Opened(ESME))
  }

  lemma RogueSettled()
    ensures Reachable(AfterRefusal(Encoding))
  {
    RogueReleased();
    Then(Unsolicited(Released(ROGUE), Encoding, true).(tokens := 0), Advance(0), AfterRefusal(Encoding));
  }

  /** The refusal has settled the reservation; now the encoding fails, and the caller
      still owes its deferred cancel. */
  lemma EncodingFails()
    ensures Reachable(AfterRefusal(Owing))
  {
    RogueSettled();
    Then(AfterRefusal(Encoding), EncodeFails(0), AfterRefusal(Owing));
  }

  function Retried(g: Stage, m: Machine): (y: Sys)
  {
    AfterRefusal(Owing).(m := m, tokens := 1,
      reqs := map[0 := Unqueued(Half(ROGUE), Owing, 1, true, false), 1 := Unqueued(g, Entering, 0, false, false)])
  }

  lemma SecondBindEnters()
    ensures Reachable(Retried(Acquired, Opened(ESME)))
  {
    EncodingFails();
    Then(AfterRefusal(Owing), Acquire(1, BTX), Retried(Acquired, Opened(ESME)));
  }

  /** A second bind takes the reservation. */
  lemma SecondBindReserves()
    ensures Reachable(Retried(Drawing, Binding()))
  {
    SecondBindEnters();
    Then(Retried(Acquired, Opened(ESME)), Begin(1), Retried(Drawing, Binding()));
  }

  lemma SecondBindAtRisk()
    ensures var y := Retried(Drawing, Binding());
            ReservationsHeld(y) && Enabled(y, OweCancel(0)) && Harmful(y, OweCancel(0))
  {
    var y := Retried(Drawing, Binding());
    assert 1 in y.reqs && Reserved(y.reqs[1].stage) && SameReservation(y.reqs[0].command, y.reqs[1].command);
  }

  /** Without the condition on the peer a late party does settle a newer reservation:
      the first caller's deferred cancel takes the second bind's. */
  lemma UnsolicitedResponseLosesReservation()
    ensures var y := Retried(Drawing, Binding());
            && Reachable(y) && ReservationsHeld(y) && Enabled(y, OweCancel(0)) && Harmful(y, OweCancel(0))
            && !ReservationsHeld(Next(y, OweCancel(0)))
  {
    SecondBindReserves();
    SecondBindAtRisk();
    ReachableCore(Retried(Drawing, Binding()));
    OweCancelHeldIff(Retried(Drawing, Binding()), 0);
  }
}
