/** The self-rescheduling inactivity slot (session/liveness.go) against the simple rule
    it stands for: end a bound session once nothing has come in for T. */
module Inactivity {
  import opened Bytes

  /** The callback: `now` captured, then the state read as bound, then the decision on
      the last inbound time it sees, then the end of the session. */
  datatype Fire = Idle | Captured(now: int) | SeenBound(now: int) | Ending(now: int, seen: int)

  datatype Sys = Sys(
    clock: int,
    bound: bool,
    boundAt: int,          // last entry to a bound state
    lastInbound: int,
    reading: Option<int>,  // the receive loop has read the clock for a PDU, not stored it yet
    due: Option<int>,      // the slot's deadline while it is in the heap
    fire: Fire,
    closed: bool,
    ended: bool)           // closed by inactivity

  /** New: the slot is first due T after the session starts. */
  function Init(t0: int, T: int): (y: Sys)
  {
    Sys(t0, false, t0, t0, None, Some(t0 + T), Idle, false, false)
  }

  datatype Act =
    | Tick(t: int) | EnterBound | LeaveBound | ReadClock | NoteInbound
    | Pop | CheckState | Decide | End | Close

  predicate Enabled(y: Sys, a: Act)
  {
    match a
    case Tick(t) => y.clock <= t
    case EnterBound => !y.bound
    case LeaveBound => y.bound
    case ReadClock => y.reading.None?
    case NoteInbound => y.reading.Some?
    case Pop => y.due.Some? && y.due.value <= y.clock && y.fire.Idle?
    case CheckState => y.fire.Captured?
    case Decide => y.fire.SeenBound?
    case End => y.fire.Ending?
    case Close => true
  }

  /** scheduleItemAt for the slot. */
  function Rescheduled(y: Sys, at: int, after: int): (z: Sys)
  {
    y.(fire := Idle, due := if after <= 0 then None else Some(at + after))
  }

  function Next(y: Sys, a: Act, T: int): (z: Sys)
    requires Enabled(y, a)
  {
    match a
    case Tick(t) => y.(clock := t)
    case EnterBound => y.(bound := true, boundAt := y.clock)
    case LeaveBound => y.(bound := false)
    case ReadClock => y.(reading := Some(y.clock))
    case NoteInbound => y.(lastInbound := y.reading.value, reading := None)
    case Pop => y.(due := None, fire := Captured(y.clock))
    case CheckState =>
      if y.closed then y.(fire := Idle)
      else if !y.bound then Rescheduled(y, y.fire.now, T)
      else y.(fire := SeenBound(y.fire.now))
    case Decide =>
      var idle := y.fire.now - y.lastInbound;
      if idle < T then Rescheduled(y, y.fire.now, T - idle)
      else y.(fire := Ending(y.fire.now, y.lastInbound))
    case End => y.(fire := Idle, closed := true, ended := true)
    case Close => y.(closed := true)
  }

  /** The slot is never due later than the simple rule asks for. */
  predicate SlotInTime(y: Sys, T: int)
  {
    y.bound && y.due.Some? ==> y.due.value <= (if y.lastInbound < y.boundAt then y.boundAt else y.lastInbound) + T
  }

  predicate Inv(y: Sys, T: int)
  {
    && y.lastInbound <= y.clock && y.boundAt <= y.clock
    && (y.reading.Some? ==> y.lastInbound <= y.reading.value <= y.clock)
    && (!y.fire.Idle? ==> y.due.None? && y.fire.now <= y.clock)
    && (y.fire.Ending? ==> y.fire.seen + T <= y.fire.now && y.fire.seen <= y.lastInbound)
    && (y.fire.Idle? && !y.closed ==> y.due.Some?)
    && (y.due.Some? ==> y.due.value <= y.clock + T)
    && SlotInTime(y, T)
  }

  predicate OfCallback(a: Act) { a.Pop? || a.CheckState? || a.Decide? || a.End? }

  lemma CallbackKeeps(y: Sys, a: Act, T: int)
    requires T > 0 && Inv(y, T) && Enabled(y, a) && OfCallback(a)
    ensures Inv(Next(y, a, T), T)
  {
  }

  lemma OthersKeep(y: Sys, a: Act, T: int)
    requires T > 0 && Inv(y, T) && Enabled(y, a) && !OfCallback(a)
    ensures Inv(Next(y, a, T), T)
  {
  }

  lemma StepKeeps(y: Sys, a: Act, T: int)
    requires T > 0 && Inv(y, T) && Enabled(y, a)
    ensures Inv(Next(y, a, T), T)
  {
    if OfCallback(a) {
      CallbackKeeps(y, a, T);
    } else {
      OthersKeep(y, a, T);
    }
  }

  predicate IsRun(y: Sys, acts: seq<Act>, T: int)
    decreases |acts|
  {
    acts == [] || (Enabled(y, acts[0]) && IsRun(Next(y, acts[0], T), acts[1..], T))
  }

  function RunTo(y: Sys, acts: seq<Act>, T: int): (z: Sys)
    requires IsRun(y, acts, T)
    decreases |acts|
  {
    if acts == [] then y else RunTo(Next(y, acts[0], T), acts[1..], T)
  }

  lemma {:induction false} RunKeeps(y: Sys, acts: seq<Act>, T: int)
    requires T > 0 && Inv(y, T) && IsRun(y, acts, T)
    ensures Inv(RunTo(y, acts, T), T)
    decreases |acts|
  {
    if acts == [] {
    } else {
      StepKeeps(y, acts[0], T);
      RunKeeps(Next(y, acts[0], T), acts[1..], T);
    }
  }

  /** In every run the open session always has its check scheduled or running, and while
      it is bound the slot's due time is never later than T after the last inbound PDU
      or the last entry to a bound state, although nothing touches the slot per PDU. */
  lemma SlotMeetsTheRule(t0: int, T: int, acts: seq<Act>)
    requires T > 0 && IsRun(Init(t0, T), acts, T)
    ensures var y := RunTo(Init(t0, T), acts, T);
            && SlotInTime(y, T)
            && (!y.closed ==> y.due.Some? || !y.fire.Idle?)
  {
    RunKeeps(Init(t0, T), acts, T);
  }

  // ----- Ended too early -----

  /** Some step of the run records a PDU that was read less than T before `at`. */
  predicate RecordsRecent(y: Sys, acts: seq<Act>, T: int, at: int)
    requires IsRun(y, acts, T)
    decreases |acts|
  {
    acts != [] &&
    (|| (acts[0].NoteInbound? && at < y.reading.value + T)
     || RecordsRecent(Next(y, acts[0], T), acts[1..], T, at))
  }

  lemma {:induction false} LastInboundIsRecentIff(y: Sys, acts: seq<Act>, T: int, at: int)
    requires T > 0 && Inv(y, T) && IsRun(y, acts, T)
    ensures at < RunTo(y, acts, T).lastInbound + T <==> at < y.lastInbound + T || RecordsRecent(y, acts, T, at)
    decreases |acts|
  {
    if acts == [] {
    } else {
      StepKeeps(y, acts[0], T);
      LastInboundIsRecentIff(Next(y, acts[0], T), acts[1..], T, at);
    }
  }

  /** The callback has just decided to end the session, on the last inbound time it saw. */
  predicate Decided(y: Sys) { y.fire.Ending? && y.fire.seen == y.lastInbound }

  /** Whatever happens after the decision, the end comes too early, less than T after an
      inbound PDU, if and only if one of the steps in between records a PDU that recent. */
  lemma EndedEarlyIff(y: Sys, acts: seq<Act>, T: int)
    requires T > 0 && Inv(y, T) && Decided(y) && IsRun(y, acts, T)
    ensures var z := RunTo(y, acts, T);
            z.clock < z.lastInbound + T <==> RecordsRecent(y, acts, T, z.clock)
  {
    ClockGrows(y, acts, T);
    LastInboundIsRecentIff(y, acts, T, RunTo(y, acts, T).clock);
  }

  lemma {:induction false} ClockGrows(y: Sys, acts: seq<Act>, T: int)
    requires IsRun(y, acts, T)
    ensures y.clock <= RunTo(y, acts, T).clock
    decreases |acts|
  {
    if acts == [] {
    } else {
      ClockGrows(Next(y, acts[0], T), acts[1..], T);
    }
  }

  /** A step that ends the session for inactivity follows a decision that saw nothing
      come in for T; so it is never early when no PDU has been recorded since. */
  lemma NeverEndedEarly(t0: int, T: int, acts: seq<Act>, a: Act)
    requires T > 0 && IsRun(Init(t0, T), acts, T)
    requires var y := RunTo(Init(t0, T), acts, T); Enabled(y, a) && !y.ended && Next(y, a, T).ended
    ensures var y := RunTo(Init(t0, T), acts, T);
            && y.fire.Ending? && y.fire.seen + T <= y.fire.now <= y.clock
            && (y.lastInbound == y.fire.seen ==> y.lastInbound + T <= y.clock)
  {
    RunKeeps(Init(t0, T), acts, T);
  }

  /** A PDU that arrives between the decision and the end does not stop it: from every
      state in which the end is decided, some continuation ends the session at the very
      moment a PDU has been recorded. */
  lemma EndsDespitePdu(y: Sys, T: int) returns (acts: seq<Act>)
    requires T > 0 && Inv(y, T) && y.fire.Ending?
    ensures IsRun(y, acts, T)
    ensures var z := RunTo(y, acts, T); Enabled(z, End) && z.lastInbound == z.clock < z.lastInbound + T
  {
    var x := if y.reading.Some? then Next(y, NoteInbound, T) else y;
    acts := [];
    acts := RunBefore(Next(x, ReadClock, T), NoteInbound, acts, T);
    acts := RunBefore(x, ReadClock, acts, T);
    if y.reading.Some? {
      acts := RunBefore(y, NoteInbound, acts, T);
    }
  }

  /** And such a state is reached, for every T. */
  lemma EndIsDecided(t0: int, T: int) returns (acts: seq<Act>)
    requires T > 0
    ensures IsRun(Init(t0, T), acts, T)
    ensures var y := RunTo(Init(t0, T), acts, T); Decided(y) && !y.ended
  {
    var y1 := Next(Next(Init(t0, T), EnterBound, T), Tick(t0 + T), T);
    acts := [];
    acts := RunBefore(Next(Next(y1, Pop, T), CheckState, T), Decide, acts, T);
    acts := RunBefore(Next(y1, Pop, T), CheckState, acts, T);
    acts := RunBefore(y1, Pop, acts, T);
    acts := RunBefore(Next(Init(t0, T), EnterBound, T), Tick(t0 + T), acts, T);
    acts := RunBefore(Init(t0, T), EnterBound, acts, T);
  }

  lemma RunBefore(y: Sys, a: Act, rest: seq<Act>, T: int) returns (acts: seq<Act>)
    requires Enabled(y, a) && IsRun(Next(y, a, T), rest, T)
    ensures IsRun(y, acts, T) && RunTo(y, acts, T) == RunTo(Next(y, a, T), rest, T)
  {
    acts := [a] + rest;
    assert acts[1..] == rest;
  }

  /** The four steps of one firing at time `at`, with nothing in between. */
  function Fired(y: Sys, at: int, T: int): (z: Sys)
    requires y.fire.Idle? && y.due.Some? && y.due.value <= at && y.clock <= at && y.bound && !y.closed
  {
    var z := Next(Next(Next(y.(clock := at), Pop, T), CheckState, T), Decide, T);
    if z.fire.Ending? then Next(z, End, T) else z
  }

  /** A silent bound session does end: a firing at the due time, or any time later, ends
      it or moves the due time to exactly T after the last inbound PDU, and the firing
      there ends it. */
  lemma SilentSessionEnds(y: Sys, at: int, T: int)
    requires T > 0 && Inv(y, T) && y.fire.Idle? && y.bound && !y.closed && y.clock <= at && y.due.value <= at
    ensures var z := Fired(y, at, T);
            z.ended || (z.due == Some(y.lastInbound + T) && z.clock < y.lastInbound + T
                        && Fired(z, y.lastInbound + T, T).ended)
  {
  }
}
