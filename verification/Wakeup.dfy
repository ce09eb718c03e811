/** The sleeping deadline runner and its one-slot wake channel (session/deadline.go):
    no wake-up is lost in any interleaving. */
module Wakeup {
  import opened Bytes

  /** Top: about to lock and look at the heap. Asleep: in select, until a time or
      forever. Firing: the timer has fired, expireReady is next. */
  datatype Runner = Top | Asleep(until: Option<int>) | Firing | Stopped

  datatype Sys = Sys(
    clock: int,
    heap: map<nat, int>,  // scheduled items and their deadlines
    token: bool,          // the wake channel's single slot
    signallers: nat,      // parties between unlock and the send on the wake channel
    runner: Runner)

  datatype Act =
    | Tick(t: int)
    | Schedule(k: nat, at: int)
    | Cancel(k: nat, atRoot: bool)
    | Send
    | Look
    | Wake
    | TimerFires
    | ExpireReady
    | Stop

  predicate Earliest(heap: map<nat, int>, at: int) { forall k | k in heap :: at < heap[k] }

  predicate IsHead(heap: map<nat, int>, k: nat) { k in heap && forall j | j in heap :: heap[k] <= heap[j] }

  /** Nothing else can be at the root. */
  predicate OnlyHead(heap: map<nat, int>, k: nat) { k in heap && forall j | j in heap && j != k :: heap[k] < heap[j] }

  /** The deadline at the root of the heap. */
  lemma HeadExists(heap: map<nat, int>)
    requires heap != map[]
    ensures exists k :: IsHead(heap, k)
  {
    var k :| k in heap;
    HeadBelow(heap, heap.Keys, k);
  }

  lemma {:induction false} HeadBelow(heap: map<nat, int>, ks: set<nat>, k: nat)
    requires ks <= heap.Keys && k in heap
    requires forall j | j in heap && j !in ks :: heap[k] <= heap[j]
    ensures exists h :: IsHead(heap, h)
    decreases ks
  {
    if ks == {} {
      assert IsHead(heap, k);
    } else {
      var j :| j in ks;
      HeadBelow(heap, ks - {j}, if heap[j] < heap[k] then j else k);
    }
  }

  ghost predicate Enabled(y: Sys, a: Act)
  {
    match a
    case Tick(t) => y.clock <= t
    case Schedule(k, _) => k !in y.heap
    case Cancel(k, atRoot) => if atRoot then IsHead(y.heap, k) else !OnlyHead(y.heap, k)
    case Send => y.signallers > 0
    case Look => y.runner.Top?
    case Wake => y.runner.Asleep? && y.token
    case TimerFires => y.runner.Asleep? && y.runner.until.Some? && y.runner.until.value <= y.clock
    case ExpireReady => y.runner.Firing?
    case Stop => y.runner.Asleep?
  }

  ghost function Next(y: Sys, a: Act): (z: Sys)
    requires Enabled(y, a)
  {
    match a
    case Tick(t) => y.(clock := t)
    case Schedule(k, at) =>
      y.(heap := y.heap[k := at], signallers := if Earliest(y.heap, at) then y.signallers + 1 else y.signallers)
    case Cancel(k, atRoot) => y.(heap := y.heap - {k}, signallers := if atRoot then y.signallers + 1 else y.signallers)
    case Send => y.(signallers := y.signallers - 1, token := true)
    case Look =>
      if y.heap == map[] then y.(runner := Asleep(None)) else
        HeadExists(y.heap);
        var k :| IsHead(y.heap, k);
        y.(runner := Asleep(Some(y.heap[k])))
    case Wake => y.(token := false, runner := Top)
    case TimerFires => y.(runner := Firing)
    case ExpireReady => y.(heap := map k | k in y.heap && y.heap[k] > y.clock :: y.heap[k], runner := Top)
    case Stop => y.(runner := Stopped)
  }

  /** The runner sleeps past the deadline of something in the heap. */
  predicate Oversleeps(y: Sys)
  {
    y.runner.Asleep? && exists k | k in y.heap :: y.runner.until.None? || y.heap[k] < y.runner.until.value
  }

  predicate NoLostWakeup(y: Sys)
  {
    Oversleeps(y) ==> y.token || y.signallers > 0
  }

  lemma ScheduleWakes(y: Sys, k: nat, at: int)
    requires NoLostWakeup(y) && Enabled(y, Schedule(k, at))
    ensures NoLostWakeup(Next(y, Schedule(k, at)))
  {
    if !Earliest(y.heap, at) {
      var j :| j in y.heap && y.heap[j] <= at;
    }
  }

  lemma StepKeeps(y: Sys, a: Act)
    requires NoLostWakeup(y) && Enabled(y, a)
    ensures NoLostWakeup(Next(y, a))
  {
    match a
    case Schedule(k, at) => ScheduleWakes(y, k, at);
    case _ =>
  }

  ghost predicate IsRun(y: Sys, acts: seq<Act>)
    decreases |acts|
  {
    acts == [] || (Enabled(y, acts[0]) && IsRun(Next(y, acts[0]), acts[1..]))
  }

  ghost function RunTo(y: Sys, acts: seq<Act>): (z: Sys)
    requires IsRun(y, acts)
    decreases |acts|
  {
    if acts == [] then y else RunTo(Next(y, acts[0]), acts[1..])
  }

  function Init(clock: int): (y: Sys) { Sys(clock, map[], false, 0, Top) }

  lemma {:induction false} RunKeeps(y: Sys, acts: seq<Act>)
    requires NoLostWakeup(y) && IsRun(y, acts)
    ensures NoLostWakeup(RunTo(y, acts))
    decreases |acts|
  {
    if acts == [] {
    } else {
      StepKeeps(y, acts[0]);
      RunKeeps(Next(y, acts[0]), acts[1..]);
    }
  }

  /** In every interleaving: while the runner sleeps until w, or forever, and something
      in the heap is due earlier, a wake token is in the channel or a signaller is on
      its way to put one there. */
  lemma NeverLost(clock: int, acts: seq<Act>)
    requires IsRun(Init(clock), acts)
    ensures NoLostWakeup(RunTo(Init(clock), acts))
  {
    RunKeeps(Init(clock), acts);
  }

  /** The runner sleeps until the deadline at the root, or forever if there is none. */
  ghost predicate SleepsToHead(y: Sys)
  {
    y.runner.Asleep? ==>
      if y.runner.until.None? then y.heap == map[]
      else exists k :: IsHead(y.heap, k) && y.heap[k] == y.runner.until.value
  }

  ghost predicate Exact(y: Sys) { SleepsToHead(y) || y.token || y.signallers > 0 }

  lemma ScheduleExact(y: Sys, k: nat, at: int)
    requires Exact(y) && Enabled(y, Schedule(k, at))
    ensures Exact(Next(y, Schedule(k, at)))
  {
    var z := Next(y, Schedule(k, at));
    if !Earliest(y.heap, at) && SleepsToHead(y) && y.runner.Asleep? {
      var j :| j in y.heap && y.heap[j] <= at;
      var h :| IsHead(y.heap, h) && y.heap[h] == y.runner.until.value;
      assert IsHead(z.heap, h);
    }
  }

  lemma CancelExact(y: Sys, k: nat, atRoot: bool)
    requires Exact(y) && Enabled(y, Cancel(k, atRoot))
    ensures Exact(Next(y, Cancel(k, atRoot)))
  {
    var z := Next(y, Cancel(k, atRoot));
    if !atRoot && SleepsToHead(y) && y.runner.Asleep? && y.runner.until.Some? {
      var h :| IsHead(y.heap, h) && y.heap[h] == y.runner.until.value;
      if h != k {
        assert IsHead(z.heap, h);
      } else {
        var j :| j in y.heap && j != k && y.heap[j] <= y.heap[k];
        assert IsHead(z.heap, j);
      }
    }
  }

  lemma StepExact(y: Sys, a: Act)
    requires Exact(y) && Enabled(y, a)
    ensures Exact(Next(y, a))
  {
    match a
    case Schedule(k, at) => ScheduleExact(y, k, at);
    case Cancel(k, atRoot) => CancelExact(y, k, atRoot);
    case _ =>
  }

  lemma {:induction false} RunExact(y: Sys, acts: seq<Act>)
    requires Exact(y) && IsRun(y, acts)
    ensures Exact(RunTo(y, acts))
    decreases |acts|
  {
    if acts == [] {
    } else {
      StepExact(y, acts[0]);
      RunExact(Next(y, acts[0]), acts[1..]);
    }
  }

  /** In every interleaving: as long as nothing is on its way to wake it, the runner sleeps
      until exactly the earliest deadline, and forever only when there is none. */
  lemma SleepsExactly(clock: int, acts: seq<Act>)
    requires IsRun(Init(clock), acts)
    ensures var y := RunTo(Init(clock), acts); y.token || y.signallers > 0 || SleepsToHead(y)
  {
    RunExact(Init(clock), acts);
  }

  /** An item leaves the heap when it is cancelled or due, never earlier. */
  lemma NeverExpiresEarly(y: Sys, a: Act, k: nat)
    requires Enabled(y, a) && k in y.heap
    ensures var z := Next(y, a);
            if k in z.heap then z.heap[k] == y.heap[k]
            else (a.Cancel? && a.k == k) || (a.ExpireReady? && y.heap[k] <= y.clock)
  {
  }

  lemma RunOne(y: Sys, a: Act, acts: seq<Act>)
    requires Enabled(y, a) && IsRun(Next(y, a), acts)
    ensures IsRun(y, [a] + acts) && RunTo(y, [a] + acts) == RunTo(Next(y, a), acts)
  {
    assert ([a] + acts)[1..] == acts;
  }

  /** Only what is not due is left, at the same time. */
  ghost predicate Expired(y: Sys, z: Sys)
  {
    z.clock == y.clock && z.heap == map k | k in y.heap && y.heap[k] > y.clock :: y.heap[k]
  }

  lemma FiringExpires(y: Sys) returns (acts: seq<Act>)
    requires y.runner.Firing?
    ensures IsRun(y, acts) && |acts| == 1 && Expired(y, RunTo(y, acts))
  {
    acts := [ExpireReady] + [];
    RunOne(y, ExpireReady, []);
  }

  lemma TopExpires(y: Sys, k: nat) returns (acts: seq<Act>)
    requires y.runner.Top? && k in y.heap && y.heap[k] <= y.clock
    ensures IsRun(y, acts) && |acts| == 3 && Expired(y, RunTo(y, acts))
  {
    var z := Next(y, Look);
    var w := Next(z, TimerFires);
    var rest := FiringExpires(w);
    RunOne(z, TimerFires, rest);
    RunOne(y, Look, [TimerFires] + rest);
    acts := [Look] + ([TimerFires] + rest);
  }

  lemma AsleepExpires(y: Sys, k: nat) returns (acts: seq<Act>)
    requires NoLostWakeup(y) && y.runner.Asleep? && k in y.heap && y.heap[k] <= y.clock
    ensures IsRun(y, acts) && |acts| <= 5 && Expired(y, RunTo(y, acts))
  {
    if Enabled(y, TimerFires) {
      var rest := FiringExpires(Next(y, TimerFires));
      RunOne(y, TimerFires, rest);
      acts := [TimerFires] + rest;
    } else if y.token {
      var rest := TopExpires(Next(y, Wake), k);
      RunOne(y, Wake, rest);
      acts := [Wake] + rest;
    } else {
      var z := Next(y, Send);
      var rest := TopExpires(Next(z, Wake), k);
      RunOne(z, Wake, rest);
      RunOne(y, Send, [Wake] + rest);
      acts := [Send] + ([Wake] + rest);
    }
  }

  /** From every reachable state in which something is due and the runner has not stopped,
      at most five steps, without the clock moving, expire everything that is due and
      nothing else. */
  lemma DueItemsExpire(clock: int, before: seq<Act>, k: nat) returns (acts: seq<Act>)
    requires IsRun(Init(clock), before)
    requires var y := RunTo(Init(clock), before); k in y.heap && y.heap[k] <= y.clock && !y.runner.Stopped?
    ensures var y := RunTo(Init(clock), before); IsRun(y, acts) && |acts| <= 5 && Expired(y, RunTo(y, acts))
  {
    var y := RunTo(Init(clock), before);
    NeverLost(clock, before);
    match y.runner
    case Firing => acts := FiringExpires(y);
    case Top => acts := TopExpires(y, k);
    case Asleep(_) => acts := AsleepExpires(y, k);
  }

  /** Hence a due item never waits on a runner that nothing will move: the timer can
      fire, a token can wake it, or a signaller can send one. */
  lemma DueItemIsServed(clock: int, acts: seq<Act>, k: nat)
    requires IsRun(Init(clock), acts)
    requires var y := RunTo(Init(clock), acts); k in y.heap && y.heap[k] <= y.clock && !y.runner.Stopped?
    ensures var y := RunTo(Init(clock), acts);
            Enabled(y, Look) || Enabled(y, ExpireReady) || Enabled(y, TimerFires) || Enabled(y, Wake) ||
                Enabled(y, Send)
  {
    NeverLost(clock, acts);
  }
}
