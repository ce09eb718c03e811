/** Sequence numbers: the generator of session/sequence.go and the allocation loop of
    session/session.go, alone and against every interleaving of other callers. */
module Sequence {
  import opened Bytes

  const MAX := 0x7fff_ffff // the largest number this side may issue

  /** The number issued after v, in 32-bit arithmetic. */
  function After(v: uint32): (n: uint32)
  {
    var next := (v as int + 1) % 0x1_0000_0000;
    if v >= MAX || next == 0 then 1 else next
  }

  /** The i-th number drawn after v. */
  function Drawn(v: uint32, i: nat): (n: uint32)
  {
    if i == 0 then v else After(Drawn(v, i - 1))
  }

  lemma {:induction false} DrawnAgain(v: uint32, i: nat, j: nat)
    ensures Drawn(Drawn(v, i), j) == Drawn(v, i + j)
  {
    if j == 0 {
    } else {
      DrawnAgain(v, i, j - 1);
    }
  }

  function Sum(ns: seq<nat>): (n: nat)
  {
    if ns == [] then 0 else Sum(ns[..|ns| - 1]) + ns[|ns| - 1]
  }

  class SequenceGenerator {
    var value: uint32

    constructor ()
      ensures value == 0
    {
      value := 0;
    }

    /** Next against other callers: in turn k of the compare-and-swap loop others draw
        rivals[k] numbers between the load and the swap, and none once that list is used
        up. Whatever they do, the call is one draw of its own after theirs. */
    method Next(rivals: seq<nat>) returns (n: uint32, turns: nat)
      modifies this
      ensures turns <= |rivals| && n == Drawn(old(value), Sum(rivals[..turns]) + 1) && value == n
      ensures 1 <= n <= 0x7fff_ffff
    {
      turns := 0;
      while true
        invariant turns <= |rivals| && value == Drawn(old(value), Sum(rivals[..turns]))
        decreases |rivals| - turns
      {
        var current := value;
        n := (current as int + 1) % 0x1_0000_0000;
        if current >= MAX || n == 0 {
          n := 1;
        }
        if turns < |rivals| {
          assert rivals[..turns + 1][..turns] == rivals[..turns];
          DrawnAgain(old(value), Sum(rivals[..turns]), rivals[turns]);
          value := Drawn(value, rivals[turns]);
          turns := turns + 1;
        }
        if value == current {
          value := n;
          return;
        }
      }
    }
  }

  /** Draws count through 1..MAX and around. */
  lemma {:induction false} DrawnIs(v: uint32, i: nat)
    requires v <= MAX && i > 0
    ensures Drawn(v, i) == (v as int + i - 1) % MAX + 1
  {
    if i <= 1 {
    } else {
      DrawnIs(v, i - 1);
      RoundTheCycle(v as int + i - 2);
    }
  }

  lemma RoundTheCycle(k: nat)
    ensures (k + 1) % MAX == if k % MAX + 1 == MAX then 0 else k % MAX + 1
  {
  }

  lemma DifferentResidues(a: nat, b: nat)
    requires a < b < a + MAX
    ensures a % MAX != b % MAX
  {
    assert a == a / MAX * MAX + a % MAX && b == b / MAX * MAX + b % MAX;
  }

  /** Numbers stay in 1..0x7fffffff, as section 5.1.4 of SMPP 3.4 asks, and any 0x7fffffff
      draws in a row are distinct. */
  lemma DrawsAreDistinct(v: uint32, i: nat, j: nat)
    requires v <= 0x7fff_ffff && 0 < i < j < i + 0x7fff_ffff
    ensures 1 <= Drawn(v, i) <= 0x7fff_ffff && Drawn(v, i) != Drawn(v, j)
  {
    DrawnIs(v, i);
    DrawnIs(v, j);
    DifferentResidues(v as int + i - 1, v as int + j - 1);
  }

  // ----- The allocation loop among other callers -----

  /** While one caller runs its loop, others draw numbers (p identifies them), insert
      what they drew, or give it up, and entries leave the table. */
  datatype Event = Draw | Try | OtherDraws(p: nat) | OtherInserts(p: nat) | OtherDrops(p: nat) | Leaves(s: nat)

  datatype Alloc = Alloc(
    value: uint32,
    table: set<nat>,
    held: map<nat, nat>,  // drawn by another caller, not inserted yet
    mine: Option<nat>,    // drawn by this caller, not tried yet
    failures: nat,           // tries that found the number in use
    inserted: Option<nat>,
    owners: seq<bool>)       // for each draw since the loop began: was it this caller's

  predicate Enabled(x: Alloc, e: Event)
  {
    match e
    case Draw => x.inserted.None? && x.mine.None?
    case Try => x.mine.Some?
    case OtherDraws(p) => true
    case OtherInserts(p) => p in x.held && x.held[p] !in x.table
    case OtherDrops(p) => p in x.held
    case Leaves(s) => s in x.table
  }

  function Step(x: Alloc, e: Event): (z: Alloc)
    requires Enabled(x, e)
  {
    match e
    case Draw => x.(value := After(x.value), mine := Some(After(x.value)), owners := x.owners + [true])
    case Try =>
      if x.mine.value in x.table then x.(mine := None, failures := x.failures + 1)
      else x.(mine := None, inserted := x.mine, table := x.table + {x.mine.value})
    case OtherDraws(p) =>
      x.(value := After(x.value), held := x.held[p := After(x.value)], owners := x.owners + [false])
    case OtherInserts(p) => x.(table := x.table + {x.held[p]}, held := x.held - {p})
    case OtherDrops(p) => x.(held := x.held - {p})
    case Leaves(s) => x.(table := x.table - {s})
  }

  predicate IsRun(x: Alloc, es: seq<Event>)
    decreases |es|
  {
    es == [] || (Enabled(x, es[0]) && IsRun(Step(x, es[0]), es[1..]))
  }

  function RunTo(x: Alloc, es: seq<Event>): (z: Alloc)
    requires IsRun(x, es)
    decreases |es|
  {
    if es == [] then x else RunTo(Step(x, es[0]), es[1..])
  }

  predicate Starts(x: Alloc)
  {
    x.value <= MAX && x.mine.None? && x.failures == 0 && x.inserted.None? && x.owners == []
  }

  /** The numbers in use when the loop begins: in the table, or drawn by someone who may
      still insert them. */
  function Busy(x: Alloc): (s: set<nat>)
  {
    x.table + x.held.Values
  }

  /** n was drawn since the loop began, by this caller (own) or by another. */
  predicate DrawnBy(v0: uint32, owners: seq<bool>, n: nat, own: bool)
  {
    exists i | 0 <= i < |owners| :: owners[i] == own && Drawn(v0, i + 1) == n
  }

  /** Relative to the start (v0, busy): what this caller failed on was busy from the
      start, each number once. */
  ghost predicate Inv(v0: uint32, busy: set<nat>, failed: set<nat>, x: Alloc)
  {
    && x.value == Drawn(v0, |x.owners|)
    && |failed| == x.failures && failed <= busy
    && (forall n | n in failed :: DrawnBy(v0, x.owners, n, true))
    && (x.mine.Some? ==> x.mine.value !in failed && DrawnBy(v0, x.owners, x.mine.value, true))
    && (x.inserted.None? ==>
          && (forall n | n in x.table :: n in busy || DrawnBy(v0, x.owners, n, false))
          && (forall p | p in x.held :: x.held[p] in busy || DrawnBy(v0, x.owners, x.held[p], false)))
  }

  lemma DrawnByGrows(v0: uint32, owners: seq<bool>, o: bool, n: nat, own: bool)
    requires DrawnBy(v0, owners, n, own)
    ensures DrawnBy(v0, owners + [o], n, own)
  {
    var i :| 0 <= i < |owners| && owners[i] == own && Drawn(v0, i + 1) == n;
    assert (owners + [o])[i] == own;
  }

  lemma DrawnNow(v0: uint32, owners: seq<bool>, o: bool)
    ensures DrawnBy(v0, owners + [o], Drawn(v0, |owners| + 1), o)
  {
    assert (owners + [o])[|owners|] == o;
  }

  /** Within MAX draws a new number is not one drawn before. */
  lemma NewIsFresh(v0: uint32, owners: seq<bool>, n: nat, own: bool)
    requires v0 <= MAX && |owners| < MAX && DrawnBy(v0, owners, n, own)
    ensures n != Drawn(v0, |owners| + 1)
  {
    var i :| 0 <= i < |owners| && owners[i] == own && Drawn(v0, i + 1) == n;
    DrawsAreDistinct(v0, i + 1, |owners| + 1);
  }

  /** Nobody else can have drawn what this caller drew. */
  lemma OneOwner(v0: uint32, owners: seq<bool>, n: nat)
    requires v0 <= MAX && |owners| <= MAX && DrawnBy(v0, owners, n, true)
    ensures !DrawnBy(v0, owners, n, false)
  {
    var i :| 0 <= i < |owners| && owners[i] == true && Drawn(v0, i + 1) == n;
    forall j | 0 <= j < |owners| && owners[j] == false
      ensures Drawn(v0, j + 1) != n
    {
      if i < j { DrawsAreDistinct(v0, i + 1, j + 1); } else { DrawsAreDistinct(v0, j + 1, i + 1); }
    }
  }

  /** The failed numbers after one more step. */
  function FailedNext(failed: set<nat>, x: Alloc, e: Event): (f: set<nat>)
  {
    if e.Try? && x.mine.Some? && x.mine.value in x.table then failed + {x.mine.value} else failed
  }

  lemma DrawKeeps(v0: uint32, busy: set<nat>, failed: set<nat>, x: Alloc, e: Event)
    requires v0 <= MAX && Inv(v0, busy, failed, x) && Enabled(x, e) && (e.Draw? || e.OtherDraws?) && |x.owners| < MAX
    ensures Inv(v0, busy, failed, Step(x, e))
  {
    var o := e.Draw?;
    DrawnNow(v0, x.owners, o);
    forall n, own | DrawnBy(v0, x.owners, n, own)
      ensures DrawnBy(v0, x.owners + [o], n, own) && n != Drawn(v0, |x.owners| + 1)
    {
      DrawnByGrows(v0, x.owners, o, n, own);
      NewIsFresh(v0, x.owners, n, own);
    }
  }

  lemma TryKeeps(v0: uint32, busy: set<nat>, failed: set<nat>, x: Alloc)
    requires v0 <= MAX && Inv(v0, busy, failed, x) && Enabled(x, Try) && |x.owners| <= MAX && x.inserted.None?
    ensures Inv(v0, busy, FailedNext(failed, x, Try), Step(x, Try))
  {
    OneOwner(v0, x.owners, x.mine.value);
  }

  lemma StepKeeps(v0: uint32, busy: set<nat>, failed: set<nat>, x: Alloc, e: Event)
    requires v0 <= MAX && Inv(v0, busy, failed, x) && Enabled(x, e) && |Step(x, e).owners| <= MAX
    requires x.inserted.Some? ==> x.mine.None?
    ensures Inv(v0, busy, FailedNext(failed, x, e), Step(x, e))
    ensures Step(x, e).inserted.Some? ==> Step(x, e).mine.None?
  {
    match e
    case Draw => DrawKeeps(v0, busy, failed, x, e);
    case OtherDraws(_) => DrawKeeps(v0, busy, failed, x, e);
    case Try => TryKeeps(v0, busy, failed, x);
    case OtherInserts(_) | OtherDrops(_) | Leaves(_) =>
  }

  /** Draws never decrease along a run. */
  lemma {:induction false} DrawsGrow(x: Alloc, es: seq<Event>)
    requires IsRun(x, es)
    ensures |x.owners| <= |RunTo(x, es).owners|
    decreases |es|
  {
    if es == [] {
    } else {
      DrawsGrow(Step(x, es[0]), es[1..]);
    }
  }

  lemma {:induction false} FailuresFrom(v0: uint32, busy: set<nat>, failed: set<nat>, x: Alloc, es: seq<Event>)
    requires v0 <= MAX && Inv(v0, busy, failed, x) && (x.inserted.Some? ==> x.mine.None?)
    requires IsRun(x, es) && |RunTo(x, es).owners| <= MAX
    ensures RunTo(x, es).failures <= |busy|
    decreases |es|
  {
    if es == [] {
      SubsetCard(failed, busy);
    } else {
      DrawsGrow(Step(x, es[0]), es[1..]);
      StepKeeps(v0, busy, failed, x, es[0]);
      FailuresFrom(v0, busy, FailedNext(failed, x, es[0]), Step(x, es[0]), es[1..]);
    }
  }

  lemma {:induction false} SubsetCard(a: set<nat>, b: set<nat>)
    requires a <= b
    ensures |a| <= |b|
  {
    if a == {} {
    } else {
      var n :| n in a;
      SubsetCard(a - {n}, b - {n});
    }
  }

  /** Whatever the other callers do meanwhile, as long as fewer than a full cycle of
      numbers is drawn, the loop fails at most once for every number that was in use, or
      drawn and not yet inserted, when it began. */
  lemma FailuresAreBounded(x: Alloc, es: seq<Event>)
    requires Starts(x) && IsRun(x, es) && |RunTo(x, es).owners| <= MAX
    ensures RunTo(x, es).failures <= |Busy(x)|
  {
    FailuresFrom(x.value, Busy(x), {}, x, es);
  }

  /** With one window token per caller there are fewer than maxPending such numbers, so
      one of the maxPending + 1 attempts succeeds. */
  lemma AllocationSucceeds(x: Alloc, es: seq<Event>, window: nat, maxPending: nat)
    requires Starts(x) && IsRun(x, es) && |RunTo(x, es).owners| <= MAX
    requires |x.table| + |x.held| < window <= maxPending
    ensures RunTo(x, es).failures < maxPending + 1
  {
    FailuresAreBounded(x, es);
    HeldCard(x.held);
    assert |x.table + x.held.Values| <= |x.table| + |x.held.Values|;
  }

  lemma {:induction false} HeldCard(m: map<nat, nat>)
    ensures |m.Values| <= |m|
    decreases |m|
  {
    if |m| > 0 {
      var p :| p in m;
      var n := m - {p};
      HeldCard(n);
      forall v | v in m.Values
        ensures v in n.Values + {m[p]}
      {
        var k :| k in m && m[k] == v;
        assert k == p || n[k] == v;
      }
      SubsetCard(m.Values, n.Values + {m[p]});
    } else {
      assert m.Values == {};
    }
  }

  // ----- The loop itself -----

  /** Every failed number is one of the first draws. */
  ghost predicate Tried(v: uint32, failed: set<nat>, attempts: nat)
  {
    forall n | n in failed :: exists i | 0 < i <= attempts :: Drawn(v, i) == n
  }

  lemma TriedMore(v: uint32, failed: set<nat>, attempts: nat)
    requires v <= MAX && Tried(v, failed, attempts) && attempts < MAX
    ensures Drawn(v, attempts + 1) !in failed && Tried(v, failed + {Drawn(v, attempts + 1)}, attempts + 1)
  {
    forall i | 0 < i <= attempts
      ensures Drawn(v, i) != Drawn(v, attempts + 1)
    {
      DrawsAreDistinct(v, i, attempts + 1);
    }
  }

  /** request's allocation loop over a table nobody else touches meanwhile. */
  method Allocate(gen: SequenceGenerator, table: set<nat>, maxPending: nat) returns (r: Result<uint32>)
    requires gen.value <= MAX && maxPending + 1 <= MAX
    modifies gen
    ensures |table| >= maxPending ==> r == Err(Rejected)
    ensures |table| < maxPending ==> r.Ok? && r.value !in table && 1 <= r.value <= MAX
    ensures 1 <= gen.value <= MAX
  {
    var attempts := 0;
    ghost var v0 := gen.value;
    ghost var failed: set<nat> := {};
    while attempts <= maxPending
      invariant attempts <= maxPending + 1 && gen.value == Drawn(v0, attempts) && gen.value <= MAX
      invariant attempts > 0 ==> |table| < maxPending && gen.value >= 1
      invariant failed <= table && |failed| == attempts
      invariant Tried(v0, failed, attempts)
    {
      var sequence, turns := gen.Next([]);
      if |table| >= maxPending {
        return Err(Rejected);
      }
      if sequence !in table {
        return Ok(sequence);
      }
      TriedMore(v0, failed, attempts);
      failed := failed + {sequence};
      attempts := attempts + 1;
    }
    SubsetCard(failed, table);
    r := Err(Rejected);
  }
}
