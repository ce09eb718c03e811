/** Any mix of schedule, cancel and expireReady: the indexed heap behaves as the simple
    table from items to deadlines. */
module DeadlineRuns {
  import opened DeadlineHeap

  datatype Op = Schedule(k: nat, at: int) | Cancel(k: nat) | Expire(now: int)

  /** The simple form: which items are scheduled, and when they are due. */
  type Table = map<nat, int>

  function Applied(t: Table, op: Op): (u: Table)
  {
    match op
    case Schedule(k, at) => t[k := at]
    case Cancel(k) => t - {k}
    case Expire(now) => map k | k in t && t[k] > now :: t[k]
  }

  /** An item is not scheduled again while it is in the heap. */
  predicate Allowed(t: Table, op: Op, n: nat)
  {
    match op
    case Schedule(k, _) => k < n && k !in t
    case Cancel(k) => k < n
    case Expire(_) => true
  }

  predicate Distinct(items: seq<DeadlineItem>)
  {
    forall i, j | 0 <= i < j < |items| :: items[i] != items[j]
  }

  /** What the table says about item k holds of the heap. */
  ghost predicate AgreesOn(m: DeadlineManager, x: DeadlineItem, t: Table, k: nat)
    reads m, x
  {
    && (x in m.heap <==> k in t)
    && (k in t ==> x.at == t[k])
    && (k !in t ==> x.index == -1)
  }

  ghost predicate Agrees(m: DeadlineManager, items: seq<DeadlineItem>, t: Table)
    reads m, m.heap, items
  {
    && Distinct(items) && m.Valid()
    && (forall i | 0 <= i < |m.heap| :: m.heap[i] in items)
    && (forall k | k in t :: k < |items|)
    && forall k | 0 <= k < |items| :: AgreesOn(m, items[k], t, k)
  }

  lemma AddedIn(s: seq<DeadlineItem>, t: seq<DeadlineItem>, x: DeadlineItem, y: DeadlineItem)
    requires multiset(t) == multiset(s) + multiset{x}
    ensures y in t <==> y in s || y == x
  {
    assert y in t <==> y in multiset(t);
    assert y in s <==> y in multiset(s);
  }

  lemma SplitIn(s: seq<DeadlineItem>, t: seq<DeadlineItem>, u: seq<DeadlineItem>, y: DeadlineItem)
    requires multiset(s) + multiset(t) == multiset(u)
    ensures y in u <==> y in s || y in t
  {
    assert y in u <==> y in multiset(u);
    assert y in s <==> y in multiset(s);
    assert y in t <==> y in multiset(t);
  }

  method DoSchedule(m: DeadlineManager, items: seq<DeadlineItem>, ghost t: Table, k: nat, at: int)
    requires Agrees(m, items, t) && k < |items| && k !in t
    modifies m, items
    ensures Agrees(m, items, t[k := at])
  {
    assert AgreesOn(m, items[k], t, k);
    ghost var was := m.heap;
    var _, _ := m.ScheduleItemAt(items[k], at - 1, 1);
    forall i | 0 <= i < |items|
      ensures AgreesOn(m, items[i], t[k := at], i)
    {
      AddedIn(was, m.heap, items[k], items[i]);
    }
    forall i | 0 <= i < |m.heap|
      ensures m.heap[i] in items
    {
      AddedIn(was, m.heap, items[k], m.heap[i]);
    }
  }

  method DoCancel(m: DeadlineManager, items: seq<DeadlineItem>, ghost t: Table, k: nat)
    requires Agrees(m, items, t) && k < |items|
    modifies m, items
    ensures Agrees(m, items, t - {k})
  {
    ghost var was := m.heap;
    var _ := m.Cancel(items[k]);
    forall i | 0 <= i < |items|
      ensures AgreesOn(m, items[i], t - {k}, i)
    {
      if items[k] in was { AddedIn(m.heap, was, items[k], items[i]); }
    }
    forall i | 0 <= i < |m.heap|
      ensures m.heap[i] in items
    {
      if items[k] in was { AddedIn(m.heap, was, items[k], m.heap[i]); }
    }
  }

  method DoExpire(m: DeadlineManager, items: seq<DeadlineItem>, ghost t: Table, now: int)
    requires Agrees(m, items, t)
    modifies m, items
    ensures Agrees(m, items, Applied(t, Expire(now)))
  {
    ghost var was := m.heap;
    var expired := m.ExpireReady(now);
    forall i | 0 <= i < |items|
      ensures AgreesOn(m, items[i], Applied(t, Expire(now)), i)
    {
      SplitIn(expired, m.heap, was, items[i]);
    }
  }

  predicate AllAllowed(t: Table, ops: seq<Op>, n: nat)
    decreases |ops|
  {
    ops == [] || (Allowed(t, ops[0], n) && AllAllowed(Applied(t, ops[0]), ops[1..], n))
  }

  function AppliedAll(t: Table, ops: seq<Op>): (u: Table)
    decreases |ops|
  {
    if ops == [] then t else AppliedAll(Applied(t, ops[0]), ops[1..])
  }

  method DoOne(m: DeadlineManager, items: seq<DeadlineItem>, ghost t: Table, op: Op)
    requires Agrees(m, items, t) && Allowed(t, op, |items|)
    modifies m, items
    ensures Agrees(m, items, Applied(t, op))
  {
    match op
    case Schedule(k, at) => DoSchedule(m, items, t, k, at);
    case Cancel(k) => DoCancel(m, items, t, k);
    case Expire(now) => DoExpire(m, items, t, now);
  }

  /** After any list of operations the heap is valid, holds exactly the items the table
      has, under the same deadlines, and every other item has index -1. */
  method DoAll(m: DeadlineManager, items: seq<DeadlineItem>, ghost t: Table, ops: seq<Op>)
    requires Agrees(m, items, t) && AllAllowed(t, ops, |items|)
    modifies m, items
    ensures Agrees(m, items, AppliedAll(t, ops))
  {
    ghost var u := t;
    var i := 0;
    while i < |ops|
      invariant 0 <= i <= |ops| && Agrees(m, items, u) && AllAllowed(u, ops[i..], |items|)
      invariant AppliedAll(u, ops[i..]) == AppliedAll(t, ops)
    {
      assert ops[i..][1..] == ops[i + 1..];
      DoOne(m, items, u, ops[i]);
      u := Applied(u, ops[i]);
      i := i + 1;
    }
  }
}
