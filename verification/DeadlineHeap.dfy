/** The deadline heap of a session (session/deadline.go): a binary heap of items that
    know their own position, with cancellation. */
module DeadlineHeap {
  import opened HeapOrder

  class DeadlineItem {
    var at: int
    var index: int

    constructor ()
      ensures index == -1
    {
      at, index := 0, -1;
    }
  }

  predicate SameItems(s: seq<DeadlineItem>, t: seq<DeadlineItem>)
  {
    && |s| == |t| && multiset(s) == multiset(t)
    && forall i | 0 <= i < |t| :: t[i] in s
  }

  function Exchanged(s: seq<DeadlineItem>, i: nat, j: nat): (t: seq<DeadlineItem>)
    requires i < |s| && j < |s|
    ensures |t| == |s|
  {
    s[i := s[j]][j := s[i]]
  }

  lemma ExchangedSame(s: seq<DeadlineItem>, i: nat, j: nat)
    requires i < |s| && j < |s|
    ensures SameItems(s, Exchanged(s, i, j))
  {
  }

  class DeadlineManager {
    var heap: seq<DeadlineItem>

    /** Every item in the heap knows its position. */
    ghost predicate Indexed()
      reads this, heap
    {
      forall i | 0 <= i < |heap| :: heap[i].index == i
    }

    /** The deadlines of the first n items. */
    ghost function Keys(n: nat): (s: seq<int>)
      requires n <= |heap|
      reads this, heap
      ensures |s| == n && forall i | 0 <= i < n :: s[i] == heap[i].at
    {
      seq(n, i requires 0 <= i < |heap| reads this, heap => heap[i].at)
    }

    ghost predicate Valid()
      reads this, heap
    {
      Indexed() && Ordered(Keys(|heap|))
    }

    constructor ()
      ensures Valid() && heap == []
    {
      heap := [];
    }

    method Swap(i: nat, j: nat, ghost n: nat)
      requires Indexed() && i < n <= |heap| && j < |heap|
      modifies this, heap`index
      ensures Indexed() && heap == Exchanged(old(heap), i, j)
      ensures j < n ==> Keys(n) == Swapped(old(Keys(n)), i, j)
      ensures SameItems(old(heap), heap)
    {
      ExchangedSame(heap, i, j);
      heap := heap[i := heap[j]][j := heap[i]];
      heap[i].index := i;
      heap[j].index := j;
    }

    /** One turn of sift-up among the first n items. */
    method Rise(j: nat, ghost n: nat) returns (p: nat, stop: bool)
      requires Indexed() && j < n <= |heap| && OrderedUp(Keys(n), j)
      modifies this, heap`index
      ensures Indexed() && SameItems(old(heap), heap)
      ensures n < |heap| ==> heap[n] == old(heap)[n]
      ensures if stop then Ordered(Keys(n)) else p < j && OrderedUp(Keys(n), p)
    {
      if j == 0 || heap[j].at >= heap[(j - 1) / 2].at {
        UpDone(Keys(n), j);
        return j, true;
      }
      UpStep(Keys(n), j);
      p, stop := (j - 1) / 2, false;
      Swap(p, j, n);
    }

    method Up(j0: nat, ghost n: nat)
      requires Indexed() && j0 < n <= |heap| && OrderedUp(Keys(n), j0)
      modifies this, heap`index
      ensures Indexed() && SameItems(old(heap), heap) && Ordered(Keys(n))
      ensures n < |heap| ==> heap[n] == old(heap)[n]
    {
      var j, stop := Rise(j0, n);
      while !stop
        invariant Indexed() && SameItems(old(heap), heap)
        invariant n < |heap| ==> heap[n] == old(heap)[n]
        invariant if stop then Ordered(Keys(n)) else 0 <= j < n && OrderedUp(Keys(n), j)
        decreases !stop, j
      {
        j, stop := Rise(j, n);
      }
    }

    /** Where sift-down at i goes on among the first n items, if anywhere. */
    method SmallerChild(i: nat, n: nat) returns (c: nat, stop: bool)
      requires i < n <= |heap|
      ensures stop ==> NotAboveChildren(Keys(n), i)
      ensures !stop ==> 2 * i + 1 < n && c == Candidate(Keys(n), i) && Keys(n)[c] < Keys(n)[i]
    {
      c := 2 * i + 1;
      stop := c >= n;
      if !stop {
        if c + 1 < n && heap[c + 1].at < heap[c].at {
          c := c + 1;
        }
        stop := heap[c].at >= heap[i].at;
      }
      if stop { StopsInPlace(Keys(n), i); }
    }

    method SinkTo(i: nat, c: nat, ghost n: nat)
      requires Indexed() && i < n < |heap| && OrderedAround(Keys(n), i)
      requires 2 * i + 1 < n && c == Candidate(Keys(n), i) && Keys(n)[c] < Keys(n)[i]
      modifies this, heap`index
      ensures Indexed() && SameItems(old(heap), heap) && heap[n] == old(heap)[n]
      ensures OrderedDown(Keys(n), c)
    {
      SinkStep(Keys(n), i);
      Swap(i, c, n);
    }

    /** One turn of sift-down. */
    method Sink(i: nat, n: nat) returns (c: nat, stop: bool)
      requires Indexed() && i < n < |heap| && OrderedAround(Keys(n), i)
      modifies this, heap`index
      ensures Indexed() && SameItems(old(heap), heap) && heap[n] == old(heap)[n]
      ensures stop ==> heap == old(heap) && Keys(n) == old(Keys(n)) && NotAboveChildren(Keys(n), i)
      ensures !stop ==> i < c < n && OrderedDown(Keys(n), c)
    {
      c, stop := SmallerChild(i, n);
      if !stop {
        SinkTo(i, c, n);
      }
    }

    /** Sift-down among the first n items; reports whether anything moved. */
    method Down(i0: nat, n: nat) returns (moved: bool)
      requires Indexed() && i0 < n < |heap| && OrderedAround(Keys(n), i0)
      modifies this, heap`index
      ensures Indexed() && SameItems(old(heap), heap) && heap[n] == old(heap)[n]
      ensures if moved then Ordered(Keys(n)) else heap == old(heap) && OrderedUp(Keys(n), i0)
    {
      var i, stop := Sink(i0, n);
      if stop {
        AroundDone(Keys(n), i0);
        return false;
      }
      while !stop
        invariant Indexed() && SameItems(old(heap), heap) && heap[n] == old(heap)[n]
        invariant 0 <= i < n && OrderedDown(Keys(n), i)
        invariant stop ==> NotAboveChildren(Keys(n), i)
        decreases !stop, n - i
      {
        DownIsAround(Keys(n), i);
        var c;
        c, stop := Sink(i, n);
        if !stop { i := c; }
      }
      DownDone(Keys(n), i);
      moved := true;
    }

    method Push(item: DeadlineItem)
      requires Valid() && item !in heap
      modifies this, heap`index, item`index
      ensures Valid() && multiset(heap) == multiset(old(heap)) + multiset{item}
      ensures forall x | x in heap :: x in old(heap) || x == item
    {
      PushOrdered(Keys(|heap|), item.at);
      label before:
      item.index := |heap|;
      heap := heap + [item];
      assert Keys(|heap|) == old@before(Keys(|heap|)) + [item.at];
      Up(|heap| - 1, |heap|);
    }

    /** Drops the last item. */
    method Pop() returns (item: DeadlineItem)
      requires Indexed() && heap != []
      modifies this, heap`index
      ensures Indexed() && heap == old(heap)[..|old(heap)| - 1] && item == old(heap)[|old(heap)| - 1]
      ensures item.index == -1 && Keys(|heap|) == old(Keys(|heap| - 1)) && item !in heap
      ensures multiset(heap) + multiset{item} == multiset(old(heap))
    {
      item := heap[|heap| - 1];
      assert heap == heap[..|heap| - 1] + [item];
      item.index := -1;
      heap := heap[..|heap| - 1];
    }

    method SwapLast(i: nat, n: nat)
      requires Valid() && i < n == |heap| - 1
      modifies this, heap`index
      ensures Indexed() && SameItems(old(heap), heap) && heap[n] == old(heap)[i] && OrderedAround(Keys(n), i)
    {
      MoveLast(Keys(n + 1), i);
      Swap(i, n, n + 1);
      assert Keys(n) == Swapped(old(Keys(n + 1)), i, n)[..n];
    }

    /** Moves the item at i behind the others, which stay a heap. */
    method Detach(i: nat, n: nat)
      requires Valid() && i < |heap| && n == |heap| - 1
      modifies this, heap`index
      ensures Indexed() && SameItems(old(heap), heap) && heap[n] == old(heap)[i] && Ordered(Keys(n))
    {
      if n != i {
        SwapLast(i, n);
        var moved := Down(i, n);
        if !moved {
          Up(i, n);
        }
      } else {
        PrefixOrdered(Keys(n + 1), n);
        assert Keys(n) == Keys(n + 1)[..n];
      }
    }

    /** heap.Remove, and heap.Pop for i == 0. */
    method Remove(i: nat) returns (item: DeadlineItem)
      requires Valid() && i < |heap|
      modifies this, heap`index
      ensures Valid() && item == old(heap)[i] && item.index == -1 && item !in heap
      ensures multiset(heap) + multiset{item} == multiset(old(heap)) && |heap| == |old(heap)| - 1
      ensures forall x | x in heap :: x in old(heap)
    {
      Detach(i, |heap| - 1);
      item := Pop();
    }

    method ScheduleItemAt(item: DeadlineItem, dispatchedAt: int, after: int) returns (scheduled: bool, signals: bool)
      requires Valid() && item !in heap
      modifies this, heap`index, item
      ensures Valid() && scheduled == (after > 0)
      ensures !scheduled ==> !signals && heap == old(heap) && item.at == old(item.at)
      ensures scheduled ==> multiset(heap) == multiset(old(heap)) + multiset{item} && item.at == dispatchedAt + after
      ensures scheduled ==> (signals <==> forall x | x in old(heap) :: item.at < x.at)
    {
      if after <= 0 {
        return false, false;
      }
      item.at, item.index := dispatchedAt + after, -1;
      signals := heap == [] || item.at < heap[0].at;
      forall x | x in heap
        ensures heap[0].at <= x.at
      {
        RootIsLeastItem(x);
      }
      Push(item);
      scheduled := true;
    }

    lemma RootIsLeastItem(x: DeadlineItem)
      requires Valid() && x in heap
      ensures heap[0].at <= x.at && 0 <= x.index < |heap| && heap[x.index] == x
    {
      var i :| 0 <= i < |heap| && heap[i] == x;
      RootIsLeast(Keys(|heap|), i);
    }

    /** Removes exactly the item, or nothing when it is not in the heap. */
    method Cancel(item: DeadlineItem) returns (signals: bool)
      requires Valid()
      modifies this, heap`index
      ensures Valid()
      ensures old(item in heap) ==>
              multiset(heap) + multiset{item} == multiset(old(heap)) && item !in heap && item.index == -1
      ensures old(item !in heap) ==> heap == old(heap) && item.index == old(item.index)
      ensures signals <==> old(item.index) == 0
    {
      var idx := item.index;
      if item in heap { RootIsLeastItem(item); }
      if 0 <= idx < |heap| && heap[idx] == item {
        var _ := Remove(idx);
      }
      signals := idx == 0;
    }

    /** Nothing in the heap is earlier than t. */
    ghost predicate NothingBefore(t: int)
      reads this, heap
    {
      forall i | 0 <= i < |heap| :: t <= heap[i].at
    }

    /** heap.Pop: the earliest item. */
    method PopMin() returns (item: DeadlineItem)
      requires Valid() && heap != []
      modifies this, heap`index
      ensures Valid() && item == old(heap)[0] && item.index == -1 && item !in heap && NothingBefore(item.at)
      ensures multiset(heap) + multiset{item} == multiset(old(heap)) && |heap| == |old(heap)| - 1
      ensures forall i | 0 <= i < |heap| :: heap[i] in old(heap)
    {
      forall x | x in heap
        ensures heap[0].at <= x.at
      {
        RootIsLeastItem(x);
      }
      item := Remove(0);
      assert forall i | 0 <= i < |heap| :: heap[i] in heap;
    }

    /** The pop loop so far: `expired` came out of `was` in order, and the rest is later. */
    ghost predicate Popping(was: seq<DeadlineItem>, expired: seq<DeadlineItem>, now: int)
      reads this, heap, was
    {
      && Valid() && multiset(expired) + multiset(heap) == multiset(was)
      && (forall i | 0 <= i < |heap| :: heap[i] in was)
      && (forall i | 0 <= i < |expired| :: expired[i] in was && Expired(expired[i], now))
      && (forall i | 0 < i < |expired| :: expired[i - 1].at <= expired[i].at)
      && (expired != [] ==> NothingBefore(expired[|expired| - 1].at))
    }

    method PopDue(ghost was: seq<DeadlineItem>, expired: seq<DeadlineItem>, now: int) returns (more: seq<DeadlineItem>)
      requires Popping(was, expired, now) && heap != [] && heap[0].at <= now
      modifies this, heap`index
      ensures Popping(was, more, now) && |heap| == |old(heap)| - 1
      ensures forall i | 0 <= i < |heap| :: heap[i] in old(heap)
    {
      assert heap[0] in was;
      var item := PopMin();
      more := expired + [item];
      assert multiset(more) == multiset(expired) + multiset{item};
    }

    /** Takes out exactly the items due by now, earliest first. */
    method ExpireReady(now: int) returns (expired: seq<DeadlineItem>)
      requires Valid()
      modifies this, heap`index
      ensures Valid() && multiset(expired) + multiset(heap) == multiset(old(heap))
      ensures forall i | 0 <= i < |heap| :: heap[i] in old(heap) && heap[i].at > now
      ensures forall i | 0 <= i < |expired| :: expired[i] in old(heap) && Expired(expired[i], now)
      ensures forall i | 0 < i < |expired| :: expired[i - 1].at <= expired[i].at
    {
      expired := [];
      while heap != [] && heap[0].at <= now
        invariant Popping(old(heap), expired, now)
        decreases |heap|
      {
        expired := PopDue(old(heap), expired, now);
      }
      NoneDue(now);
    }

    lemma NoneDue(now: int)
      requires Valid() && (heap == [] || heap[0].at > now)
      ensures forall i | 0 <= i < |heap| :: heap[i].at > now
    {
      forall i | 0 <= i < |heap|
        ensures heap[i].at > now
      {
        RootIsLeastItem(heap[i]);
      }
    }

    /** x is due by now and not in the heap. */
    ghost predicate Expired(x: DeadlineItem, now: int)
      reads this, x
    {
      x.at <= now && x.index == -1 && x !in heap
    }
  }
}
