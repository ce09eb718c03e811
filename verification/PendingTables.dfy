/** The correlation table and its requests as the source keeps them
    (session/pending.go), and the window that bounds them (session/window.go): objects
    updated in place, tied to the steps of module Correlation. */
module PendingTables {
  import opened Bytes
  import opened Lifecycle
  import opened Correlation

  class PendingRequest {
    var finished: bool
    var attached: bool        // points at its deadline item
    var ownsSlot: bool        // releaseWindow is still set

    constructor ()
      ensures !finished && !attached && ownsSlot
    {
      finished, attached, ownsSlot := false, false, true;
    }

    /** What the step system says about these fields. */
    ghost predicate Shows(q: Request)
      reads this
    {
      finished == q.finished && attached == q.attached
    }

    /** attachDeadline: reports whether the item has to be cancelled at once. It is the
        transmit loop's step from Scheduled. */
    method AttachDeadline(ghost q: Request) returns (cancelNow: bool)
      requires Shows(q) && q.tx.Scheduled?
      modifies this
      ensures Shows(TxMoved(q, q.stage.Listed?, true)) && ownsSlot == old(ownsSlot)
      ensures cancelNow <==> TxMoved(q, q.stage.Listed?, true).tx.Undoing?
    {
      if finished {
        return true;
      }
      attached := true;
      cancelNow := false;
    }

    /** finish: reports whether it collected a deadline item to cancel and a slot to
        release. It is the winner's step from Removed; any later call does nothing. */
    method Finish(ghost q: Request) returns (cancelItem: bool, release: bool)
      requires Shows(q) && q.stage.Removed?
      modifies this
      ensures Shows(Advanced(q)) && finished && ownsSlot == (old(finished) && old(ownsSlot))
      ensures cancelItem == Advanced(q).stage.item
      ensures release == (!old(finished) && old(ownsSlot))
    {
      if finished {
        return false, false;
      }
      finished := true;
      cancelItem, attached := attached, false;
      release, ownsSlot := ownsSlot, false;
    }
  }

  class PendingTable {
    const max: nat
    var m: map<nat, Id>

    constructor (max: nat)
      ensures this.max == max && m == map[]
    {
      this.max := max;
      m := map[];
    }

    /** insert: the limit is checked before the number. */
    method Insert(s: nat, r: Id) returns (full: bool, inUse: bool)
      modifies this
      ensures full <==> |old(m)| >= max
      ensures inUse <==> !full && s in old(m)
      ensures m == if full || inUse then old(m) else old(m)[s := r]
    {
      full, inUse := |m| >= max, false;
      if !full {
        inUse := s in m;
        if !inUse {
          m := m[s := r];
        }
      }
    }

    /** takeResponse: an entry that expects another response stays. The response an entry
        expects is the one to its request's command. */
    method TakeResponse(s: nat, response: Command, reqs: map<Id, Request>) returns (taken: Option<Id>)
      requires forall k | k in m :: m[k] in reqs
      modifies this
      ensures taken.Some? <==>
              s in old(m) && (ResponseTo(reqs[old(m)[s]].command) == Some(response) || response.GenericNack?)
      ensures taken.Some? ==> taken.value == old(m)[s] && m == old(m) - {s}
      ensures taken.None? ==> m == old(m)
    {
      if s !in m {
        return None;
      }
      var r := m[s];
      var expected := ResponseTo(reqs[r].command);
      if Some(response) != expected && response != GenericNack {
        return None;
      }
      m := m - {s};
      taken := Some(r);
    }

    /** completeError's locked part: the one step that makes a winner. */
    method Remove(s: nat, ghost y: Sys, ghost who: Winner) returns (taken: Option<Id>)
      requires m == y.table && forall k | k in y.table :: y.table[k] in y.reqs
      modifies this
      ensures m == Take(y, s, who).table
      ensures taken.Some? <==> s in y.table
      ensures taken.Some? ==> taken.value == y.table[s] && Take(y, s, who).reqs[taken.value].stage == Removed(who)
    {
      taken := if s in m then Some(m[s]) else None;
      if taken.Some? {
        m := m - {s};
      }
    }

    /** failAll's loop: it empties the table and hands every entry over once. */
    method TakeAll() returns (taken: seq<Id>)
      modifies this
      ensures m == map[]
      ensures |taken| == |old(m)| && forall r :: r in taken <==> r in old(m).Values
    {
      taken := [];
      ghost var gone: map<nat, Id> := map[];
      while m != map[]
        invariant gone.Keys !! m.Keys && gone + m == old(m) && |taken| == |gone|
        invariant forall r :: r in taken <==> r in gone.Values
        decreases |m|
      {
        var s :| s in m;
        TakeOneMore(gone, m, s);
        taken := taken + [m[s]];
        gone := gone[s := m[s]];
        m := m - {s};
      }
      assert gone + m == gone;
    }
  }

  lemma MovedSum(gone: map<nat, Id>, m: map<nat, Id>, s: nat)
    requires gone.Keys !! m.Keys && s in m
    ensures gone[s := m[s]] + (m - {s}) == gone + m
  {
  }

  lemma MovedSizes(gone: map<nat, Id>, m: map<nat, Id>, s: nat)
    requires gone.Keys !! m.Keys && s in m
    ensures |gone[s := m[s]]| == |gone| + 1 && |m - {s}| == |m| - 1
  {
    assert gone[s := m[s]].Keys == gone.Keys + {s};
    assert (m - {s}).Keys == m.Keys - {s};
  }

  lemma MovedValues(gone: map<nat, Id>, s: nat, r: Id)
    requires s !in gone
    ensures gone[s := r].Values == gone.Values + {r}
  {
    var more := gone[s := r];
    forall v | v in gone.Values + {r}
      ensures v in more.Values
    {
      if v in gone.Values {
        var k :| k in gone && gone[k] == v;
        assert more[k] == v;
      } else {
        assert more[s] == v;
      }
    }
  }

  lemma TakeOneMore(gone: map<nat, Id>, m: map<nat, Id>, s: nat)
    requires gone.Keys !! m.Keys && s in m
    ensures gone[s := m[s]] + (m - {s}) == gone + m
    ensures |gone[s := m[s]]| == |gone| + 1 && |m - {s}| == |m| - 1
    ensures gone[s := m[s]].Values == gone.Values + {m[s]}
  {
    MovedSum(gone, m, s);
    MovedSizes(gone, m, s);
    MovedValues(gone, s, m[s]);
  }

  /** The request window: tokens in the channel, and the counters beside it. */
  class RequestWindow {
    const capacity: nat
    var tokens: nat
    var inUse: nat
    var high: nat
    var underflows: nat

    ghost predicate Valid()
      reads this
    {
      tokens <= capacity && inUse == tokens && inUse <= high <= capacity
    }

    constructor (capacity: nat)
      ensures Valid() && this.capacity == capacity && tokens == 0 && underflows == 0
    {
      this.capacity := capacity;
      tokens, inUse, high, underflows := 0, 0, 0, 0;
    }

    /** The first, non-blocking attempt of acquire, and afterAcquire. */
    method TryAcquire() returns (ok: bool)
      requires Valid()
      modifies this
      ensures Valid() && underflows == old(underflows)
      ensures ok <==> old(tokens) < capacity
      ensures tokens == old(tokens) + (if ok then 1 else 0)
      ensures high == if ok && old(high) < tokens then tokens else old(high)
    {
      ok := tokens < capacity;
      if ok {
        tokens := tokens + 1;
        inUse := inUse + 1;
        if high < inUse {
          high := inUse;
        }
      }
    }

    method Release() returns (ok: bool)
      requires Valid()
      modifies this
      ensures Valid() && high == old(high)
      ensures ok <==> old(tokens) > 0
      ensures tokens == old(tokens) - (if ok then 1 else 0)
      ensures underflows == old(underflows) + (if ok then 0 else 1)
    {
      ok := tokens > 0;
      if ok {
        tokens, inUse := tokens - 1, inUse - 1;
      } else {
        underflows := underflows + 1;
      }
    }
  }
}
