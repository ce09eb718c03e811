/** Sorting by an integer key, as far as reassembly depends on it. */
module Sorting {

  predicate Ascending<T(!new)>(key: T -> int, s: seq<T>)
  {
    forall i, j | 0 <= i < j < |s| :: key(s[i]) <= key(s[j])
  }

  predicate StrictlyAscending<T(!new)>(key: T -> int, s: seq<T>)
  {
    forall i, j | 0 <= i < j < |s| :: key(s[i]) < key(s[j])
  }

  function Insert<T(!new)>(key: T -> int, x: T, s: seq<T>): (t: seq<T>)
  {
    if s == [] || key(x) <= key(s[0]) then [x] + s else [s[0]] + Insert(key, x, s[1..])
  }

  function Sort<T(!new)>(key: T -> int, s: seq<T>): (t: seq<T>)
  {
    if s == [] then [] else Insert(key, s[0], Sort(key, s[1..]))
  }

  lemma {:induction false} InsertKeeps<T(!new)>(key: T -> int, x: T, s: seq<T>)
    ensures multiset(Insert(key, x, s)) == multiset(s) + multiset{x}
    ensures |Insert(key, x, s)| == |s| + 1
  {
    if s == [] || key(x) <= key(s[0]) {
    } else {
      InsertKeeps(key, x, s[1..]);
      assert s == [s[0]] + s[1..];
    }
  }

  /** What is inserted behind the first element is not smaller than it. */
  lemma NoneSmaller<T(!new)>(key: T -> int, x: T, s: seq<T>)
    requires Ascending(key, s) && s != [] && key(x) > key(s[0])
    ensures forall y | y in Insert(key, x, s[1..]) :: key(s[0]) <= key(y)
  {
    var t := Insert(key, x, s[1..]);
    InsertKeeps(key, x, s[1..]);
    forall y | y in t
      ensures key(s[0]) <= key(y)
    {
      assert y in multiset(t);
      if y != x {
        assert y in multiset(s[1..]);
        var k :| 0 <= k < |s| - 1 && s[1..][k] == y;
        assert s[k + 1] == y;
      }
    }
  }

  lemma {:induction false} InsertAscending<T(!new)>(key: T -> int, x: T, s: seq<T>)
    requires Ascending(key, s)
    ensures Ascending(key, Insert(key, x, s))
  {
    if s == [] || key(x) <= key(s[0]) {
    } else {
      var t := Insert(key, x, s[1..]);
      InsertAscending(key, x, s[1..]);
      NoneSmaller(key, x, s);
      assert Insert(key, x, s) == [s[0]] + t;
    }
  }

  lemma {:induction false} SortSorts<T(!new)>(key: T -> int, s: seq<T>)
    ensures Ascending(key, Sort(key, s)) && multiset(Sort(key, s)) == multiset(s) && |Sort(key, s)| == |s|
  {
    if s == [] {
    } else {
      var t := Sort(key, s[1..]);
      SortSorts(key, s[1..]);
      InsertAscending(key, s[0], t);
      InsertKeeps(key, s[0], t);
      assert Sort(key, s) == Insert(key, s[0], t);
      assert s == [s[0]] + s[1..];
    }
  }

  lemma SameFirst<T(!new)>(key: T -> int, a: seq<T>, b: seq<T>)
    requires StrictlyAscending(key, a) && Ascending(key, b) && multiset(a) == multiset(b) && a != [] && b != []
    ensures a[0] == b[0]
  {
    assert a[0] in multiset(b) && b[0] in multiset(a);
    var i :| 0 <= i < |b| && b[i] == a[0];
    var j :| 0 <= j < |a| && a[j] == b[0];
    assert key(b[0]) <= key(b[i]);
  }

  lemma TailMultiset<T(!new)>(s: seq<T>)
    requires s != []
    ensures multiset(s[1..]) == multiset(s) - multiset{s[0]}
  {
    assert s == [s[0]] + s[1..];
  }

  lemma TailsAgree<T(!new)>(key: T -> int, a: seq<T>, b: seq<T>)
    requires StrictlyAscending(key, a) && Ascending(key, b) && multiset(a) == multiset(b) && a != [] && b != []
    ensures StrictlyAscending(key, a[1..]) && Ascending(key, b[1..]) && multiset(a[1..]) == multiset(b[1..])
  {
    SameFirst(key, a, b);
    TailMultiset(a);
    TailMultiset(b);
  }

  lemma BothEmpty<T(!new)>(a: seq<T>, b: seq<T>)
    requires multiset(a) == multiset(b)
    ensures a == [] <==> b == []
  {
    assert |multiset(a)| == |a| && |multiset(b)| == |b|;
  }

  /** With distinct keys there is only one ascending order. */
  lemma {:induction false} OneOrder<T(!new)>(key: T -> int, a: seq<T>, b: seq<T>)
    requires StrictlyAscending(key, a) && Ascending(key, b) && multiset(a) == multiset(b)
    ensures a == b
  {
    BothEmpty(a, b);
    if a == [] {
    } else {
      SameFirst(key, a, b);
      TailsAgree(key, a, b);
      OneOrder(key, a[1..], b[1..]);
      assert a == [a[0]] + a[1..];
      assert b == [b[0]] + b[1..];
    }
  }

  /** So any arrival order of strictly ascending items sorts back to them. */
  lemma SortRestores<T(!new)>(key: T -> int, a: seq<T>, arrived: seq<T>)
    requires StrictlyAscending(key, a) && multiset(arrived) == multiset(a)
    ensures Sort(key, arrived) == a
  {
    SortSorts(key, arrived);
    OneOrder(key, a, Sort(key, arrived));
  }

  predicate HasKey<T(!new)>(key: T -> int, s: seq<T>, v: int)
  {
    exists j | 0 <= j < |s| :: key(s[j]) == v
  }

  /** Every key from 1 to n occurs. */
  predicate Covers<T(!new)>(key: T -> int, s: seq<T>, n: nat)
  {
    forall v | 1 <= v <= n :: HasKey(key, s, v)
  }

  lemma {:induction false} CoveredAtLeast<T(!new)>(key: T -> int, s: seq<T>, k: nat, i: nat)
    requires Ascending(key, s) && i < |s| && key(s[i]) == k + 1 && Covers(key, s, k)
    ensures i >= k
  {
    if k == 0 {
    } else {
      assert HasKey(key, s, k);
      var j :| 0 <= j < |s| && key(s[j]) == k;
      CoveredAtLeast(key, s, k - 1, j);
    }
  }

  lemma {:induction false} CoveredAtMost<T(!new)>(key: T -> int, s: seq<T>, k: nat, i: nat)
    requires Ascending(key, s) && i < |s| && k < |s| && key(s[i]) == k + 1 && Covers(key, s, |s|)
    ensures i <= k
    decreases |s| - k
  {
    if k + 1 >= |s| {
    } else {
      assert HasKey(key, s, k + 2);
      var j :| 0 <= j < |s| && key(s[j]) == k + 2;
      CoveredAtMost(key, s, k + 1, j);
    }
  }

  /** n ascending items whose keys cover 1..n have exactly the keys 1..n in order. */
  lemma CoveredInOrder<T(!new)>(key: T -> int, s: seq<T>, k: nat)
    requires Ascending(key, s) && k < |s| && Covers(key, s, |s|)
    ensures key(s[k]) == k + 1
  {
    assert HasKey(key, s, k + 1);
    var i :| 0 <= i < |s| && key(s[i]) == k + 1;
    CoveredAtLeast(key, s, k, i);
    CoveredAtMost(key, s, k, i);
  }
}
