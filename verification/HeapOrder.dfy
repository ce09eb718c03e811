/** Binary-heap order on a sequence of deadlines, as container/heap keeps it. */
module HeapOrder {

  function Parent(i: nat): (p: nat)
    requires i > 0
    ensures p < i
  {
    (i - 1) / 2
  }

  predicate Ordered(s: seq<int>)
  {
    forall i | 0 < i < |s| :: s[Parent(i)] <= s[i]
  }

  function Swapped(s: seq<int>, i: nat, j: nat): (t: seq<int>)
    requires i < |s| && j < |s|
  {
    s[i := s[j]][j := s[i]]
  }

  /** Only the entry at j may be smaller than its parent. */
  predicate OrderedUp(s: seq<int>, j: nat)
    requires j < |s|
  {
    && (forall i | 0 < i < |s| && i != j :: s[Parent(i)] <= s[i])
    && (j > 0 ==> forall i | 0 < i < |s| && Parent(i) == j :: s[Parent(j)] <= s[i])
  }

  /** Only the entry at j may be larger than a child of it. */
  predicate OrderedDown(s: seq<int>, j: nat)
    requires j < |s|
  {
    && (forall i | 0 < i < |s| && Parent(i) != j :: s[Parent(i)] <= s[i])
    && (j > 0 ==> forall i | 0 < i < |s| && Parent(i) == j :: s[Parent(j)] <= s[i])
  }

  /** The entry at j is out of place in either direction. */
  predicate OrderedAround(s: seq<int>, j: nat)
    requires j < |s|
  {
    && (forall i | 0 < i < |s| && i != j && Parent(i) != j :: s[Parent(i)] <= s[i])
    && (j > 0 ==> forall i | 0 < i < |s| && Parent(i) == j :: s[Parent(j)] <= s[i])
  }

  /** c is a smallest child of i. */
  predicate SmallestChild(s: seq<int>, i: nat, c: nat)
    requires i < |s| && c < |s|
  {
    0 < c && Parent(c) == i && forall k | 0 < k < |s| && Parent(k) == i :: s[c] <= s[k]
  }

  predicate NotAboveChildren(s: seq<int>, i: nat)
    requires i < |s|
  {
    forall k | 0 < k < |s| && Parent(k) == i :: s[i] <= s[k]
  }

  lemma UpStep(s: seq<int>, j: nat)
    requires 0 < j < |s| && OrderedUp(s, j) && s[j] < s[Parent(j)]
    ensures OrderedUp(Swapped(s, Parent(j), j), Parent(j))
  {
  }

  lemma UpDone(s: seq<int>, j: nat)
    requires j < |s| && OrderedUp(s, j) && (j > 0 ==> s[Parent(j)] <= s[j])
    ensures Ordered(s)
  {
  }

  lemma DownStep(s: seq<int>, i: nat, c: nat)
    requires i < |s| && c < |s| && OrderedAround(s, i) && SmallestChild(s, i, c) && s[c] < s[i]
    ensures OrderedDown(Swapped(s, i, c), c)
  {
  }

  lemma DownDone(s: seq<int>, i: nat)
    requires i < |s| && OrderedDown(s, i) && NotAboveChildren(s, i)
    ensures Ordered(s)
  {
  }

  lemma AroundDone(s: seq<int>, i: nat)
    requires i < |s| && OrderedAround(s, i) && NotAboveChildren(s, i)
    ensures OrderedUp(s, i)
  {
  }

  lemma ChildIs(i: nat, k: nat)
    requires k > 0
    ensures Parent(k) == i <==> k == 2 * i + 1 || k == 2 * i + 2
  {
  }

  /** Appending an entry leaves only it out of place. */
  lemma PushOrdered(s: seq<int>, x: int)
    requires Ordered(s)
    ensures OrderedUp(s + [x], |s|)
  {
    forall i | 0 < i < |s| ensures (s + [x])[Parent(i)] <= (s + [x])[i] {}
  }

  /** Moving the last entry to i and dropping the tail leaves only i out of place. */
  lemma MoveLast(s: seq<int>, i: nat)
    requires Ordered(s) && i < |s| - 1
    ensures OrderedAround(Swapped(s, i, |s| - 1)[..|s| - 1], i)
  {
  }

  lemma PrefixOrdered(s: seq<int>, n: nat)
    requires Ordered(s) && n <= |s|
    ensures Ordered(s[..n])
  {
  }

  /** The root is a minimum. */
  lemma {:induction false} RootIsLeast(s: seq<int>, i: nat)
    requires Ordered(s) && i < |s|
    ensures s[0] <= s[i]
  {
    if i == 0 {
    } else {
      RootIsLeast(s, Parent(i));
    }
  }

  lemma DownIsAround(s: seq<int>, i: nat)
    requires i < |s| && OrderedDown(s, i)
    ensures OrderedAround(s, i)
  {
  }

  /** The child that sift-down looks at: the left one, or the right one if smaller. */
  function Candidate(s: seq<int>, i: nat): (c: nat)
    requires 2 * i + 1 < |s|
    ensures i < c < |s|
  {
    var c := 2 * i + 1;
    if c + 1 < |s| && s[c + 1] < s[c] then c + 1 else c
  }

  lemma CandidateIsSmallest(s: seq<int>, i: nat)
    requires 2 * i + 1 < |s|
    ensures SmallestChild(s, i, Candidate(s, i))
  {
    forall k | 0 < k < |s| && Parent(k) == i
      ensures s[Candidate(s, i)] <= s[k]
    {
      ChildIs(i, k);
    }
  }

  /** Sift-down stops where the entry is not above its children. */
  lemma StopsInPlace(s: seq<int>, i: nat)
    requires i < |s| && (2 * i + 1 < |s| ==> s[Candidate(s, i)] >= s[i])
    ensures NotAboveChildren(s, i)
  {
    if 2 * i + 1 < |s| { CandidateIsSmallest(s, i); }
  }

  lemma SinkStep(s: seq<int>, i: nat)
    requires i < |s| && OrderedAround(s, i) && 2 * i + 1 < |s| && s[Candidate(s, i)] < s[i]
    ensures OrderedDown(Swapped(s, i, Candidate(s, i)), Candidate(s, i))
  {
    CandidateIsSmallest(s, i);
    DownStep(s, i, Candidate(s, i));
  }
}
