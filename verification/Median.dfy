/** The exchange sort and the median used by the timestamp rule (block.go, in three copies). */
module Median {
  import opened Seqs
  import opened Blocks

  const MEDIAN_WINDOW: nat := 11

  function Stamps(p: seq<Block>): (s: seq<int>)
    ensures |s| == |p|
  {
    seq(|p|, i requires 0 <= i < |p| => p[i].timestamp)
  }

  /** The timestamps the rule looks at below the tip of path p: the last eleven, or all. */
  function MedianWindow(p: seq<Block>): seq<int> {
    Stamps(if |p| <= MEDIAN_WINDOW then p else p[|p| - MEDIAN_WINDOW..])
  }

  ghost predicate Sorted(s: seq<int>) {
    forall i, j :: 0 <= i < j < |s| ==> s[i] <= s[j]
  }

  /** Insertion into a sorted list: the reference for the in-place sort. */
  ghost function Insert(s: seq<int>, x: int): seq<int> {
    if s == [] || x <= s[0] then [x] + s else [s[0]] + Insert(s[1..], x)
  }

  ghost function SortedCopy(s: seq<int>): (r: seq<int>) {
    if s == [] then [] else Insert(SortedCopy(s[1..]), s[0])
  }

  ghost predicate AtLeast(s: seq<int>, low: int) {
    forall i :: 0 <= i < |s| ==> low <= s[i]
  }

  lemma {:induction false} InsertSorted(s: seq<int>, x: int, low: int)
    requires Sorted(s) && AtLeast(s, low) && low <= x
    ensures Sorted(Insert(s, x)) && AtLeast(Insert(s, x), low)
  {
    if s != [] && x > s[0] { InsertSorted(s[1..], x, s[0]); }
  }

  lemma {:induction false} InsertBag(s: seq<int>, x: int)
    ensures multiset(Insert(s, x)) == multiset(s) + multiset{x}
  {
    if s != [] && x > s[0] {
      assert s == [s[0]] + s[1..];
      InsertBag(s[1..], x);
    }
  }

  lemma InsertFacts(s: seq<int>, x: int)
    requires Sorted(s)
    ensures Sorted(Insert(s, x)) && multiset(Insert(s, x)) == multiset(s) + multiset{x}
  {
    InsertSorted(s, x, if s == [] || x < s[0] then x else s[0]);
    InsertBag(s, x);
  }

  lemma {:induction false} SortedCopyFacts(s: seq<int>)
    ensures Sorted(SortedCopy(s)) && multiset(SortedCopy(s)) == multiset(s)
  {
    if s != [] {
      SortedCopyFacts(s[1..]);
      InsertFacts(SortedCopy(s[1..]), s[0]);
      assert s == [s[0]] + s[1..];
    }
  }

  lemma SameHead(s: seq<int>, t: seq<int>)
    requires Sorted(s) && Sorted(t) && multiset(s) == multiset(t) && s != []
    ensures t != [] && s[0] == t[0]
  {
    assert s[0] in multiset(t);
    var i :| 0 <= i < |t| && t[i] == s[0];
    assert t[0] in multiset(s);
    var j :| 0 <= j < |s| && s[j] == t[0];
  }

  lemma TailBag(s: seq<int>)
    requires s != []
    ensures multiset(s[1..]) == multiset(s) - multiset{s[0]}
  {
    assert s == [s[0]] + s[1..];
  }

  /** Sorting is unique: two sorted lists of the same numbers are equal. */
  lemma {:induction false} SortedUnique(s: seq<int>, t: seq<int>)
    requires Sorted(s) && Sorted(t) && multiset(s) == multiset(t)
    ensures s == t
  {
    if s == [] {
      assert |t| == |multiset(t)| == |multiset(s)|;
    } else {
      SameHead(s, t);
      TailBag(s);
      TailBag(t);
      SortedUnique(s[1..], t[1..]);
      assert s == [s[0]] + s[1..] && t == [s[0]] + t[1..];
    }
  }

  /** The middle element in sorted order; of two middles, the larger. */
  ghost function MedianOf(s: seq<int>): int
    requires s != []
  {
    SortedCopyFacts(s);
    assert |SortedCopy(s)| == |multiset(SortedCopy(s))| == |multiset(s)| == |s|;
    SortedCopy(s)[|s| / 2]
  }

  lemma MedianMember(s: seq<int>)
    requires s != []
    ensures MedianOf(s) in s
  {
    SortedCopyFacts(s);
    assert |SortedCopy(s)| == |multiset(SortedCopy(s))| == |multiset(s)| == |s|;
    assert MedianOf(s) in multiset(SortedCopy(s));
  }

  /** The median does not depend on the order in which the numbers were collected. */
  lemma MedianOrderFree(s: seq<int>, t: seq<int>)
    requires s != [] && t != [] && multiset(s) == multiset(t)
    ensures MedianOf(s) == MedianOf(t)
  {
    SortedCopyFacts(s);
    SortedCopyFacts(t);
    SortedUnique(SortedCopy(s), SortedCopy(t));
    assert |s| == |multiset(s)| == |multiset(t)| == |t|;
  }

  /** How many of the numbers are below x, and how many are at most x. */
  ghost function Below(s: seq<int>, x: int): nat {
    if s == [] then 0 else Below(s[1..], x) + if s[0] < x then 1 else 0
  }

  ghost function AtMost(s: seq<int>, x: int): nat {
    if s == [] then 0 else AtMost(s[1..], x) + if s[0] <= x then 1 else 0
  }

  lemma {:induction false} InsertCounts(s: seq<int>, y: int, x: int)
    ensures Below(Insert(s, y), x) == Below(s, x) + if y < x then 1 else 0
    ensures AtMost(Insert(s, y), x) == AtMost(s, x) + if y <= x then 1 else 0
  {
    if s == [] || y <= s[0] {
      assert ([y] + s)[1..] == s;
    } else {
      InsertCounts(s[1..], y, x);
      assert ([s[0]] + Insert(s[1..], y))[1..] == Insert(s[1..], y);
    }
  }

  lemma {:induction false} SortedCopyCounts(s: seq<int>, x: int)
    ensures Below(SortedCopy(s), x) == Below(s, x) && AtMost(SortedCopy(s), x) == AtMost(s, x)
  {
    if s != [] {
      SortedCopyCounts(s[1..], x);
      InsertCounts(SortedCopy(s[1..]), s[0], x);
    }
  }

  lemma {:induction false} NoneBelow(s: seq<int>, x: int)
    requires AtLeast(s, x)
    ensures Below(s, x) == 0
  {
    if s != [] { NoneBelow(s[1..], x); }
  }

  /** The element at position k of a sorted list has at most k below it and more than k up to it. */
  lemma {:induction false} SortedCounts(s: seq<int>, k: nat)
    requires Sorted(s) && k < |s|
    ensures Below(s, s[k]) <= k < AtMost(s, s[k])
  {
    if k == 0 {
      NoneBelow(s[1..], s[0]);
    } else {
      assert s[1..][k - 1] == s[k];
      SortedCounts(s[1..], k - 1);
    }
  }

  /** The median by counting: at most half of the numbers are below it, and more than half are not
      above it. */
  lemma MedianCounts(s: seq<int>)
    requires s != []
    ensures Below(s, MedianOf(s)) <= |s| / 2 < AtMost(s, MedianOf(s))
  {
    SortedCopyFacts(s);
    assert |SortedCopy(s)| == |multiset(SortedCopy(s))| == |multiset(s)| == |s|;
    SortedCounts(SortedCopy(s), |s| / 2);
    SortedCopyCounts(s, MedianOf(s));
  }

  lemma {:induction false} CountsGrow(s: seq<int>, x: int, y: int)
    requires x < y
    ensures AtMost(s, x) <= Below(s, y)
  {
    if s != [] { CountsGrow(s[1..], x, y); }
  }

  /** Only the median stands in the middle. */
  lemma MedianUnique(s: seq<int>, m: int)
    requires s != [] && Below(s, m) <= |s| / 2 < AtMost(s, m)
    ensures m == MedianOf(s)
  {
    MedianCounts(s);
    if m < MedianOf(s) {
      CountsGrow(s, m, MedianOf(s));
    } else if MedianOf(s) < m {
      CountsGrow(s, MedianOf(s), m);
    }
  }

  /** The window holds the timestamps of the last eleven blocks, or of all. */
  lemma WindowIs(p: seq<Block>)
    ensures |MedianWindow(p)| == if |p| < 11 then |p| else 11
    ensures forall i :: 0 <= i < |MedianWindow(p)| ==> MedianWindow(p)[i] == p[|p| - |MedianWindow(p)| + i].timestamp
  {
  }

  /** The first i elements are in place: sorted and below all later ones. */
  ghost predicate Placed(s: seq<int>, i: nat)
    requires i <= |s|
  {
    forall a, b :: 0 <= a < i && a < b < |s| ==> s[a] <= s[b]
  }

  ghost predicate LeastSoFar(s: seq<int>, i: nat, j: nat)
    requires i < j <= |s|
  {
    forall b :: i < b < j ==> s[i] <= s[b]
  }

  lemma SwapStep(s: seq<int>, i: nat, j: nat)
    requires i < j < |s| && Placed(s, i) && LeastSoFar(s, i, j) && s[i] > s[j]
    ensures Placed(Swapped(s, i, j), i) && LeastSoFar(Swapped(s, i, j), i, j + 1)
    ensures multiset(Swapped(s, i, j)) == multiset(s)
  {
  }

  method ExchangeSort(a: array<int>)
    modifies a
    ensures a[..] == SortedCopy(old(a[..]))
  {
    ghost var s0 := a[..];
    for i := 0 to a.Length
      invariant Placed(a[..], i) && multiset(a[..]) == multiset(s0)
    {
      for j := i + 1 to a.Length
        invariant Placed(a[..], i) && LeastSoFar(a[..], i, j) && multiset(a[..]) == multiset(s0)
      {
        if a[i] > a[j] {
          SwapStep(a[..], i, j);
          ghost var next := Swapped(a[..], i, j);
          a[i], a[j] := a[j], a[i];
          assert a[..] == next;
        }
      }
    }
    SortedCopyFacts(s0);
    SortedUnique(a[..], SortedCopy(s0));
  }

  /** The median as the source computes it: copy, sort in place, take the middle. */
  method Compute(s: seq<int>) returns (m: int)
    requires s != []
    ensures m == MedianOf(s)
  {
    var a := new int[|s|](i requires 0 <= i < |s| => s[i]);
    assert a[..] == s;
    ExchangeSort(a);
    MedianMember(s);
    m := a[a.Length / 2];
  }
}
