/** Facts about sequences used by several components. */
module Seqs {
  /** No element occurs twice. Defined by recursion, because the statement over all pairs of
      indexes floods the solver wherever it is visible; NoDupPairs gives that form. */
  ghost predicate NoDup<T>(s: seq<T>) {
    s == [] || (s[|s| - 1] !in s[..|s| - 1] && NoDup(s[..|s| - 1]))
  }

  ghost predicate Pairwise<T>(s: seq<T>) {
    forall i, j :: 0 <= i < j < |s| ==> s[i] != s[j]
  }

  lemma {:induction false} NoDupPairs<T>(s: seq<T>)
    ensures NoDup(s) <==> Pairwise(s)
  {
    if s != [] {
      var t := s[..|s| - 1];
      NoDupPairs(t);
      if Pairwise(s) {
        assert Pairwise(t) by {
          forall i, j | 0 <= i < j < |t| ensures t[i] != t[j] { assert s[i] != s[j]; }
        }
        forall i | 0 <= i < |t| ensures t[i] != s[|s| - 1] { assert s[i] != s[|s| - 1]; }
      }
      if NoDup(s) {
        forall i, j | 0 <= i < j < |s| ensures s[i] != s[j] {
          if j < |s| - 1 { assert t[i] != t[j]; } else { assert t[i] in t; }
        }
      }
    }
  }

  lemma NoDupPrefix<T>(s: seq<T>, n: nat)
    requires NoDup(s) && n <= |s|
    ensures NoDup(s[..n]) && forall i :: 0 <= i < n < |s| ==> s[i] != s[n]
  {
    NoDupPairs(s);
    NoDupPairs(s[..n]);
  }

  ghost predicate Disjoint<T>(s: seq<T>, t: seq<T>) {
    forall x :: x in s ==> x !in t
  }

  lemma {:induction false} NoDupConcat<T>(s: seq<T>, t: seq<T>)
    ensures NoDup(s + t) <==> NoDup(s) && NoDup(t) && Disjoint(s, t)
    decreases |t|
  {
    if t == [] {
      assert s + t == s;
    } else {
      var e, x := t[..|t| - 1], t[|t| - 1];
      assert (s + t)[..|s + t| - 1] == s + e;
      assert t == e + [x];
      NoDupConcat(s, e);
      assert x in s + e <==> x in s || x in e;
      assert Disjoint(s, t) <==> Disjoint(s, e) && x !in s;
    }
  }

  /** One more element of a duplicate-free prefix. */
  lemma NoDupStep<T>(s: seq<T>, i: nat)
    requires i < |s|
    ensures NoDup(s[..i + 1]) <==> NoDup(s[..i]) && s[i] !in s[..i]
    ensures NoDup(s) ==> NoDup(s[..i + 1])
    ensures Elements(s[..i + 1]) == Elements(s[..i]) + {s[i]}
    ensures forall x :: x in s[..i + 1] <==> x in s[..i] || x == s[i]
  {
    assert s[..i + 1][..i] == s[..i] && s[..i + 1] == s[..i] + [s[i]];
    if NoDup(s) { NoDupPrefix(s, i + 1); }
  }

  /** c holds p[n], p[n + 1], ... to the end. Tails are described element by element: slicing
      at an offset that may be 0 makes the solver rewrite the slice for ever. */
  ghost predicate IsTail<T>(c: seq<T>, p: seq<T>, n: nat) {
    |c| == |p| - n && forall i :: 0 <= i < |c| ==> c[i] == p[n + i]
  }

  /** The sequence with two elements exchanged. */
  function Swapped<T>(s: seq<T>, i: nat, j: nat): seq<T>
    requires i < |s| && j < |s|
  {
    s[i := s[j]][j := s[i]]
  }

  lemma {:induction false} CardMonotone<T>(a: set<T>, b: set<T>)
    requires a <= b
    ensures |a| <= |b|
  {
    if a != {} {
      var x :| x in a;
      CardMonotone(a - {x}, b - {x});
    }
  }

  /** The first index from i on at which s and t differ or one of them ends. */
  function CommonFrom<T(==)>(s: seq<T>, t: seq<T>, i: nat): (n: nat)
    requires i <= |s| && i <= |t|
    ensures i <= n <= |s| && n <= |t|
    ensures forall k :: i <= k < n ==> s[k] == t[k]
    ensures n < |s| && n < |t| ==> s[n] != t[n]
    decreases |s| - i
  {
    if i < |s| && i < |t| && s[i] == t[i] then CommonFrom(s, t, i + 1) else i
  }

  /** The length of the longest common prefix. */
  function CommonLength<T(==)>(s: seq<T>, t: seq<T>): (n: nat)
    ensures n <= |s| && n <= |t|
    ensures s[..n] == t[..n]
    ensures n < |s| && n < |t| ==> s[n] != t[n]
  {
    CommonFrom(s, t, 0)
  }

  lemma CommonAtLeast<T>(s: seq<T>, t: seq<T>, n: nat)
    requires n <= |s| && n <= |t| && s[..n] == t[..n]
    ensures CommonLength(s, t) >= n
  {
    assert forall k :: 0 <= k < n ==> s[k] == s[..n][k] && t[k] == t[..n][k];
  }

  /** A duplicate-free sequence is as long as the set of its elements. */
  lemma {:induction false} NoDupCard<T>(s: seq<T>)
    requires NoDup(s)
    ensures |set x | x in s| == |s|
  {
    if s != [] {
      var t, x := s[..|s| - 1], s[|s| - 1];
      NoDupCard(t);
      assert s == t + [x];
      assert (set y | y in s) == (set y | y in t) + {x};
    }
  }

  ghost function Elements<T>(s: seq<T>): set<T> {
    set x | x in s
  }

  /** Summing a sequence of numbers. */
  function Sum(s: seq<nat>): (n: nat) {
    if s == [] then 0 else Sum(s[..|s| - 1]) + s[|s| - 1]
  }

  lemma SumAppend(s: seq<nat>, x: nat)
    ensures Sum(s + [x]) == Sum(s) + x
  {
    assert (s + [x])[..|s|] == s;
  }

  lemma {:induction false} SumConcat(s: seq<nat>, t: seq<nat>)
    ensures Sum(s + t) == Sum(s) + Sum(t)
    decreases |t|
  {
    if t == [] {
      assert s + t == s;
    } else {
      var u := s + t;
      assert u[..|u| - 1] == s + t[..|t| - 1];
      SumConcat(s, t[..|t| - 1]);
    }
  }
}
