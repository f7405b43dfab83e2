/** The mempool's priority queue (mempool.go): a binary heap of entries, highest fee rate
    first, in which every entry knows its own position. Sifting is that of the standard
    container/heap algorithms. */
module Queue {
  import opened Seqs
  import opened Blocks

  /** A pooled transaction. Everything but its queue position is fixed. */
  class Entry {
    const tx: Tx
    const feeRate: nat
    const size: nat
    const addedAt: int
    var index: int

    constructor (tx: Tx, feeRate: nat, size: nat, addedAt: int)
      ensures this.tx == tx && this.feeRate == feeRate && this.size == size && this.addedAt == addedAt
    {
      this.tx, this.feeRate, this.size, this.addedAt, index := tx, feeRate, size, addedAt, 0;
    }
  }

  // ---------------------------------------------------------------- heap order

  function Parent(k: nat): (p: nat)
    requires k > 0
    ensures p < k && (k == 2 * p + 1 || k == 2 * p + 2)
  {
    (k - 1) / 2
  }

  ghost predicate OrderAt(s: seq<Entry>, k: nat)
    requires 0 < k < |s|
  {
    s[Parent(k)].feeRate >= s[k].feeRate
  }

  /** Every entry among the first n is at most its parent, except possibly entry j. */
  ghost predicate OrderedBut(s: seq<Entry>, n: nat, j: int)
    requires n <= |s|
  {
    forall k: nat {:trigger OrderAt(s, k)} :: 0 < k < n && k != j ==> OrderAt(s, k)
  }

  ghost predicate Ordered(s: seq<Entry>) {
    OrderedBut(s, |s|, -1)
  }

  ghost predicate BridgeAt(s: seq<Entry>, j: nat, k: nat)
    requires 0 < j < |s| && 0 < k < |s|
  {
    s[Parent(j)].feeRate >= s[k].feeRate
  }

  /** The parent of j is at least every child of j. */
  ghost predicate Bridged(s: seq<Entry>, n: nat, j: nat)
    requires n <= |s| && j < |s|
  {
    j > 0 ==> forall k: nat {:trigger BridgeAt(s, j, k)} :: 0 < k < n && Parent(k) == j ==> BridgeAt(s, j, k)
  }

  /** Every entry among the first n is at most its parent, except i and the children of i. */
  ghost predicate OrderedAround(s: seq<Entry>, n: nat, i: nat)
    requires n <= |s|
  {
    forall k: nat {:trigger OrderAt(s, k)} :: 0 < k < n && k != i && Parent(k) != i ==> OrderAt(s, k)
  }

  lemma UpStep(s: seq<Entry>, n: nat, j: nat)
    requires 0 < j < n <= |s| && OrderedBut(s, n, j) && Bridged(s, n, j) && s[j].feeRate > s[Parent(j)].feeRate
    ensures var t, p := Swapped(s, Parent(j), j), Parent(j); OrderedBut(t, n, p) && Bridged(t, n, p)
  {
    var t, p := Swapped(s, Parent(j), j), Parent(j);
    forall k: nat | 0 < k < n && k != p ensures OrderAt(t, k) {
      if k != j { assert OrderAt(s, k); }
      if Parent(k) == j { assert BridgeAt(s, j, k); }
    }
    if p > 0 {
      forall k: nat | 0 < k < n && Parent(k) == p ensures BridgeAt(t, p, k) {
        assert OrderAt(s, p);
        if k != j { assert OrderAt(s, k); }
      }
    }
  }

  /** A child of i among the first n with the highest rate. */
  ghost predicate TopChild(s: seq<Entry>, n: nat, i: nat, j: nat)
    requires n <= |s|
  {
    0 < j < n && Parent(j) == i && forall k: nat :: 0 < k < n && Parent(k) == i ==> s[k].feeRate <= s[j].feeRate
  }

  lemma DownStep(s: seq<Entry>, n: nat, i: nat, j: nat)
    requires i < j < n <= |s| && OrderedAround(s, n, i) && Bridged(s, n, i)
    requires TopChild(s, n, i, j) && s[j].feeRate > s[i].feeRate
    ensures var t := Swapped(s, i, j); OrderedAround(t, n, j) && Bridged(t, n, j) && OrderAt(t, j)
    ensures i > 0 ==> OrderAt(Swapped(s, i, j), i)
  {
    var t := Swapped(s, i, j);
    if i > 0 { assert BridgeAt(s, i, j); }
    forall k: nat | 0 < k < n && k != j && Parent(k) != j ensures OrderAt(t, k) {
      if k != i && Parent(k) != i { assert OrderAt(s, k); }
    }
    forall k: nat | 0 < k < n && Parent(k) == j ensures BridgeAt(t, j, k) { assert OrderAt(s, k); }
  }

  lemma DownStop(s: seq<Entry>, n: nat, i: nat)
    requires i < n <= |s| && OrderedAround(s, n, i)
    requires forall k: nat :: 0 < k < n && Parent(k) == i ==> s[k].feeRate <= s[i].feeRate
    ensures OrderedBut(s, n, i)
  {
    forall k: nat | 0 < k < n && k != i ensures OrderAt(s, k) { }
  }

  /** t has the entries of s, and the same ones from position n on. */
  ghost predicate Rearranged(s: seq<Entry>, t: seq<Entry>, n: nat) {
    && |s| == |t| && (forall x :: x in t ==> x in s) && (forall x :: x in s ==> x in t)
    && forall k :: n <= k < |s| ==> s[k] == t[k]
  }

  ghost function Members(s: seq<Entry>): set<Entry> {
    set e | e in s
  }

  ghost predicate Within(s: seq<Entry>, frame: set<Entry>) {
    forall k :: 0 <= k < |s| ==> s[k] in frame
  }

  lemma SwappedMembers(t: seq<Entry>, i: nat, j: nat)
    requires i < |t| && j < |t|
    ensures forall x :: x in Swapped(t, i, j) <==> x in t
  {
    var u := Swapped(t, i, j);
    forall x ensures x in u <==> x in t {
      if x in t {
        var k :| 0 <= k < |t| && t[k] == x;
        assert u[if k == i then j else if k == j then i else k] == x;
      }
    }
  }

  lemma RearrangedSwap(s: seq<Entry>, t: seq<Entry>, n: nat, i: nat, j: nat)
    requires Rearranged(s, t, n) && i < n && j < n <= |t|
    ensures Rearranged(s, Swapped(t, i, j), n)
  {
    SwappedMembers(t, i, j);
  }

  /** After the last entry has taken the place of entry i, order can fail only around i. */
  lemma AfterSwapOut(s: seq<Entry>, i: nat)
    requires Ordered(s) && i < |s| - 1
    ensures var t, n := Swapped(s, i, |s| - 1), |s| - 1; OrderedAround(t, n, i) && Bridged(t, n, i)
  {
    var t, n := Swapped(s, i, |s| - 1), |s| - 1;
    forall k: nat | 0 < k < n && k != i && Parent(k) != i ensures OrderAt(t, k) { assert OrderAt(s, k); }
    if i > 0 {
      forall k: nat | 0 < k < n && Parent(k) == i ensures BridgeAt(t, i, k) { assert OrderAt(s, k) && OrderAt(s, i); }
    }
  }

  /** The first entry of an ordered queue has the highest rate. */
  lemma {:induction false} FirstIsBest(s: seq<Entry>, k: nat)
    requires Ordered(s) && k < |s|
    ensures s[0].feeRate >= s[k].feeRate
  {
    if k > 0 {
      assert OrderAt(s, k);
      FirstIsBest(s, Parent(k));
    }
  }

  class TxQueue {
    var items: seq<Entry>

    constructor ()
      ensures items == []
    {
      items := [];
    }

    /** Every entry knows its position; in particular no entry occurs twice. */
    ghost predicate Positioned()
      reads this, items
    {
      forall i :: 0 <= i < |items| ==> items[i].index == i
    }

    ghost predicate Valid()
      reads this, items
    {
      Positioned() && Ordered(items)
    }

    method Swap(i: nat, j: nat)
      requires Positioned() && i < |items| && j < |items|
      modifies this, items[i], items[j]
      ensures Positioned() && items == Swapped(old(items), i, j)
    {
      items := Swapped(items, i, j);
      items[i].index := i;
      items[j].index := j;
    }

    /** Moves entry `start` towards the root until its parent is at least as good. */
    method Up(start: nat, n: nat, ghost frame: set<Entry>)
      requires Within(items, frame) && Positioned() && start < n <= |items| && OrderedBut(items, n, start) && Bridged(items, n, start)
      modifies this, frame
      ensures Positioned() && Rearranged(old(items), items, n) && OrderedBut(items, n, -1)
    {
      var j := start;
      ghost var s0 := items;
      while j > 0 && items[j].feeRate > items[Parent(j)].feeRate
        invariant 0 <= j < n && Within(items, frame) && Positioned() && Rearranged(s0, items, n)
        invariant OrderedBut(items, n, j) && Bridged(items, n, j)
        decreases j
      {
        UpStep(items, n, j);
        RearrangedSwap(s0, items, n, Parent(j), j);
        Swap(Parent(j), j);
        j := Parent(j);
      }
      forall k: nat | 0 < k < n ensures OrderAt(items, k) { }
    }

    /** Exchanges entry i with its better child j. */
    method DownSwap(i: nat, j: nat, n: nat, ghost s0: seq<Entry>, ghost frame: set<Entry>)
      requires Within(items, frame) && Positioned() && Rearranged(s0, items, n) && i < n <= |items|
      requires OrderedAround(items, n, i) && Bridged(items, n, i) && TopChild(items, n, i, j) && items[j].feeRate > items[i].feeRate
      modifies this, frame
      ensures Within(items, frame) && Positioned() && Rearranged(s0, items, n)
      ensures OrderedAround(items, n, j) && Bridged(items, n, j) && OrderAt(items, j)
    {
      DownStep(items, n, i, j);
      RearrangedSwap(s0, items, n, i, j);
      Swap(i, j);
    }

    /** Moves entry i0 away from the root while a child is better. */
    method Down(i0: nat, n: nat, ghost frame: set<Entry>) returns (moved: bool)
      requires Within(items, frame) && Positioned() && i0 < n <= |items| && OrderedAround(items, n, i0) && Bridged(items, n, i0)
      modifies this, frame
      ensures Positioned() && Rearranged(old(items), items, n)
      ensures moved ==> OrderedBut(items, n, -1)
      ensures !moved ==> OrderedBut(items, n, i0) && Bridged(items, n, i0)
    {
      var i, going := i0, true;
      ghost var s0 := items;
      while going
        invariant i < n && Within(items, frame) && Positioned() && Rearranged(s0, items, n)
        invariant going ==> OrderedAround(items, n, i)
        invariant !going ==> OrderedBut(items, n, i)
        invariant Bridged(items, n, i) && i0 <= i && (i > i0 ==> OrderAt(items, i))
        decreases n - i, going
      {
        var j := 2 * i + 1;
        if j >= n {
          DownStop(items, n, i);
          going := false;
        } else {
          if j + 1 < n && items[j + 1].feeRate > items[j].feeRate { j := j + 1; }
          assert TopChild(items, n, i, j);
          if items[j].feeRate <= items[i].feeRate {
            DownStop(items, n, i);
            going := false;
          } else {
            DownSwap(i, j, n, s0, frame);
            i := j;
          }
        }
      }
      moved := i > i0;
      if moved {
        forall k: nat | 0 < k < n ensures OrderAt(items, k) { }
      }
    }

    /** Adds an entry. */
    method Push(e: Entry)
      requires Valid() && e !in items
      modifies this, items, e
      ensures Valid() && forall x :: x in items <==> x in old(items) || x == e
    {
      e.index := |items|;
      items := items + [e];
      ghost var s0 := items;
      var last := |items| - 1;
      forall k: nat | 0 < k < |items| && k != last ensures OrderAt(items, k) { assert OrderAt(old(items), k); }
      Up(last, |items|, Members(items));
    }

    /** Removes the entry at position i. */
    method Remove(i: nat)
      requires Valid() && i < |items|
      modifies this, items
      ensures Valid() && forall x :: x in items <==> x in old(items) && x != old(items)[i]
      ensures old(items)[i].index == -1
    {
      ghost var s0 := items;
      var n := |items| - 1;
      if i != n {
        AfterSwapOut(items, i);
        SwappedMembers(items, i, n);
        Swap(i, n);
        var moved := Down(i, n, Members(s0));
        if !moved { Up(i, n, Members(s0)); }
      }
      Pop(s0[i], s0);
    }

    method Pop(ghost e: Entry, ghost s0: seq<Entry>)
      requires Positioned() && items != [] && items[|items| - 1] == e && OrderedBut(items, |items| - 1, -1)
      requires forall x :: x in items <==> x in s0
      modifies this`items, items[|items| - 1]
      ensures Valid() && forall x :: x in items <==> x in s0 && x != e
      ensures e.index == -1
    {
      var n := |items| - 1;
      ghost var s := items;
      items[n].index := -1;
      items := items[..n];
      forall k: nat | 0 < k < n ensures OrderAt(items, k) { assert OrderAt(s, k); }
      forall x ensures x in items <==> x in s && x != e {
        if x in s && x != e { var k :| 0 <= k < |s| && s[k] == x; assert items[k] == x; }
      }
    }
  }
}
