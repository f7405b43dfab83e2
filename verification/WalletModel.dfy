/** The wallet's outputs as a value: what scanning, spending and rewinding do to the list. The
    wallet class (Wallet.dfy) is proved against these functions. */
module WalletModel {
  import opened Words
  import opened Blocks

  datatype Outpoint = Outpoint(tx: Hash, index: nat)

  /** An owned output. `spentBy` names the unconfirmed transaction that spends it, or 0. */
  datatype Output = Output(
    point: Outpoint, amount: U64, key: nat, height: nat, coinbase: bool, spent: bool, spentHeight: nat, spentBy: Hash) {
    /** Spent by a transaction that no scanned block contains yet. */
    predicate Unconfirmed() { spent && spentBy != 0 }

    /** Unspent outputs carry no spend, and unconfirmed spends no height. */
    predicate Tidy() { (!spent ==> spentHeight == 0 && spentBy == 0) && (spentBy != 0 ==> spentHeight == 0) }
  }

  const COINBASE_MATURITY: nat := 60
  const SAFE_CONFIRMATIONS: nat := 10

  predicate IsMature(o: Output, height: nat) {
    var confirmations := if height >= o.height then height - o.height else 0;
    !o.spent && confirmations >= if o.coinbase then COINBASE_MATURITY else SAFE_CONFIRMATIONS
  }

  /** An output matures 10 blocks after its own, a coinbase output 60. */
  lemma MaturityIs(o: Output, height: nat)
    ensures IsMature(o, height) <==> !o.spent && height >= o.height + if o.coinbase then 60 else 10
  {
  }

  // ---------------------------------------------------------------- adding and spending

  /** The first index from i on whose key is `key`; |os| if there is none. */
  function FindKey(os: seq<Output>, key: nat, i: nat): (k: nat)
    requires i <= |os|
    ensures i <= k <= |os| && (k < |os| ==> os[k].key == key) && forall j :: i <= j < k ==> os[j].key != key
    decreases |os| - i
  {
    if i == |os| || os[i].key == key then i else FindKey(os, key, i + 1)
  }

  ghost predicate HasPoint(os: seq<Output>, p: Outpoint) {
    exists i :: 0 <= i < |os| && os[i].point == p
  }

  ghost predicate PointsDiffer(os: seq<Output>, i: nat, j: nat)
    requires i < j < |os|
  {
    os[i].point != os[j].point
  }

  /** Outpoints are unique. */
  ghost predicate Distinct(os: seq<Output>) {
    forall i: nat, j: nat {:trigger PointsDiffer(os, i, j)} :: i < j < |os| ==> PointsDiffer(os, i, j)
  }

  lemma DistinctPrefix(os: seq<Output>, n: nat)
    requires Distinct(os) && n <= |os|
    ensures Distinct(os[..n])
  {
    forall i: nat, j: nat | i < j < n ensures PointsDiffer(os[..n], i, j) { assert PointsDiffer(os, i, j); }
  }

  lemma SamePointsDistinct(s: seq<Output>, t: seq<Output>)
    requires Distinct(s) && |t| == |s| && forall i :: 0 <= i < |s| ==> t[i].point == s[i].point
    ensures Distinct(t)
  {
    forall i: nat, j: nat | i < j < |t| ensures PointsDiffer(t, i, j) { assert PointsDiffer(s, i, j); }
  }

  ghost predicate AllTidy(os: seq<Output>) {
    forall i :: 0 <= i < |os| ==> os[i].Tidy()
  }

  ghost function Added(os: seq<Output>, o: Output): seq<Output> {
    if HasPoint(os, o.point) then os else os + [o]
  }

  /** What a confirmed spend at `height` makes of an output. */
  function Confirmed(o: Output, height: nat): Output {
    if o.Unconfirmed() then o.(spentHeight := height, spentBy := 0)
    else if !o.spent then o.(spent := true, spentHeight := height)
    else o
  }

  ghost function Marked(os: seq<Output>, key: nat, height: nat): (r: seq<Output>)
    ensures |r| == |os|
  {
    var k := FindKey(os, key, 0);
    if k < |os| then os[k := Confirmed(os[k], height)] else os
  }

  /** What rewinding to h makes of an output from h or below. */
  function Unspent(o: Output, h: nat): Output {
    if o.spent && o.spentHeight > h then o.(spent := false, spentHeight := 0) else o
  }

  ghost function Rewound(os: seq<Output>, h: nat): seq<Output> {
    if os == [] then []
    else
      var front, o := Rewound(os[..|os| - 1], h), os[|os| - 1];
      if o.height <= h then front + [Unspent(o, h)] else front
  }

  lemma {:induction false} RewoundJoins(a: seq<Output>, b: seq<Output>, h: nat)
    ensures Rewound(a + b, h) == Rewound(a, h) + Rewound(b, h)
    decreases |b|
  {
    if b == [] {
      assert a + b == a;
    } else {
      assert (a + b)[..|a + b| - 1] == a + b[..|b| - 1];
      RewoundJoins(a, b[..|b| - 1], h);
    }
  }

  /** Rewinding keeps exactly the outputs from h or below, in order, and makes those unspent that were
      spent above it. */
  lemma RewoundExactly(os: seq<Output>, h: nat, i: nat)
    requires i < |os|
    ensures Rewound(os, h) == Rewound(os[..i], h) + Rewound([os[i]], h) + Rewound(os[i + 1..], h)
    ensures os[i].height > h ==> Rewound([os[i]], h) == []
    ensures os[i].height <= h && os[i].spent && os[i].spentHeight > h ==>
      Rewound([os[i]], h) == [os[i].(spent := false, spentHeight := 0)]
    ensures os[i].height <= h && !(os[i].spent && os[i].spentHeight > h) ==> Rewound([os[i]], h) == [os[i]]
  {
    RewoundJoins(os[..i], [os[i]], h);
    RewoundJoins(os[..i] + [os[i]], os[i + 1..], h);
    assert os == os[..i] + [os[i]] + os[i + 1..];
    assert [os[i]][..0] == [];
  }

  // ---------------------------------------------------------------- scanning

  /** What scanning does to the list, one call at a time. */
  datatype Action = Add(o: Output) | Mark(key: nat, height: nat)

  ghost function Acted(os: seq<Output>, a: Action): seq<Output> {
    match a
    case Add(o) => Added(os, o)
    case Mark(key, height) => Marked(os, key, height)
  }

  ghost function ActedAll(os: seq<Output>, acts: seq<Action>): seq<Output> {
    if acts == [] then os else Acted(ActedAll(os, acts[..|acts| - 1]), acts[|acts| - 1])
  }

  /** An action of scanning a block above height h. */
  ghost predicate ScansAbove(a: Action, h: nat) {
    match a
    case Add(o) => o.height > h && !o.spent && o.spentBy == 0
    case Mark(_, height) => height > h
  }

  ghost predicate AllAbove(acts: seq<Action>, h: nat) {
    forall i :: 0 <= i < |acts| ==> ScansAbove(acts[i], h)
  }

  /** Nothing in the list is newer than h; unspent outputs carry no spend height. */
  ghost predicate Settled(os: seq<Output>, h: nat) {
    forall i :: 0 <= i < |os| ==>
      && os[i].height <= h && os[i].spentHeight <= h
      && (!os[i].spent ==> os[i].spentHeight == 0 && os[i].spentBy == 0)
  }

  /** The action confirms a spend that was unconfirmed. */
  ghost predicate Promotes(os: seq<Output>, a: Action) {
    a.Mark? && var k := FindKey(os, a.key, 0); k < |os| && os[k].Unconfirmed()
  }

  ghost predicate AnyPromotion(os: seq<Output>, acts: seq<Action>) {
    acts != [] && (AnyPromotion(os, acts[..|acts| - 1]) || Promotes(ActedAll(os, acts[..|acts| - 1]), acts[|acts| - 1]))
  }

  /** o has been scanned above h and can still be restored to o0. */
  ghost predicate Restorable(o0: Output, o: Output, h: nat) {
    o == o0 || (!o0.spent && o == o0.(spent := true, spentHeight := o.spentHeight) && o.spentHeight > h)
  }

  /** The unconfirmed spend of o0 was confirmed above h; rewinding cannot tell who made it. */
  ghost predicate Lost(o0: Output, o: Output, h: nat) {
    o0.Unconfirmed() && o == o0.(spentHeight := o.spentHeight, spentBy := 0) && o.spentHeight > h
  }

  ghost predicate ScannedAt(os0: seq<Output>, os: seq<Output>, h: nat, i: nat)
    requires i < |os|
  {
    if i < |os0| then Restorable(os0[i], os[i], h) || Lost(os0[i], os[i], h)
    else os[i].height > h && os[i].spentBy == 0
  }

  /** What the list looks like after any scanning above h. */
  ghost predicate Scanned(os0: seq<Output>, os: seq<Output>, h: nat) {
    |os| >= |os0| && forall i: nat {:trigger ScannedAt(os0, os, h, i)} :: i < |os| ==> ScannedAt(os0, os, h, i)
  }

  ghost predicate LostAt(os0: seq<Output>, os: seq<Output>, h: nat, i: nat)
    requires i < |os0| <= |os|
  {
    Lost(os0[i], os[i], h)
  }

  ghost predicate AnyLost(os0: seq<Output>, os: seq<Output>, h: nat)
    requires |os0| <= |os|
  {
    exists i: nat {:trigger LostAt(os0, os, h, i)} :: i < |os0| && LostAt(os0, os, h, i)
  }

  lemma ActionScans(os0: seq<Output>, os: seq<Output>, a: Action, h: nat)
    requires Settled(os0, h) && Scanned(os0, os, h) && ScansAbove(a, h)
    ensures Scanned(os0, Acted(os, a), h)
    ensures AnyLost(os0, Acted(os, a), h) <==> AnyLost(os0, os, h) || Promotes(os, a)
  {
    var next := Acted(os, a);
    var k := if a.Mark? then FindKey(os, a.key, 0) else |os|;
    assert forall i :: 0 <= i < |os| && i != k ==> next[i] == os[i];
    if k < |os| { assert ScannedAt(os0, os, h, k); }
    forall i: nat | i < |next| ensures ScannedAt(os0, next, h, i) {
      if i < |os| { assert ScannedAt(os0, os, h, i); }
    }
    LostMoves(os0, os, next, h, k);
  }

  /** An action loses exactly the output it promotes. */
  lemma LostMoves(os0: seq<Output>, os: seq<Output>, next: seq<Output>, h: nat, k: nat)
    requires Settled(os0, h) && Scanned(os0, os, h) && |next| >= |os| && Scanned(os0, next, h)
    requires forall i :: 0 <= i < |os| && i != k ==> next[i] == os[i]
    requires k < |os| ==> exists height :: height > h && next[k] == Confirmed(os[k], height)
    ensures AnyLost(os0, next, h) <==> AnyLost(os0, os, h) || (k < |os| && os[k].Unconfirmed())
  {
    if k < |os| { assert ScannedAt(os0, os, h, k) && ScannedAt(os0, next, h, k); }
    forall i: nat | i < |os0| ensures LostAt(os0, next, h, i) <==> LostAt(os0, os, h, i) || (i == k && os[k].Unconfirmed()) {
      assert ScannedAt(os0, os, h, i);
    }
    if AnyLost(os0, os, h) {
      var i: nat :| i < |os0| && LostAt(os0, os, h, i);
      assert LostAt(os0, next, h, i);
    }
    if k < |os| && os[k].Unconfirmed() { assert LostAt(os0, next, h, k); }
  }

  lemma {:induction false} ScanningScans(os0: seq<Output>, acts: seq<Action>, h: nat)
    requires Settled(os0, h) && AllAbove(acts, h)
    ensures Scanned(os0, ActedAll(os0, acts), h)
    ensures AnyLost(os0, ActedAll(os0, acts), h) <==> AnyPromotion(os0, acts)
  {
    if acts == [] {
      forall i: nat | i < |os0| ensures ScannedAt(os0, os0, h, i) && !LostAt(os0, os0, h, i) { }
    } else {
      var front := acts[..|acts| - 1];
      ScanningScans(os0, front, h);
      ActionScans(os0, ActedAll(os0, front), acts[|acts| - 1], h);
    }
  }

  /** Rewinding keeps the first n outputs and drops the newer ones. */
  lemma {:induction false} RewoundSplit(os: seq<Output>, h: nat, n: nat)
    requires n <= |os|
    requires forall i :: 0 <= i < |os| ==> (os[i].height <= h <==> i < n)
    ensures |Rewound(os, h)| == n && forall i :: 0 <= i < n ==> Rewound(os, h)[i] == Unspent(os[i], h)
  {
    if os != [] { RewoundSplit(os[..|os| - 1], h, if n == |os| then n - 1 else n); }
  }

  /** Rewinding to h undoes every scan above h exactly when the scan confirmed no spend that
      was unconfirmed before. In particular it does when there were no unconfirmed spends. */
  lemma RewindUndoesScan(os0: seq<Output>, acts: seq<Action>, h: nat)
    requires Settled(os0, h) && AllAbove(acts, h)
    ensures Rewound(ActedAll(os0, acts), h) == os0 <==> !AnyPromotion(os0, acts)
  {
    var os := ActedAll(os0, acts);
    ScanningScans(os0, acts, h);
    forall i: nat | i < |os| ensures os[i].height <= h <==> i < |os0| { assert ScannedAt(os0, os, h, i); }
    RewoundSplit(os, h, |os0|);
    forall i: nat | i < |os0| ensures Unspent(os[i], h) == os0[i] <==> !LostAt(os0, os, h, i) {
      assert ScannedAt(os0, os, h, i);
    }
    if Rewound(os, h) == os0 {
      forall i: nat | i < |os0| ensures !LostAt(os0, os, h, i) { assert Rewound(os, h)[i] == os0[i]; }
    }
  }

  /** A pending spend that a block confirms is forgotten when that block is rewound: the output comes
      back as unspent. */
  lemma PendingSpendForgotten(o: Output, h: nat, height: nat)
    requires o.Unconfirmed() && o.height <= h && o.spentHeight <= h < height
    ensures Settled([o], h) && AllAbove([Mark(o.key, height)], h)
    ensures Rewound(ActedAll([o], [Mark(o.key, height)]), h) == [o.(spent := false, spentHeight := 0, spentBy := 0)] != [o]
  {
    var acts, t := [Mark(o.key, height)], [Confirmed(o, height)];
    assert acts[..0] == [] && ActedAll([o], acts) == Marked([o], o.key, height) == t;
    assert t[..0] == [] && Rewound([], h) == [];
  }

  ghost predicate NoneUnconfirmed(os: seq<Output>) {
    forall i :: 0 <= i < |os| ==> !os[i].Unconfirmed()
  }

  /** Without unconfirmed spends nothing can be promoted. */
  lemma NothingToPromote(os0: seq<Output>, acts: seq<Action>, h: nat)
    requires Settled(os0, h) && AllAbove(acts, h) && NoneUnconfirmed(os0)
    ensures !AnyPromotion(os0, acts)
  {
    ScanningScans(os0, acts, h);
    var os := ActedAll(os0, acts);
    forall i: nat | i < |os0| ensures !LostAt(os0, os, h, i) { }
  }

  /** After a rewind, scanning another branch gives what scanning only that branch gives. */
  lemma RescanForgetsBranch(os0: seq<Output>, acts: seq<Action>, others: seq<Action>, h: nat)
    requires Settled(os0, h) && AllAbove(acts, h) && NoneUnconfirmed(os0)
    ensures ActedAll(Rewound(ActedAll(os0, acts), h), others) == ActedAll(os0, others)
  {
    NothingToPromote(os0, acts, h);
    RewindUndoesScan(os0, acts, h);
  }

  // ---------------------------------------------------------------- unique outpoints

  lemma AddedDistinct(os: seq<Output>, o: Output)
    requires Distinct(os)
    ensures Distinct(Added(os, o))
  {
    var t := Added(os, o);
    forall i: nat, j: nat | i < j < |t| ensures PointsDiffer(t, i, j) {
      if j < |os| { assert PointsDiffer(os, i, j); }
    }
  }

  lemma MarkedDistinct(os: seq<Output>, key: nat, height: nat)
    requires Distinct(os)
    ensures Distinct(Marked(os, key, height))
  {
    SamePointsDistinct(os, Marked(os, key, height));
  }

  lemma {:induction false} RewoundFrom(os: seq<Output>, h: nat, i: nat) returns (j: nat)
    requires i < |Rewound(os, h)|
    ensures j < |os| && i <= j && Rewound(os, h)[i] == Unspent(os[j], h) && os[j].height <= h
  {
    var front := Rewound(os[..|os| - 1], h);
    if i < |front| { j := RewoundFrom(os[..|os| - 1], h, i); } else { RewoundShorter(os[..|os| - 1], h); j := |os| - 1; }
  }

  lemma {:induction false} RewoundShorter(os: seq<Output>, h: nat)
    ensures |Rewound(os, h)| <= |os|
  {
    if os != [] { RewoundShorter(os[..|os| - 1], h); }
  }

  lemma {:induction false} RewoundTidy(os: seq<Output>, h: nat)
    requires AllTidy(os)
    ensures AllTidy(Rewound(os, h))
  {
    if os != [] { RewoundTidy(os[..|os| - 1], h); }
  }

  lemma {:induction false} RewoundDistinct(os: seq<Output>, h: nat)
    requires Distinct(os)
    ensures Distinct(Rewound(os, h))
  {
    if os != [] {
      var e, o := os[..|os| - 1], os[|os| - 1];
      DistinctPrefix(os, |e|);
      RewoundDistinct(e, h);
      var r, t := Rewound(e, h), Rewound(os, h);
      forall i: nat, j: nat | i < j < |t| ensures PointsDiffer(t, i, j) {
        if j < |r| {
          assert PointsDiffer(r, i, j);
        } else {
          var k := RewoundFrom(e, h, i);
          assert PointsDiffer(os, k, |e|);
        }
      }
    }
  }
}
