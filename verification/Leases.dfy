/** Input leases (wallet/wallet.go): reserving outputs for a payment in progress, over whole
    runs of the wallet. */
module Leases {
  import opened Seqs
  import opened Blocks
  import opened WalletModel

  datatype Reservation = Reservation(lease: nat, expires: int)

  type Reserved = map<Outpoint, Reservation>

  /** The part of the wallet that leases depend on. */
  datatype State = State(outputs: seq<Output>, reserved: Reserved, nextLease: nat)

  datatype Step =
    | Reserve(now: int, height: nat, expires: int, points: seq<Outpoint>)
    | Sweep(now: int)                      // a reservation that failed still drops expired ones
    | Release(lease: nat)
    | Confirm(key: nat, height: nat)
    | SpendBy(key: nat, tx: Hash)
    | Reconcile(dead: set<Hash>)
    | Receive(o: Output)
    | Rewind(height: nat)

  function Live(reserved: Reserved, now: int): Reserved {
    map p | p in reserved && now <= reserved[p].expires :: reserved[p]
  }

  ghost predicate Available(outputs: seq<Output>, reserved: Reserved, height: nat, p: Outpoint) {
    p !in reserved && exists i :: 0 <= i < |outputs| && outputs[i].point == p && IsMature(outputs[i], height)
  }

  ghost function Granted(reserved: Reserved, points: seq<Outpoint>, r: Reservation): Reserved {
    if points == [] then reserved else Granted(reserved, points[..|points| - 1], r)[points[|points| - 1] := r]
  }

  lemma {:induction false} GrantedAt(reserved: Reserved, points: seq<Outpoint>, r: Reservation, p: Outpoint)
    ensures p in Granted(reserved, points, r) <==> p in points || p in reserved
    ensures p in Granted(reserved, points, r) ==> Granted(reserved, points, r)[p] == if p in points then r else reserved[p]
  {
    if points != [] {
      GrantedAt(reserved, points[..|points| - 1], r, p);
      assert points == points[..|points| - 1] + [points[|points| - 1]];
    }
  }

  /** The first unspent output with this key. */
  function FindUnspent(os: seq<Output>, key: nat, i: nat): (k: nat)
    requires i <= |os|
    ensures i <= k <= |os| && (k < |os| ==> os[k].key == key && !os[k].spent)
    ensures forall j :: i <= j < k ==> os[j].key != key || os[j].spent
    decreases |os| - i
  {
    if i == |os| || (os[i].key == key && !os[i].spent) then i else FindUnspent(os, key, i + 1)
  }

  /** The outpoint that a step takes from unspent to spent, if any. */
  ghost function Spends(s: State, e: Step): Option<Outpoint> {
    match e
    case Confirm(key, _) =>
      var k := FindKey(s.outputs, key, 0);
      if k < |s.outputs| && !s.outputs[k].spent then Some(s.outputs[k].point) else None
    case SpendBy(key, _) =>
      var k := FindUnspent(s.outputs, key, 0);
      if k < |s.outputs| then Some(s.outputs[k].point) else None
    case _ => None
  }

  ghost function Without(reserved: Reserved, p: Option<Outpoint>): Reserved {
    if p.Some? then reserved - {p.value} else reserved
  }

  function SpentByTx(o: Output, tx: Hash): Output {
    o.(spent := true, spentHeight := 0, spentBy := tx)
  }

  ghost function PendingMarked(os: seq<Output>, key: nat, tx: Hash): seq<Output> {
    var k := FindUnspent(os, key, 0);
    if k < |os| then os[k := SpentByTx(os[k], tx)] else os
  }

  function Restored(o: Output, dead: set<Hash>): Output {
    if o.Unconfirmed() && o.spentBy in dead then o.(spent := false, spentHeight := 0, spentBy := 0) else o
  }

  ghost function Reconciled(os: seq<Output>, dead: set<Hash>): seq<Output> {
    seq(|os|, i requires 0 <= i < |os| => Restored(os[i], dead))
  }

  ghost function ReservedAfter(s: State, e: Step): Reserved {
    match e
    case Reserve(now, _, expires, points) => Granted(Live(s.reserved, now), points, Reservation(s.nextLease + 1, expires))
    case Sweep(now) => Live(s.reserved, now)
    case Release(lease) => if lease == 0 then s.reserved else map p | p in s.reserved && s.reserved[p].lease != lease :: s.reserved[p]
    case Confirm(_, _) => Without(s.reserved, Spends(s, e))
    case SpendBy(_, _) => Without(s.reserved, Spends(s, e))
    case _ => s.reserved
  }

  ghost function OutputsAfter(s: State, e: Step): seq<Output> {
    match e
    case Confirm(key, height) => Marked(s.outputs, key, height)
    case SpendBy(key, tx) => PendingMarked(s.outputs, key, tx)
    case Reconcile(dead) => Reconciled(s.outputs, dead)
    case Receive(o) => Added(s.outputs, o)
    case Rewind(h) => Rewound(s.outputs, h)
    case _ => s.outputs
  }

  /** The outputs a reservation hands out are distinct, unspent, mature and not reserved. */
  ghost predicate Grantable(s: State, now: int, height: nat, points: seq<Outpoint>) {
    NoDup(points) && forall p :: p in points ==> Available(s.outputs, Live(s.reserved, now), height, p)
  }

  ghost predicate Next(s: State, e: Step, s': State) {
    && (e.Reserve? ==> Grantable(s, e.now, e.height, e.points))
    && s' == State(OutputsAfter(s, e), ReservedAfter(s, e), if e.Reserve? then s.nextLease + 1 else s.nextLease)
  }

  // ---------------------------------------------------------------- exclusivity

  ghost predicate Hands(e: Step, p: Outpoint) {
    e.Reserve? && p in e.points
  }

  ghost predicate Held(s: State, p: Outpoint, r: Reservation) {
    p in s.reserved && s.reserved[p] == r
  }

  /** The step ends reservation r of p: by release, by expiry or by spending the output. */
  ghost predicate Frees(s: State, e: Step, p: Outpoint, r: Reservation) {
    || e == Release(r.lease)
    || ((e.Reserve? || e.Sweep?) && e.now > r.expires)
    || Spends(s, e) == Some(p)
  }

  lemma HeldStays(s: State, e: Step, s': State, p: Outpoint, r: Reservation)
    requires Next(s, e, s') && Held(s, p, r) && !Frees(s, e, p, r)
    ensures Held(s', p, r) && !Hands(e, p)
  {
    if e.Reserve? {
      assert p in Live(s.reserved, e.now);
      assert !Available(s.outputs, Live(s.reserved, e.now), e.height, p);
      GrantedAt(Live(s.reserved, e.now), e.points, Reservation(s.nextLease + 1, e.expires), p);
    }
  }

  ghost predicate StepAt(ss: seq<State>, es: seq<Step>, i: nat)
    requires i < |es| && |ss| == |es| + 1
  {
    Next(ss[i], es[i], ss[i + 1])
  }

  ghost predicate Run(ss: seq<State>, es: seq<Step>) {
    |ss| == |es| + 1 && forall i: nat {:trigger StepAt(ss, es, i)} :: i < |es| ==> StepAt(ss, es, i)
  }

  lemma {:induction false} HeldUntil(ss: seq<State>, es: seq<Step>, i: nat, j: nat, p: Outpoint, r: Reservation)
    requires Run(ss, es) && i <= j < |ss| && Held(ss[i], p, r)
    requires forall k :: i <= k < j ==> !Frees(ss[k], es[k], p, r)
    ensures Held(ss[j], p, r)
    decreases j
  {
    if i < j {
      HeldUntil(ss, es, i, j - 1, p, r);
      assert StepAt(ss, es, j - 1);
      HeldStays(ss[j - 1], es[j - 1], ss[j], p, r);
    }
  }

  /** An outpoint handed out at step i under a lease is handed out again at a later step j only
      if some step in between, or j itself, ended that lease for it: a release, an expiry, or
      a spend of the output. */
  lemma LeaseExclusive(ss: seq<State>, es: seq<Step>, i: nat, j: nat, p: Outpoint) returns (k: nat)
    requires Run(ss, es) && i < j < |es| && Hands(es[i], p) && Hands(es[j], p)
    ensures i < k <= j && Frees(ss[k], es[k], p, Reservation(ss[i].nextLease + 1, es[i].expires))
  {
    var r := Reservation(ss[i].nextLease + 1, es[i].expires);
    assert StepAt(ss, es, i);
    GrantedAt(Live(ss[i].reserved, es[i].now), es[i].points, r, p);
    assert Held(ss[i + 1], p, r);
    if k' :| i < k' <= j && Frees(ss[k'], es[k'], p, r) {
      k := k';
    } else {
      HeldUntil(ss, es, i + 1, j, p, r);
      assert StepAt(ss, es, j);
      HeldStays(ss[j], es[j], ss[j + 1], p, r);
      k := j;
    }
  }

  // ---------------------------------------------------------------- unique outpoints

  lemma StepDistinct(s: State, e: Step, s': State)
    requires Next(s, e, s') && Distinct(s.outputs)
    ensures Distinct(s'.outputs)
  {
    match e
    case Confirm(key, height) => MarkedDistinct(s.outputs, key, height);
    case SpendBy(key, tx) => SamePointsDistinct(s.outputs, s'.outputs);
    case Reconcile(dead) => SamePointsDistinct(s.outputs, s'.outputs);
    case Receive(o) => AddedDistinct(s.outputs, o);
    case Rewind(h) => RewoundDistinct(s.outputs, h);
    case _ =>
  }

  lemma {:induction false} DistinctOnRuns(ss: seq<State>, es: seq<Step>, i: nat)
    requires Run(ss, es) && Distinct(ss[0].outputs) && i < |ss|
    ensures Distinct(ss[i].outputs)
  {
    if i > 0 {
      DistinctOnRuns(ss, es, i - 1);
      assert StepAt(ss, es, i - 1);
      StepDistinct(ss[i - 1], es[i - 1], ss[i]);
    }
  }

  lemma PointsApart(os: seq<Output>, i: nat, j: nat)
    requires Distinct(os) && i < |os| && j < |os| && i != j
    ensures os[i].point != os[j].point
  {
    assert if i < j then PointsDiffer(os, i, j) else PointsDiffer(os, j, i);
  }

  /** Everything handed out on any run is distinct, and names one output of the wallet and no
      other, which is unspent and mature. */
  lemma HandedOutIsSpendable(ss: seq<State>, es: seq<Step>, i: nat, p: Outpoint)
    requires Run(ss, es) && Distinct(ss[0].outputs) && i < |es| && Hands(es[i], p)
    ensures NoDup(es[i].points) && HasPoint(ss[i].outputs, p)
    ensures forall o :: o in ss[i].outputs && o.point == p ==> !o.spent && IsMature(o, es[i].height)
    ensures forall o :: o in ss[i].outputs && o.point == p ==> es[i].height >= o.height + if o.coinbase then 60 else 10
  {
    DistinctOnRuns(ss, es, i);
    assert StepAt(ss, es, i);
    var os := ss[i].outputs;
    var k :| 0 <= k < |os| && os[k].point == p && IsMature(os[k], es[i].height);
    forall m: nat | m < |os| && m != k ensures os[m].point != p { PointsApart(os, m, k); }
  }

  /** Lease numbers are never reused. */
  lemma {:induction false} LeasesIncrease(ss: seq<State>, es: seq<Step>, i: nat, j: nat)
    requires Run(ss, es) && i <= j < |ss|
    ensures ss[i].nextLease <= ss[j].nextLease
    ensures i < j && es[i].Reserve? ==> ss[i].nextLease < ss[j].nextLease
    decreases j
  {
    if i < j {
      assert StepAt(ss, es, j - 1);
      LeasesIncrease(ss, es, i, j - 1);
    }
  }

  // ---------------------------------------------------------------- giving a lease back

  /** Every reservation belongs to a lease already issued. */
  ghost predicate Known(s: State) {
    forall p :: p in s.reserved ==> 0 < s.reserved[p].lease <= s.nextLease
  }

  lemma StepKnown(s: State, e: Step, s': State)
    requires Next(s, e, s') && Known(s)
    ensures Known(s')
  {
    if e.Reserve? {
      forall p | p in s'.reserved ensures 0 < s'.reserved[p].lease <= s'.nextLease {
        GrantedAt(Live(s.reserved, e.now), e.points, Reservation(s.nextLease + 1, e.expires), p);
      }
    }
  }

  /** A reservation ends at exactly the steps that free it. */
  lemma HeldExactly(s: State, e: Step, s': State, p: Outpoint, r: Reservation)
    requires Known(s) && Next(s, e, s') && Held(s, p, r)
    ensures Held(s', p, r) <==> !Frees(s, e, p, r)
  {
    if !Frees(s, e, p, r) {
      HeldStays(s, e, s', p, r);
    } else if e.Reserve? {
      GrantedAt(Live(s.reserved, e.now), e.points, Reservation(s.nextLease + 1, e.expires), p);
    }
  }

  /** Releasing a lease right after it was granted leaves only the sweep of expired leases. */
  lemma ReleaseUndoesReserve(s: State, e: Step, s1: State, s2: State)
    requires Known(s) && e.Reserve? && Next(s, e, s1) && Next(s1, Release(s1.nextLease), s2)
    ensures s2 == State(s.outputs, Live(s.reserved, e.now), s.nextLease + 1)
  {
    var live := Live(s.reserved, e.now);
    forall p ensures p in s2.reserved <==> p in live {
      GrantedAt(live, e.points, Reservation(s.nextLease + 1, e.expires), p);
      if p in e.points { assert Available(s.outputs, live, e.height, p); }
    }
    forall p | p in live ensures s2.reserved[p] == live[p] {
      GrantedAt(live, e.points, Reservation(s.nextLease + 1, e.expires), p);
    }
  }

  /** Sweeping twice is sweeping once, at the later time. */
  lemma LiveTwice(reserved: Reserved, t: int, now: int)
    requires t <= now
    ensures Live(Live(reserved, t), now) == Live(reserved, now)
  {
    forall p ensures p in Live(Live(reserved, t), now) <==> p in Live(reserved, now) { }
  }

  // ---------------------------------------------------------------- abandoned spends

  /** Reconciling with dead transactions makes exactly the outputs whose spend they left pending
      unspent again, and touches nothing else. */
  lemma ReconciledIs(os: seq<Output>, dead: set<Hash>, i: nat)
    requires i < |os|
    ensures |Reconciled(os, dead)| == |os|
    ensures var o, r := os[i], Reconciled(os, dead)[i];
      && (r.spent <==> o.spent && (o.spentBy == 0 || o.spentBy !in dead))
      && (r.spent == o.spent ==> r == o)
      && (r.spent != o.spent ==> r.spentHeight == 0 && r.spentBy == 0)
      && r.point == o.point && r.amount == o.amount && r.key == o.key && r.height == o.height && r.coinbase == o.coinbase
  {
  }

  /** A spend by a pending transaction marks the first unspent output with the key, if there is one,
      and nothing else. */
  lemma PendingMarkedIs(os: seq<Output>, key: nat, tx: Hash, i: nat)
    requires i < |os|
    ensures |PendingMarked(os, key, tx)| == |os|
    ensures PendingMarked(os, key, tx)[i] ==
      if os[i].key == key && !os[i].spent && forall j :: 0 <= j < i ==> os[j].key != key || os[j].spent
      then os[i].(spent := true, spentHeight := 0, spentBy := tx) else os[i]
  {
    var k := FindUnspent(os, key, 0);
    if i > k { assert os[k].key == key && !os[k].spent; }
  }

  /** Some output waits for tx already. */
  ghost predicate Awaits(os: seq<Output>, tx: Hash) {
    exists i :: 0 <= i < |os| && os[i].Unconfirmed() && os[i].spentBy == tx
  }

  /** Reconciling with a transaction takes its spend back, exactly when nothing waited for it before. */
  lemma ReconcileUndoesSpend(os: seq<Output>, key: nat, tx: Hash)
    requires AllTidy(os) && tx != 0
    ensures Reconciled(PendingMarked(os, key, tx), {tx}) == os <==> !Awaits(os, tx)
  {
    var marked := PendingMarked(os, key, tx);
    var back := Reconciled(marked, {tx});
    var k := FindUnspent(os, key, 0);
    forall i | 0 <= i < |os| ensures back[i] == os[i] <==> !(os[i].Unconfirmed() && os[i].spentBy == tx) {
      assert os[i].Tidy();
      if i == k { assert marked[i] == SpentByTx(os[i], tx); } else { assert marked[i] == os[i]; }
    }
    if Awaits(os, tx) {
      var i :| 0 <= i < |os| && os[i].Unconfirmed() && os[i].spentBy == tx;
      assert back[i] != os[i];
    } else {
      assert back == os;
    }
  }
}
