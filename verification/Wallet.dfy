/** The wallet (wallet/wallet.go, wallet/scanner.go): its output list, the leases on it and the
    height it has scanned to. Every method takes one step of Leases, and scanning is a run of
    the actions of WalletModel. */
module Wallet {
  import opened Words
  import opened Seqs
  import opened Blocks
  import opened WalletModel
  import opened Leases
  import CoinSelect

  datatype Grant = Granted(lease: nat, inputs: seq<Output>) | Denied(reason: Denial)

  datatype Denial = Selection(error: CoinSelect.Error) | NothingSpendable | NoInputsNamed | Duplicate(i: nat) | Unusable(i: nat)

  const DEFAULT_TTL: int := 120

  ghost function Points(os: seq<Output>): (ps: seq<Outpoint>)
    ensures |ps| == |os| && forall i :: 0 <= i < |os| ==> ps[i] == os[i].point
  {
    seq(|os|, i requires 0 <= i < |os| => os[i].point)
  }

  function Lifetime(ttl: int): (t: int)
    ensures t > 0
  {
    if ttl <= 0 then DEFAULT_TTL else ttl
  }

  class Wallet {
    var outputs: seq<Output>
    var reserved: Reserved
    var nextLease: nat
    var synced: nat

    constructor ()
      ensures Valid() && outputs == [] && reserved == map[] && nextLease == 0 && synced == 0
    {
      outputs, reserved, nextLease, synced := [], map[], 0, 0;
    }

    ghost predicate Valid()
      reads this
    {
      Distinct(outputs) && AllTidy(outputs) && Known(Abs())
    }

    ghost function Abs(): State
      reads this
    {
      State(outputs, reserved, nextLease)
    }

    /** Records an output unless its outpoint is already known. */
    method AddOutput(o: Output)
      requires Valid() && o.Tidy()
      modifies this`outputs
      ensures Valid() && Leases.Next(old(Abs()), Receive(o), Abs())
    {
      AddedDistinct(outputs, o);
      var known := false;
      for i := 0 to |outputs|
        invariant known <==> exists k :: 0 <= k < i && outputs[k].point == o.point
      {
        if outputs[i].point == o.point { known := true; }
      }
      if !known { outputs := outputs + [o]; }
    }

    /** A scanned block spends the output with this key. */
    method MarkSpent(key: nat, height: nat) returns (changed: bool)
      requires Valid()
      modifies this`outputs, this`reserved
      ensures Valid() && Leases.Next(old(Abs()), Confirm(key, height), Abs())
      ensures changed <==> var k := FindKey(old(outputs), key, 0); k < |old(outputs)| && (!old(outputs)[k].spent || old(outputs)[k].spentBy != 0)
    {
      MarkedDistinct(outputs, key, height);
      var i := 0;
      while i < |outputs| && outputs[i].key != key
        invariant 0 <= i <= |outputs| && FindKey(outputs, key, i) == FindKey(outputs, key, 0)
      {
        i := i + 1;
      }
      if i == |outputs| { return false; }
      var o := outputs[i];
      if o.spent && o.spentBy != 0 {
        outputs := outputs[i := o.(spentHeight := height, spentBy := 0)];
        return true;
      }
      if !o.spent {
        outputs := outputs[i := o.(spent := true, spentHeight := height)];
        reserved := reserved - {o.point};
        return true;
      }
      assert outputs[i := o] == outputs;
      return false;
    }

    /** One of our own transactions, not yet confirmed, spends the output with this key. */
    method MarkSpentByTx(key: nat, tx: Hash) returns (changed: bool)
      requires Valid()
      modifies this`outputs, this`reserved
      ensures Valid() && Leases.Next(old(Abs()), SpendBy(key, tx), Abs())
      ensures changed <==> FindUnspent(old(outputs), key, 0) < |old(outputs)|
    {
      var i := 0;
      while i < |outputs| && !(outputs[i].key == key && !outputs[i].spent)
        invariant 0 <= i <= |outputs| && FindUnspent(outputs, key, i) == FindUnspent(outputs, key, 0)
      {
        i := i + 1;
      }
      if i == |outputs| { return false; }
      ghost var s := Abs();
      reserved := reserved - {outputs[i].point};
      outputs := outputs[i := SpentByTx(outputs[i], tx)];
      StepDistinct(s, SpendBy(key, tx), Abs());
      return true;
    }

    /** Gives back the outputs whose unconfirmed spender is gone. */
    method ReconcileUnconfirmedSpends(dead: set<Hash>) returns (restored: nat)
      requires Valid()
      modifies this`outputs
      ensures Valid() && Leases.Next(old(Abs()), Reconcile(dead), Abs())
      ensures restored == Abandoned(old(outputs), dead)
    {
      ghost var s := Abs();
      restored := 0;
      var os := outputs;
      for i := 0 to |os|
        invariant |outputs| == |os|
        invariant forall k :: 0 <= k < |os| ==> outputs[k] == if k < i then Restored(os[k], dead) else os[k]
        invariant restored == Abandoned(os[..i], dead)
      {
        assert os[..i + 1][..i] == os[..i];
        if os[i].Unconfirmed() && os[i].spentBy in dead {
          outputs := outputs[i := os[i].(spent := false, spentHeight := 0, spentBy := 0)];
          restored := restored + 1;
        }
      }
      assert os[..|os|] == os && outputs == Reconciled(os, dead);
      StepDistinct(s, Reconcile(dead), Abs());
    }

    /** Forgets everything above a height. */
    method RewindToHeight(h: nat) returns (removed: nat)
      requires Valid()
      modifies this`outputs, this`synced
      ensures Valid() && Leases.Next(old(Abs()), Rewind(h), Abs()) && outputs == Rewound(old(outputs), h)
      ensures synced == if old(synced) > h then h else old(synced)
      ensures removed == |old(outputs)| - |outputs|
    {
      var os, kept: seq<Output> := outputs, [];
      RewoundDistinct(os, h);
      RewoundTidy(os, h);
      removed := 0;
      for i := 0 to |os|
        invariant kept == Rewound(os[..i], h) && removed == i - |kept|
      {
        assert os[..i + 1][..i] == os[..i];
        if os[i].height <= h {
          var o := os[i];
          if o.spent && o.spentHeight > h { o := o.(spent := false, spentHeight := 0); }
          kept := kept + [o];
        } else {
          removed := removed + 1;
        }
      }
      assert os[..|os|] == os;
      outputs := kept;
      if synced > h { synced := h; }
    }

    method SetSyncedHeight(h: nat)
      modifies this`synced
      ensures synced == h
    {
      synced := h;
    }

    method ReleaseInputLease(lease: nat)
      requires Valid()
      modifies this`reserved
      ensures Valid() && Leases.Next(old(Abs()), Release(lease), Abs())
    {
      if lease != 0 {
        reserved := map p | p in reserved && reserved[p].lease != lease :: reserved[p];
      }
    }

    // -------------------------------------------------------------- reserving inputs

    method DropExpired(now: int)
      requires Valid()
      modifies this`reserved
      ensures Valid() && reserved == Live(old(reserved), now)
    {
      reserved := map p | p in reserved && now <= reserved[p].expires :: reserved[p];
    }

    /** The outputs that may be handed out now: unspent, mature, unreserved and not filtered. */
    method Candidates(height: nat, filtered: set<Outpoint>) returns (c: seq<Output>)
      requires Valid()
      ensures Distinct(c) && AreUsable(c, outputs, height, reserved, filtered)
    {
      c := [];
      for i := 0 to |outputs|
        invariant Distinct(c)
        invariant forall o :: o in c <==> o in outputs[..i] && Usable(o, height, reserved, filtered)
      {
        assert outputs[..i + 1] == outputs[..i] + [outputs[i]];
        assert outputs[..i + 1][..i] == outputs[..i];
        if Usable(outputs[i], height, reserved, filtered) {
          DistinctAppend(outputs, i, c);
          assert (c + [outputs[i]])[..|c|] == c;
          c := c + [outputs[i]];
        }
      }
      assert outputs[..|outputs|] == outputs;
    }

    /** Reserves distinct usable outputs under a new lease. */
    method Lease(os: seq<Output>, now: int, expires: int, ghost height: nat, ghost s: State) returns (lease: nat)
      requires Valid() && s.outputs == outputs && s.nextLease == nextLease && Known(s) && reserved == Live(s.reserved, now)
      requires Grantable(s, now, height, Points(os))
      modifies this`reserved, this`nextLease
      ensures Valid() && lease == s.nextLease + 1 && Leases.Next(s, Reserve(now, height, expires, Points(os)), Abs())
    {
      nextLease := nextLease + 1;
      lease := nextLease;
      reserved := GrantAll(reserved, os, Reservation(lease, expires));
      StepKnown(s, Reserve(now, height, expires, Points(os)), Abs());
    }

    /** Selects and reserves inputs for a target amount. */
    method ReserveMatureInputs(height: nat, target: U64, ttl: int, now: int, filtered: set<Outpoint>)
      returns (r: Grant, ghost candidates: seq<Output>)
      requires Valid()
      modifies this`reserved, this`nextLease
      ensures Valid()
      ensures AreUsable(candidates, outputs, height, Live(old(reserved), now), filtered)
      ensures r.Granted? ==>
        && r.lease == old(nextLease) + 1
        && Leases.Next(old(Abs()), Reserve(now, height, now + Lifetime(ttl), Points(r.inputs)), Abs())
        && Decided(candidates, target, None, r.inputs)
      ensures r.Denied? ==>
        && Leases.Next(old(Abs()), Sweep(now), Abs())
        && r.reason.Selection? && Decided(candidates, target, Some(r.reason.error), [])
    {
      ghost var s := Abs();
      DropExpired(now);
      var c := Candidates(height, filtered);
      candidates := c;
      var error, inputs := SelectFrom(c, target);
      r := Settle(error, inputs, now, now + Lifetime(ttl), height, s, c, filtered);
    }

    /** Puts the chosen candidates under a new lease, if there is a choice. */
    method Settle(error: Option<CoinSelect.Error>, inputs: seq<Output>, now: int, expires: int, ghost height: nat, ghost s: State,
                  ghost c: seq<Output>, ghost filtered: set<Outpoint>)
      returns (r: Grant)
      requires Valid() && s.outputs == outputs && s.nextLease == nextLease && Known(s) && reserved == Live(s.reserved, now)
      requires AreUsable(c, outputs, height, reserved, filtered)
      requires error.None? ==> NoDup(Points(inputs)) && forall o :: o in inputs ==> o in c
      modifies this`reserved, this`nextLease
      ensures Valid()
      ensures r == if error.Some? then Denied(Selection(error.value)) else Granted(s.nextLease + 1, inputs)
      ensures error.None? ==> Leases.Next(s, Reserve(now, height, expires, Points(inputs)), Abs())
      ensures error.Some? ==> Leases.Next(s, Sweep(now), Abs())
    {
      if error.Some? { return Denied(Selection(error.value)); }
      UsableGrantable(s, now, height, filtered, inputs);
      var lease := Lease(inputs, now, expires, height, s);
      r := Granted(lease, inputs);
    }

    /** Reserves every usable output. */
    method ReserveAllMatureInputs(height: nat, ttl: int, now: int, filtered: set<Outpoint>) returns (r: Grant)
      requires Valid()
      modifies this`reserved, this`nextLease
      ensures Valid()
      ensures r.Granted? ==>
        && r.lease == old(nextLease) + 1
        && (forall o :: o in r.inputs <==> o in outputs && Usable(o, height, Live(old(reserved), now), filtered))
        && Leases.Next(old(Abs()), Reserve(now, height, now + Lifetime(ttl), Points(r.inputs)), Abs())
      ensures r.Denied? ==> Leases.Next(old(Abs()), Sweep(now), Abs())
      ensures r.Granted? <==> exists o :: o in outputs && Usable(o, height, Live(old(reserved), now), filtered)
    {
      ghost var s := Abs();
      DropExpired(now);
      var c := Candidates(height, filtered);
      if c == [] { return Denied(NothingSpendable); }
      assert c[0] in c;
      DistinctPoints(c);
      UsableGrantable(s, now, height, filtered, c);
      var lease := Lease(c, now, now + Lifetime(ttl), height, s);
      r := Granted(lease, c);
    }

    /** Reserves the outputs named, all or none. */
    method ReserveSpecificInputs(refs: seq<Outpoint>, height: nat, ttl: int, now: int, filtered: set<Outpoint>) returns (r: Grant)
      requires Valid()
      modifies this`reserved, this`nextLease
      ensures Valid()
      ensures r.Granted? ==>
        && r.lease == old(nextLease) + 1 && Points(r.inputs) == refs
        && Leases.Next(old(Abs()), Reserve(now, height, now + Lifetime(ttl), refs), Abs())
      ensures r.Denied? && refs != [] ==> Leases.Next(old(Abs()), Sweep(now), Abs())
      ensures refs == [] ==> r == Denied(NoInputsNamed) && Abs() == old(Abs())
      ensures r.Granted? <==> refs != [] && NoDup(refs) && forall p :: p in refs ==> NamesUsable(outputs, p, height, Live(old(reserved), now), filtered)
    {
      if refs == [] { return Denied(NoInputsNamed); }
      ghost var s := Abs();
      DropExpired(now);
      var dup := FirstDuplicate(refs);
      if dup.Some? { return Denied(Duplicate(dup.value)); }
      var inputs, bad := Resolve(outputs, refs, height, reserved, filtered);
      if bad.Some? { return Denied(Unusable(bad.value)); }
      assert Points(inputs) == refs;
      UsableGrantable(s, now, height, filtered, inputs);
      var lease := Lease(inputs, now, now + Lifetime(ttl), height, s);
      r := Granted(lease, inputs);
    }
  }

  /** How many outputs wait for a transaction that is gone. */
  ghost function Abandoned(os: seq<Output>, dead: set<Hash>): nat {
    if os == [] then 0
    else Abandoned(os[..|os| - 1], dead) + if os[|os| - 1].Unconfirmed() && os[|os| - 1].spentBy in dead then 1 else 0
  }

  // ---------------------------------------------------------------- facts about candidates

  ghost function AmountSum(os: seq<Output>): nat {
    if os == [] then 0 else AmountSum(os[..|os| - 1]) + os[|os| - 1].amount
  }

  predicate Usable(o: Output, height: nat, reserved: Reserved, filtered: set<Outpoint>) {
    !o.spent && IsMature(o, height) && o.point !in reserved && o.point !in filtered
  }

  /** The list holds exactly the outputs that may be handed out. */
  ghost predicate AreUsable(c: seq<Output>, os: seq<Output>, height: nat, reserved: Reserved, filtered: set<Outpoint>) {
    forall o :: o in c <==> o in os && Usable(o, height, reserved, filtered)
  }

  ghost predicate NamesUsable(os: seq<Output>, p: Outpoint, height: nat, reserved: Reserved, filtered: set<Outpoint>) {
    exists o :: o in os && o.point == p && Usable(o, height, reserved, filtered)
  }

  lemma DistinctAppend(os: seq<Output>, i: nat, c: seq<Output>)
    requires Distinct(os) && i < |os| && Distinct(c) && forall o :: o in c ==> o in os[..i]
    ensures Distinct(c + [os[i]])
  {
    var t := c + [os[i]];
    forall k: nat, m: nat | k < m < |t| ensures PointsDiffer(t, k, m) {
      if m < |c| {
        assert PointsDiffer(c, k, m);
      } else {
        assert c[k] in os[..i];
        var j :| 0 <= j < i && os[..i][j] == c[k];
        assert PointsDiffer(os, j, i);
      }
    }
  }

  lemma DistinctPoints(c: seq<Output>)
    requires Distinct(c)
    ensures NoDup(Points(c))
  {
    forall i, j | 0 <= i < j < |c| ensures Points(c)[i] != Points(c)[j] { assert PointsDiffer(c, i, j); }
    NoDupPairs(Points(c));
  }

  lemma UsableGrantable(s: State, now: int, height: nat, filtered: set<Outpoint>, os: seq<Output>)
    requires NoDup(Points(os))
    requires forall o :: o in os ==> o in s.outputs && Usable(o, height, Live(s.reserved, now), filtered)
    ensures Grantable(s, now, height, Points(os))
  {
    forall p | p in Points(os) ensures Available(s.outputs, Live(s.reserved, now), height, p) {
      var i :| 0 <= i < |os| && Points(os)[i] == p;
      assert os[i] in os;
      var k :| 0 <= k < |s.outputs| && s.outputs[k] == os[i];
    }
  }

  /** Candidates as coins, numbered by position. */
  function Coins(c: seq<Output>): (cs: seq<CoinSelect.Coin>)
    ensures |cs| == |c| && forall i :: 0 <= i < |c| ==> cs[i] == CoinSelect.Coin(i, c[i].amount, false)
  {
    seq(|c|, i requires 0 <= i < |c| => CoinSelect.Coin(i, c[i].amount, false))
  }

  lemma {:induction false} CoinsSum(c: seq<Output>)
    ensures CoinSelect.Sum(Coins(c)) == AmountSum(c)
  {
    if c != [] {
      CoinsSum(c[..|c| - 1]);
      assert Coins(c)[..|c| - 1] == Coins(c[..|c| - 1]);
    }
  }

  lemma CoinsFacts(c: seq<Output>)
    ensures NoDup(Coins(c)) && CoinSelect.Value(CoinSelect.Unspent(Coins(c))) == AmountSum(c)
    ensures CoinSelect.Unspent(Coins(c)) == Elements(Coins(c))
  {
    CoinsSum(c);
    NoDupPairs(Coins(c));
    CoinSelect.SumIsValue(Coins(c));
    assert CoinSelect.Unspent(Coins(c)) == Elements(Coins(c));
  }

  function Picked(c: seq<Output>, coin: CoinSelect.Coin): Output
    requires c != []
  {
    if coin.id < |c| then c[coin.id] else c[0]
  }

  lemma {:induction false} PickedSum(c: seq<Output>, coins: seq<CoinSelect.Coin>, inputs: seq<Output>)
    requires |inputs| == |coins| && forall k :: 0 <= k < |coins| ==> coins[k].id < |c| && coins[k].amount == c[coins[k].id].amount
    requires forall k :: 0 <= k < |coins| ==> inputs[k] == c[coins[k].id]
    ensures AmountSum(inputs) == CoinSelect.Sum(coins)
  {
    if coins != [] { PickedSum(c, coins[..|coins| - 1], inputs[..|coins| - 1]); }
  }

  /** The outputs behind a selection are distinct candidates worth as much as the coins. */
  lemma PickedFacts(c: seq<Output>, coins: seq<CoinSelect.Coin>, inputs: seq<Output>)
    requires c != [] && Distinct(c) && NoDup(coins) && forall x :: x in coins ==> x in Coins(c)
    requires |inputs| == |coins| && forall k :: 0 <= k < |coins| ==> inputs[k] == Picked(c, coins[k])
    ensures NoDup(Points(inputs)) && AmountSum(inputs) == CoinSelect.Sum(coins)
    ensures forall o :: o in inputs ==> o in c
  {
    forall k | 0 <= k < |coins| ensures coins[k].id < |c| && coins[k] == CoinSelect.Coin(coins[k].id, c[coins[k].id].amount, false) {
      assert coins[k] in Coins(c);
    }
    PickedSum(c, coins, inputs);
    NoDupPairs(coins);
    NoDupPairs(Points(inputs));
  }

  /** Coin selection succeeds on these candidates. */
  ghost predicate Chooses(c: seq<Output>, target: U64) {
    c != [] && WrapU64(AmountSum(c)) >= target && CoinSelect.Choosable(Elements(Coins(c)), target)
  }

  /** The inputs are the candidates behind the coins. */
  ghost predicate Behind(coins: seq<CoinSelect.Coin>, c: seq<Output>, inputs: seq<Output>) {
    |coins| == |inputs| && forall k :: 0 <= k < |coins| ==> coins[k] in Coins(c) && coins[k].id < |c| && inputs[k] == c[coins[k].id]
  }

  /** The inputs are those that coin selection prefers among the candidates. */
  ghost predicate Selects(c: seq<Output>, inputs: seq<Output>, target: U64) {
    exists coins {:trigger Behind(coins, c, inputs)} :: Behind(coins, c, inputs) && CoinSelect.Preferred(coins, Elements(Coins(c)), target)
  }

  /** Why coin selection fails, where it does. */
  ghost function Shortfall(c: seq<Output>, target: U64): CoinSelect.Error {
    if c == [] then CoinSelect.NoSpendableOutputs
    else if WrapU64(AmountSum(c)) < target then CoinSelect.InsufficientFunds
    else CoinSelect.InputLimitExceeded
  }

  /** Coin selection on the candidates, as coins. */
  method SelectCoins(c: seq<Output>, target: U64) returns (selection: CoinSelect.Selection)
    ensures selection.Selected? ==>
      && NoDup(selection.coins) && (forall x :: x in selection.coins ==> x in Coins(c)) && CoinSelect.Sum(selection.coins) >= target
      && 0 < |selection.coins| <= CoinSelect.MAX_INPUTS && CoinSelect.Preferred(selection.coins, Elements(Coins(c)), target)
    ensures selection.Selected? <==> Chooses(c, target)
    ensures selection.Failed? ==> selection.error == Shortfall(c, target)
    ensures target > 0 && AmountSum(c) < U64_LIMIT && CoinSelect.Payable(Coins(c), target) ==> selection.Selected?
  {
    CoinsFacts(c);
    selection := CoinSelect.SelectInputs(Coins(c), target);
    if selection.Selected? {
      forall x | x in selection.coins ensures x in Coins(c) { assert x in Elements(selection.coins); }
    }
  }

  /** The outputs behind the coins chosen. */
  method OutputsOf(c: seq<Output>, coins: seq<CoinSelect.Coin>) returns (inputs: seq<Output>)
    requires Distinct(c) && NoDup(coins) && coins != [] && forall x :: x in coins ==> x in Coins(c)
    ensures Behind(coins, c, inputs) && NoDup(Points(inputs)) && AmountSum(inputs) == CoinSelect.Sum(coins)
    ensures forall o :: o in inputs ==> o in c
  {
    assert coins[0] in Coins(c);
    inputs := seq(|coins|, k requires 0 <= k < |coins| => Picked(c, coins[k]));
    PickedFacts(c, coins, inputs);
    forall k | 0 <= k < |coins| ensures coins[k] in Coins(c) { assert coins[k] in coins; }
  }

  /** The outcome of coin selection on the candidates. It succeeds exactly when one of the strategies
      does, with one to 256 distinct candidates that reach the target and are preferred to others;
      every failure has its reason; and a positive target that some set under the cap can pay is
      paid, provided that no sum wraps. */
  ghost predicate Decided(c: seq<Output>, target: U64, error: Option<CoinSelect.Error>, inputs: seq<Output>) {
    && (error.None? <==> Chooses(c, target))
    && (error.None? ==>
         && NoDup(Points(inputs)) && AmountSum(inputs) >= target && 0 < |inputs| <= CoinSelect.MAX_INPUTS
         && (forall o :: o in inputs ==> o in c) && Selects(c, inputs, target))
    && (error.Some? ==> error.value == Shortfall(c, target) && inputs == [])
    && (target > 0 && AmountSum(c) < U64_LIMIT && CoinSelect.Payable(Coins(c), target) ==> error.None?)
  }

  /** Coin selection on the candidates. */
  method SelectFrom(c: seq<Output>, target: U64) returns (error: Option<CoinSelect.Error>, inputs: seq<Output>)
    requires Distinct(c)
    ensures Decided(c, target, error, inputs)
  {
    var selection := SelectCoins(c, target);
    if selection.Failed? { return Some(selection.error), []; }
    inputs := OutputsOf(c, selection.coins);
    error := None;
  }

  method GrantAll(reserved: Reserved, os: seq<Output>, r: Reservation) returns (reserved': Reserved)
    ensures reserved' == Leases.Granted(reserved, Points(os), r)
  {
    reserved' := reserved;
    ghost var ps := Points(os);
    for i := 0 to |os|
      invariant reserved' == Leases.Granted(reserved, ps[..i], r)
    {
      assert ps[..i + 1][..i] == ps[..i];
      reserved' := reserved'[os[i].point := r];
    }
    assert ps[..|os|] == ps;
  }

  method FirstDuplicate(refs: seq<Outpoint>) returns (dup: Option<nat>)
    ensures dup.None? <==> NoDup(refs)
  {
    NoDupPairs(refs);
    var seen: set<Outpoint> := {};
    for i := 0 to |refs|
      invariant forall p :: p in seen <==> exists k :: 0 <= k < i && refs[k] == p
      invariant forall j, k :: 0 <= j < k < i ==> refs[j] != refs[k]
    {
      if refs[i] in seen { return Some(i); }
      seen := seen + {refs[i]};
    }
    return None;
  }

  /** Looks the named outputs up; `bad` is the first that cannot be used. */
  method Resolve(os: seq<Output>, refs: seq<Outpoint>, height: nat, reserved: Reserved, filtered: set<Outpoint>)
    returns (inputs: seq<Output>, bad: Option<nat>)
    requires Distinct(os)
    ensures bad.None? ==>
      && |inputs| == |refs| && (forall i :: 0 <= i < |refs| ==> inputs[i].point == refs[i])
      && forall o :: o in inputs ==> o in os && Usable(o, height, reserved, filtered)
    ensures bad.None? <==> forall p :: p in refs ==> NamesUsable(os, p, height, reserved, filtered)
  {
    var byPoint := ByPoint(os);
    inputs := [];
    for i := 0 to |refs|
      invariant |inputs| == i && forall k :: 0 <= k < i ==> inputs[k].point == refs[k]
      invariant forall o :: o in inputs ==> o in os && Usable(o, height, reserved, filtered)
    {
      assert refs[i] in refs;
      if refs[i] !in byPoint || !Usable(byPoint[refs[i]], height, reserved, filtered) { return inputs, Some(i); }
      inputs := inputs + [byPoint[refs[i]]];
    }
    forall p | p in refs ensures NamesUsable(os, p, height, reserved, filtered) {
      var i :| 0 <= i < |refs| && refs[i] == p;
      assert inputs[i] in inputs;
    }
    return inputs, None;
  }

  method ByPoint(os: seq<Output>) returns (m: map<Outpoint, Output>)
    requires Distinct(os)
    ensures forall p :: p in m <==> HasPoint(os, p)
    ensures forall o :: o in os ==> o.point in m && m[o.point] == o
    ensures forall p :: p in m ==> m[p] in os && m[p].point == p
  {
    m := map[];
    for i := 0 to |os|
      invariant forall p :: p in m <==> exists k :: 0 <= k < i && os[k].point == p
      invariant forall k :: 0 <= k < i ==> os[k].point in m && m[os[k].point] == os[k]
      invariant forall p :: p in m ==> m[p] in os && m[p].point == p
    {
      forall k | 0 <= k < i ensures os[k].point != os[i].point { assert PointsDiffer(os, k, i); }
      m := m[os[i].point := os[i]];
    }
  }
}
