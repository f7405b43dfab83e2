/** What scanning blocks does to the wallet (wallet/scanner.go): which outputs it finds, and which it
    marks as spent, and when. */
module Discovery {
  import opened Blocks
  import opened WalletModel
  import opened Scanner

  // ---------------------------------------------------------------- outputs are kept

  /** What a spend does not change. */
  ghost predicate SameOrigin(o: Output, p: Output) {
    o.point == p.point && o.amount == p.amount && o.key == p.key && o.height == p.height && o.coinbase == p.coinbase
  }

  /** Every output is still there, in its place. */
  ghost predicate Extends(os: seq<Output>, t: seq<Output>) {
    |os| <= |t| && forall i {:trigger t[i]} :: 0 <= i < |os| ==> SameOrigin(os[i], t[i])
  }

  lemma {:induction false} AddAllExtends(os: seq<Output>, found: seq<Found>, coinbase: bool, height: nat)
    ensures Extends(os, AddAll(os, found, coinbase, height))
  {
    if found != [] { AddAllExtends(os, found[..|found| - 1], coinbase, height); }
  }

  lemma {:induction false} ConfirmAllExtends(image: Imager, os: seq<Output>, xs: seq<KeyImage>, height: nat)
    ensures Extends(os, ConfirmAll(image, os, xs, height)) && |ConfirmAll(image, os, xs, height)| == |os|
  {
    if xs != [] { ConfirmAllExtends(image, os, xs[..|xs| - 1], height); }
  }

  lemma TxExtends(image: Imager, os: seq<Output>, tx: ScanTx, height: nat)
    ensures Extends(os, TxScanned(image, os, tx, height))
  {
    AddAllExtends(os, tx.owned, tx.coinbase, height);
    ConfirmAllExtends(image, AddAll(os, tx.owned, tx.coinbase, height), tx.images, height);
  }

  lemma {:induction false} TxsExtends(image: Imager, os: seq<Output>, txs: seq<ScanTx>, height: nat)
    ensures Extends(os, TxsScanned(image, os, txs, height))
  {
    if txs != [] {
      TxsExtends(image, os, txs[..|txs| - 1], height);
      TxExtends(image, TxsScanned(image, os, txs[..|txs| - 1], height), txs[|txs| - 1], height);
    }
  }

  lemma {:induction false} BlocksExtend(image: Imager, os: seq<Output>, blocks: seq<ScanBlock>)
    ensures Extends(os, BlocksScanned(image, os, blocks))
  {
    if blocks != [] {
      var front, b := blocks[..|blocks| - 1], blocks[|blocks| - 1];
      BlocksExtend(image, os, front);
      TxsExtends(image, BlocksScanned(image, os, front), b.txs, b.height);
    }
  }

  // ---------------------------------------------------------------- what is found

  lemma PointKept(os: seq<Output>, t: seq<Output>, p: Outpoint)
    requires Extends(os, t) && HasPoint(os, p)
    ensures HasPoint(t, p)
  {
    var i :| 0 <= i < |os| && os[i].point == p;
    assert SameOrigin(os[i], t[i]);
  }

  lemma {:induction false} AddAllFinds(os: seq<Output>, found: seq<Found>, coinbase: bool, height: nat, j: nat)
    requires j < |found|
    ensures HasPoint(AddAll(os, found, coinbase, height), found[j].point)
  {
    var init := AddAll(os, found[..|found| - 1], coinbase, height);
    var o := NewOutput(found[|found| - 1], coinbase, height);
    if j < |found| - 1 {
      AddAllFinds(os, found[..|found| - 1], coinbase, height, j);
      PointKept(init, Added(init, o), found[j].point);
    } else if !HasPoint(init, o.point) {
      assert (init + [o])[|init|].point == o.point;
    }
  }

  lemma TxFinds(image: Imager, os: seq<Output>, tx: ScanTx, height: nat, j: nat)
    requires j < |tx.owned|
    ensures HasPoint(TxScanned(image, os, tx, height), tx.owned[j].point)
  {
    var added := AddAll(os, tx.owned, tx.coinbase, height);
    AddAllFinds(os, tx.owned, tx.coinbase, height, j);
    ConfirmAllExtends(image, added, tx.images, height);
    PointKept(added, TxScanned(image, os, tx, height), tx.owned[j].point);
  }

  lemma {:induction false} TxsFind(image: Imager, os: seq<Output>, txs: seq<ScanTx>, height: nat, i: nat, j: nat)
    requires i < |txs| && j < |txs[i].owned|
    ensures HasPoint(TxsScanned(image, os, txs, height), txs[i].owned[j].point)
  {
    var front, tx := txs[..|txs| - 1], txs[|txs| - 1];
    var init := TxsScanned(image, os, front, height);
    if i < |front| {
      TxsFind(image, os, front, height, i, j);
      TxExtends(image, init, tx, height);
      PointKept(init, TxScanned(image, init, tx, height), txs[i].owned[j].point);
    } else {
      TxFinds(image, init, tx, height, j);
    }
  }

  /** Every owned output of every block scanned is in the wallet afterwards. */
  lemma {:induction false} ScanFindsAll(image: Imager, os: seq<Output>, blocks: seq<ScanBlock>, k: nat, i: nat, j: nat)
    requires k < |blocks| && i < |blocks[k].txs| && j < |blocks[k].txs[i].owned|
    ensures HasPoint(BlocksScanned(image, os, blocks), blocks[k].txs[i].owned[j].point)
  {
    var front, b := blocks[..|blocks| - 1], blocks[|blocks| - 1];
    var init := BlocksScanned(image, os, front);
    if k < |front| {
      ScanFindsAll(image, os, front, k, i, j);
      TxsExtends(image, init, b.txs, b.height);
      PointKept(init, TxsScanned(image, init, b.txs, b.height), blocks[k].txs[i].owned[j].point);
    } else {
      TxsFind(image, init, b.txs, b.height, i, j);
    }
  }

  /** The output was found in the transaction: it has what the transaction says of it, and the
      height of the block. */
  ghost predicate FoundInTx(o: Output, tx: ScanTx, height: nat) {
    exists j :: 0 <= j < |tx.owned| && SameOrigin(o, NewOutput(tx.owned[j], tx.coinbase, height))
  }

  ghost predicate FoundInTxs(o: Output, txs: seq<ScanTx>, height: nat) {
    exists i :: 0 <= i < |txs| && FoundInTx(o, txs[i], height)
  }

  ghost predicate FoundInBlocks(o: Output, blocks: seq<ScanBlock>) {
    exists k :: 0 <= k < |blocks| && FoundInTxs(o, blocks[k].txs, blocks[k].height)
  }

  lemma {:induction false} AddAllOnly(os: seq<Output>, found: seq<Found>, coinbase: bool, height: nat, m: nat)
    requires |os| <= m < |AddAll(os, found, coinbase, height)|
    ensures exists j :: 0 <= j < |found| && AddAll(os, found, coinbase, height)[m] == NewOutput(found[j], coinbase, height)
  {
    var init := AddAll(os, found[..|found| - 1], coinbase, height);
    if m < |init| {
      AddAllOnly(os, found[..|found| - 1], coinbase, height, m);
      var j :| 0 <= j < |found| - 1 && init[m] == NewOutput(found[..|found| - 1][j], coinbase, height);
      assert init[m] == NewOutput(found[j], coinbase, height);
    } else {
      assert AddAll(os, found, coinbase, height)[m] == NewOutput(found[|found| - 1], coinbase, height);
    }
  }

  lemma TxOnly(image: Imager, os: seq<Output>, tx: ScanTx, height: nat, m: nat)
    requires |os| <= m < |TxScanned(image, os, tx, height)|
    ensures FoundInTx(TxScanned(image, os, tx, height)[m], tx, height)
  {
    var added := AddAll(os, tx.owned, tx.coinbase, height);
    ConfirmAllExtends(image, added, tx.images, height);
    AddAllOnly(os, tx.owned, tx.coinbase, height, m);
    assert SameOrigin(added[m], TxScanned(image, os, tx, height)[m]);
  }

  lemma FoundSameOrigin(o: Output, p: Output, tx: ScanTx, height: nat)
    requires SameOrigin(o, p) && FoundInTx(o, tx, height)
    ensures FoundInTx(p, tx, height)
  {
    var j :| 0 <= j < |tx.owned| && SameOrigin(o, NewOutput(tx.owned[j], tx.coinbase, height));
    assert SameOrigin(p, NewOutput(tx.owned[j], tx.coinbase, height));
  }

  lemma {:induction false} TxsOnly(image: Imager, os: seq<Output>, txs: seq<ScanTx>, height: nat, m: nat)
    requires |os| <= m < |TxsScanned(image, os, txs, height)|
    ensures FoundInTxs(TxsScanned(image, os, txs, height)[m], txs, height)
  {
    var front, tx := txs[..|txs| - 1], txs[|txs| - 1];
    var init, t := TxsScanned(image, os, front, height), TxsScanned(image, os, txs, height);
    TxExtends(image, init, tx, height);
    if m < |init| {
      TxsOnly(image, os, front, height, m);
      var i :| 0 <= i < |front| && FoundInTx(init[m], front[i], height);
      assert SameOrigin(init[m], t[m]);
      FoundSameOrigin(init[m], t[m], txs[i], height);
    } else {
      TxOnly(image, init, tx, height, m);
      assert FoundInTx(t[m], txs[|txs| - 1], height);
    }
  }

  lemma FoundSameOriginTxs(o: Output, p: Output, txs: seq<ScanTx>, height: nat)
    requires SameOrigin(o, p) && FoundInTxs(o, txs, height)
    ensures FoundInTxs(p, txs, height)
  {
    var i :| 0 <= i < |txs| && FoundInTx(o, txs[i], height);
    FoundSameOrigin(o, p, txs[i], height);
  }

  /** Everything new in the wallet was found in one of the blocks, as it stands there. */
  lemma {:induction false} ScanFindsOnly(image: Imager, os: seq<Output>, blocks: seq<ScanBlock>, m: nat)
    requires |os| <= m < |BlocksScanned(image, os, blocks)|
    ensures FoundInBlocks(BlocksScanned(image, os, blocks)[m], blocks)
  {
    var front, b := blocks[..|blocks| - 1], blocks[|blocks| - 1];
    var init, t := BlocksScanned(image, os, front), BlocksScanned(image, os, blocks);
    TxsExtends(image, init, b.txs, b.height);
    if m < |init| {
      ScanFindsOnly(image, os, front, m);
      var k :| 0 <= k < |front| && FoundInTxs(init[m], front[k].txs, front[k].height);
      assert SameOrigin(init[m], t[m]);
      FoundSameOriginTxs(init[m], t[m], blocks[k].txs, blocks[k].height);
    } else {
      TxsOnly(image, init, b.txs, b.height, m);
      assert FoundInTxs(t[m], blocks[|blocks| - 1].txs, b.height);
    }
  }

  // ---------------------------------------------------------------- what is spent

  /** What an output becomes once its image has been seen: spent at the height where that was first,
      unless an earlier block had spent it. */
  ghost function SpentAt(o: Output, seen: Option<nat>): Output {
    if seen.Some? && (!o.spent || o.spentBy != 0) then o.(spent := true, spentHeight := seen.value, spentBy := 0) else o
  }

  lemma FirstStays(os: seq<Output>, t: seq<Output>, i: nat)
    requires Extends(os, t) && i < |os| && IsFirst(os, i)
    ensures IsFirst(t, i) && t[i].key == os[i].key
  {
    forall j | 0 <= j < |os| ensures t[j].key == os[j].key { assert SameOrigin(os[j], t[j]); }
    FirstSame(os, t, i);
  }

  lemma {:induction false} AddAllLeaves(os: seq<Output>, found: seq<Found>, coinbase: bool, height: nat, i: nat)
    requires i < |os|
    ensures i < |AddAll(os, found, coinbase, height)| && AddAll(os, found, coinbase, height)[i] == os[i]
  {
    if found != [] { AddAllLeaves(os, found[..|found| - 1], coinbase, height, i); }
  }

  lemma {:induction false} ImagesSpend(image: Imager, os: seq<Output>, xs: seq<KeyImage>, height: nat, i: nat, x: KeyImage)
    requires i < |os| && IsFirst(os, i) && os[i].Tidy() && image(os[i].key) == Some(x)
    ensures |ConfirmAll(image, os, xs, height)| == |os|
    ensures ConfirmAll(image, os, xs, height)[i] == if x in xs then Confirmed(os[i], height) else os[i]
  {
    ConfirmAllExtends(image, os, xs, height);
    if xs != [] {
      var front := xs[..|xs| - 1];
      ImagesSpend(image, os, front, height, i, x);
      ConfirmAllExtends(image, os, front, height);
      FirstStays(os, ConfirmAll(image, os, front, height), i);
      assert xs == front + [xs[|xs| - 1]];
    }
  }

  lemma {:induction false} ImagelessStays(image: Imager, os: seq<Output>, xs: seq<KeyImage>, height: nat, i: nat)
    requires i < |os| && image(os[i].key).None?
    ensures |ConfirmAll(image, os, xs, height)| == |os| && ConfirmAll(image, os, xs, height)[i] == os[i]
  {
    if xs != [] { ImagelessStays(image, os, xs[..|xs| - 1], height, i); }
  }

  /** The height of the first of the blocks that carries the image. */
  ghost function FirstSeen(blocks: seq<ScanBlock>, x: Option<KeyImage>): (h: Option<nat>)
    ensures h.Some? <==> x.Some? && x.value in BlocksImages(blocks)
  {
    if blocks == [] || x.None? then None
    else
      var b := blocks[|blocks| - 1];
      var before := FirstSeen(blocks[..|blocks| - 1], x);
      if before.Some? then before else if x.value in TxsImages(b.txs) then Some(b.height) else None
  }

  lemma {:induction false} TxsSpend(image: Imager, os: seq<Output>, txs: seq<ScanTx>, height: nat, i: nat)
    requires i < |os| && IsFirst(os, i) && os[i].Tidy()
    ensures i < |TxsScanned(image, os, txs, height)|
    ensures TxsScanned(image, os, txs, height)[i] ==
      if image(os[i].key).Some? && image(os[i].key).value in TxsImages(txs) then Confirmed(os[i], height) else os[i]
  {
    if txs != [] {
      var front, tx := txs[..|txs| - 1], txs[|txs| - 1];
      var init := TxsScanned(image, os, front, height);
      TxsSpend(image, os, front, height, i);
      TxsExtends(image, os, front, height);
      TxSpends(image, os, init, tx, height, i);
    }
  }

  lemma TxSpends(image: Imager, os: seq<Output>, init: seq<Output>, tx: ScanTx, height: nat, i: nat)
    requires i < |os| && IsFirst(os, i) && os[i].Tidy() && Extends(os, init)
    requires init[i].Tidy() && init[i].key == os[i].key
    ensures i < |TxScanned(image, init, tx, height)|
    ensures TxScanned(image, init, tx, height)[i] ==
      if image(os[i].key).Some? && image(os[i].key).value in ImageSet(tx.images) then Confirmed(init[i], height) else init[i]
  {
    var added := AddAll(init, tx.owned, tx.coinbase, height);
    FirstStays(os, init, i);
    AddAllLeaves(init, tx.owned, tx.coinbase, height, i);
    AddAllExtends(init, tx.owned, tx.coinbase, height);
    FirstStays(init, added, i);
    if image(os[i].key).Some? {
      ImagesSpend(image, added, tx.images, height, i, image(os[i].key).value);
    } else {
      ImagelessStays(image, added, tx.images, height, i);
    }
  }

  /** The first output with its key is spent by a scan exactly when one of the blocks carries its
      image, and then at the height of the first that does; otherwise it is left as it was. */
  lemma {:induction false} ScanSpends(image: Imager, os: seq<Output>, blocks: seq<ScanBlock>, i: nat)
    requires i < |os| && IsFirst(os, i) && os[i].Tidy()
    ensures i < |BlocksScanned(image, os, blocks)|
    ensures BlocksScanned(image, os, blocks)[i] == SpentAt(os[i], FirstSeen(blocks, image(os[i].key)))
  {
    if blocks != [] {
      var front, b := blocks[..|blocks| - 1], blocks[|blocks| - 1];
      var init := BlocksScanned(image, os, front);
      ScanSpends(image, os, front, i);
      BlocksExtend(image, os, front);
      FirstStays(os, init, i);
      TxsSpend(image, init, b.txs, b.height, i);
    }
  }
}
