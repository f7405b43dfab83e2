/** The block scanner (wallet/scanner.go), with ownership of an output already decided: it adds
    the owned outputs of a block and confirms the spends of the key images it carries. */
module Scanner {
  import opened Words
  import opened Blocks
  import opened WalletModel
  import opened Wallet

  /** The key image of a one-time key, or None if it cannot be computed. */
  type Imager = nat -> Option<KeyImage>

  /** An output of a transaction that is ours. */
  datatype Found = Found(point: Outpoint, amount: U64, key: nat)

  datatype ScanTx = ScanTx(coinbase: bool, owned: seq<Found>, images: seq<KeyImage>)

  datatype ScanBlock = ScanBlock(height: nat, txs: seq<ScanTx>)

  function NewOutput(f: Found, coinbase: bool, height: nat): Output {
    Output(f.point, f.amount, f.key, height, coinbase, false, 0, 0)
  }

  // ---------------------------------------------------------------- what a scan does

  predicate IsConfirmed(o: Output) { o.spent && o.spentBy == 0 }

  ghost predicate HasImage(image: Imager, o: Output, x: KeyImage) { image(o.key) == Some(x) }

  /** No earlier output has the same one-time key. */
  ghost predicate IsFirst(os: seq<Output>, i: nat)
    requires i < |os|
  {
    FindKey(os, os[i].key, 0) == i
  }

  /** What the scanner makes of a key image: the first output with each key is confirmed. */
  ghost function ConfirmFirsts(image: Imager, os: seq<Output>, x: KeyImage, height: nat): (r: seq<Output>)
    ensures |r| == |os|
    ensures forall i :: 0 <= i < |os| ==> r[i] == if HasImage(image, os[i], x) && IsFirst(os, i) then Confirmed(os[i], height) else os[i]
  {
    seq(|os|, i requires 0 <= i < |os| => if HasImage(image, os[i], x) && IsFirst(os, i) then Confirmed(os[i], height) else os[i])
  }

  ghost function ConfirmAll(image: Imager, os: seq<Output>, xs: seq<KeyImage>, height: nat): seq<Output> {
    if xs == [] then os else ConfirmFirsts(image, ConfirmAll(image, os, xs[..|xs| - 1], height), xs[|xs| - 1], height)
  }

  ghost function AddAll(os: seq<Output>, new_: seq<Found>, coinbase: bool, height: nat): seq<Output> {
    if new_ == [] then os
    else Added(AddAll(os, new_[..|new_| - 1], coinbase, height), NewOutput(new_[|new_| - 1], coinbase, height))
  }

  ghost function TxScanned(image: Imager, os: seq<Output>, tx: ScanTx, height: nat): seq<Output> {
    ConfirmAll(image, AddAll(os, tx.owned, tx.coinbase, height), tx.images, height)
  }

  /** Transaction by transaction: first its outputs, then its key images. */
  ghost function TxsScanned(image: Imager, os: seq<Output>, txs: seq<ScanTx>, height: nat): seq<Output> {
    if txs == [] then os
    else TxScanned(image, TxsScanned(image, os, txs[..|txs| - 1], height), txs[|txs| - 1], height)
  }

  ghost function BlocksScanned(image: Imager, os: seq<Output>, blocks: seq<ScanBlock>): seq<Output> {
    if blocks == [] then os
    else
      var b := blocks[|blocks| - 1];
      TxsScanned(image, BlocksScanned(image, os, blocks[..|blocks| - 1]), b.txs, b.height)
  }

  // ---------------------------------------------------------------- outputs that share a key

  /** What a key image should do: confirm every output that has it. */
  ghost function ConfirmImage(image: Imager, os: seq<Output>, x: KeyImage, height: nat): (r: seq<Output>)
    ensures |r| == |os|
    ensures forall i :: 0 <= i < |os| ==> r[i] == if HasImage(image, os[i], x) then Confirmed(os[i], height) else os[i]
  {
    seq(|os|, i requires 0 <= i < |os| => if HasImage(image, os[i], x) then Confirmed(os[i], height) else os[i])
  }

  /** The scanner confirms all outputs with the image exactly when every one of them that is
      not confirmed yet is the first with its key. */
  lemma FirstsSuffice(image: Imager, os: seq<Output>, x: KeyImage, height: nat)
    ensures ConfirmFirsts(image, os, x, height) == ConfirmImage(image, os, x, height) <==>
      forall i :: 0 <= i < |os| && HasImage(image, os[i], x) && !IsConfirmed(os[i]) ==> IsFirst(os, i)
  {
    var a, b := ConfirmFirsts(image, os, x, height), ConfirmImage(image, os, x, height);
    forall i | 0 <= i < |os|
      ensures a[i] == b[i] <==> !HasImage(image, os[i], x) || IsConfirmed(os[i]) || IsFirst(os, i) { }
    if a == b {
      forall i | 0 <= i < |os| && HasImage(image, os[i], x) && !IsConfirmed(os[i]) ensures IsFirst(os, i) { assert a[i] == b[i]; }
    }
  }

  /** Two outputs with one key, as two parts of the change of one payment may have: the second
      stays unspent although its image is on the chain. */
  lemma SharedKeyStaysUnspent(image: Imager, a: Output, b: Output, x: KeyImage, height: nat)
    requires a.key == b.key && HasImage(image, a, x) && !b.spent
    ensures ConfirmFirsts(image, [a, b], x, height) == [Confirmed(a, height), b]
    ensures ConfirmImage(image, [a, b], x, height)[1].spent
  {
    assert FindKey([a, b], a.key, 0) == 0;
  }

  // ---------------------------------------------------------------- the index

  type Index = map<KeyImage, seq<nat>>

  ghost predicate Listed(index: Index, x: KeyImage, key: nat) {
    x in index && key in index[x]
  }

  ghost predicate IndexedAt(image: Imager, os: seq<Output>, index: Index, i: nat)
    requires i < |os|
  {
    !IsConfirmed(os[i]) && IsFirst(os, i) && image(os[i].key).Some? ==> Listed(index, image(os[i].key).value, os[i].key)
  }

  /** Keys are listed under their image, and every first output that may still be confirmed is
      listed. */
  ghost predicate IndexOk(image: Imager, os: seq<Output>, index: Index) {
    && (forall x: KeyImage, key: nat :: Listed(index, x, key) ==> image(key) == Some(x))
    && (forall i: nat {:trigger IndexedAt(image, os, index, i)} :: i < |os| ==> IndexedAt(image, os, index, i))
  }

  function Entry(index: Index, x: KeyImage): seq<nat> {
    if x in index then index[x] else []
  }

  function WithKey(image: Imager, index: Index, key: nat): (r: Index)
    ensures forall x: KeyImage, k: nat :: Listed(r, x, k) <==> Listed(index, x, k) || (k == key && image(key) == Some(x))
  {
    var x := image(key);
    if x.None? then index else index[x.value := Entry(index, x.value) + [key]]
  }

  method BuildIndex(image: Imager, os: seq<Output>) returns (index: Index)
    ensures IndexOk(image, os, index)
  {
    index := map[];
    for i := 0 to |os|
      invariant forall x: KeyImage, key: nat :: Listed(index, x, key) ==> image(key) == Some(x)
      invariant forall k :: 0 <= k < i && !IsConfirmed(os[k]) && image(os[k].key).Some? ==> Listed(index, image(os[k].key).value, os[k].key)
    {
      if !IsConfirmed(os[i]) { index := WithKey(image, index, os[i].key); }
    }
    forall i: nat | i < |os| ensures IndexedAt(image, os, index, i) { }
  }

  lemma {:induction false} FindKeySame(s: seq<Output>, t: seq<Output>, key: nat, i: nat)
    requires |s| <= |t| && i <= |s| && forall j :: 0 <= j < |s| ==> t[j].key == s[j].key
    ensures FindKey(s, key, i) < |s| ==> FindKey(t, key, i) == FindKey(s, key, i)
    ensures FindKey(s, key, i) == |s| ==> FindKey(t, key, i) >= |s|
    decreases |s| - i
  {
    if i < |s| && s[i].key != key { FindKeySame(s, t, key, i + 1); }
  }

  lemma FirstSame(s: seq<Output>, t: seq<Output>, i: nat)
    requires i < |s| <= |t| && forall j :: 0 <= j < |s| ==> t[j].key == s[j].key
    ensures IsFirst(t, i) <==> IsFirst(s, i)
  {
    FindKeySame(s, t, s[i].key, 0);
  }

  lemma IndexAdd(image: Imager, os: seq<Output>, index: Index, o: Output)
    requires IndexOk(image, os, index)
    ensures IndexOk(image, Added(os, o), WithKey(image, index, o.key))
  {
    var t, next := Added(os, o), WithKey(image, index, o.key);
    forall i: nat | i < |t| ensures IndexedAt(image, t, next, i) {
      if i < |os| {
        FirstSame(os, t, i);
        assert IndexedAt(image, os, index, i);
      }
    }
  }

  /** Once the first outputs with image x are confirmed, its entry can go. */
  lemma IndexDrop(image: Imager, os: seq<Output>, index: Index, x: KeyImage, height: nat)
    requires AllTidy(os) && IndexOk(image, os, index)
    ensures IndexOk(image, ConfirmFirsts(image, os, x, height), index - {x})
  {
    var t := ConfirmFirsts(image, os, x, height);
    forall i: nat | i < |t| ensures IndexedAt(image, t, index - {x}, i) {
      FirstSame(os, t, i);
      assert IndexedAt(image, os, index, i);
    }
  }

  // ---------------------------------------------------------------- confirming one image

  /** The outputs after these keys have been marked. */
  ghost predicate PartlyMarked(os: seq<Output>, t: seq<Output>, keys: seq<nat>, height: nat) {
    |t| == |os| && forall i :: 0 <= i < |os| ==>
      t[i] == if os[i].key in keys && IsFirst(os, i) then Confirmed(os[i], height) else os[i]
  }

  lemma MarkStep(os: seq<Output>, t: seq<Output>, keys: seq<nat>, key: nat, height: nat)
    requires AllTidy(os) && PartlyMarked(os, t, keys, height)
    ensures PartlyMarked(os, Marked(t, key, height), keys + [key], height) && AllTidy(t)
  {
    FindKeySame(os, t, key, 0);
    FindKeySame(t, os, key, 0);
    var k, m := FindKey(os, key, 0), Marked(t, key, height);
    assert FindKey(t, key, 0) == k;
    forall i | 0 <= i < |os| ensures m[i] == if os[i].key in keys + [key] && IsFirst(os, i) then Confirmed(os[i], height) else os[i] { }
  }

  lemma AllMarked(image: Imager, os: seq<Output>, t: seq<Output>, x: KeyImage, index: Index, height: nat)
    requires IndexOk(image, os, index) && PartlyMarked(os, t, Entry(index, x), height)
    ensures t == ConfirmFirsts(image, os, x, height)
  {
    forall i: nat | i < |os| ensures t[i] == ConfirmFirsts(image, os, x, height)[i] {
      assert IndexedAt(image, os, index, i);
      assert os[i].key in Entry(index, x) ==> Listed(index, x, os[i].key);
    }
  }

  // ---------------------------------------------------------------- counting

  ghost function ConfirmedCount(os: seq<Output>): nat {
    if os == [] then 0 else ConfirmedCount(os[..|os| - 1]) + if IsConfirmed(os[|os| - 1]) then 1 else 0
  }

  lemma {:induction false} CountUpdate(os: seq<Output>, k: nat, o: Output)
    requires k < |os|
    ensures ConfirmedCount(os[k := o]) ==
      ConfirmedCount(os) - (if IsConfirmed(os[k]) then 1 else 0) + if IsConfirmed(o) then 1 else 0
  {
    var front := os[..|os| - 1];
    if k < |front| {
      CountUpdate(front, k, o);
      assert os[k := o][..|front|] == front[k := o];
    } else {
      assert os[k := o][..|front|] == front;
    }
  }

  ghost predicate Marks(os: seq<Output>, key: nat) {
    var k := FindKey(os, key, 0);
    k < |os| && (!os[k].spent || os[k].spentBy != 0)
  }

  /** Marking a key confirms one more output exactly when it reports a change. */
  lemma MarkedCount(os: seq<Output>, key: nat, height: nat)
    requires AllTidy(os)
    ensures ConfirmedCount(Marked(os, key, height)) == ConfirmedCount(os) + if Marks(os, key) then 1 else 0
  {
    var k := FindKey(os, key, 0);
    if k < |os| { CountUpdate(os, k, Confirmed(os[k], height)); }
  }

  lemma AddedCount(os: seq<Output>, o: Output)
    requires !o.spent
    ensures ConfirmedCount(Added(os, o)) == ConfirmedCount(os)
  {
    assert (os + [o])[..|os|] == os;
  }

  // ---------------------------------------------------------------- scanning as wallet actions

  /** The calls that scanning a block at this height may make. */
  ghost predicate IsScan(acts: seq<Action>, height: nat) {
    forall i :: 0 <= i < |acts| ==> ScansAt(acts[i], height)
  }

  ghost predicate ScansAt(a: Action, height: nat) {
    match a
    case Add(o) => o.height == height && !o.spent && o.spentBy == 0
    case Mark(_, h) => h == height
  }

  lemma ScanIsAbove(acts: seq<Action>, height: nat, h: nat)
    requires IsScan(acts, height) && height > h
    ensures AllAbove(acts, h)
  {
    forall i | 0 <= i < |acts| ensures ScansAbove(acts[i], h) { }
  }

  lemma ActedMore(os: seq<Output>, acts: seq<Action>, a: Action)
    ensures ActedAll(os, acts + [a]) == Acted(ActedAll(os, acts), a)
  {
    assert (acts + [a])[..|acts|] == acts;
  }

  lemma {:induction false} ActedConcat(os: seq<Output>, a: seq<Action>, b: seq<Action>)
    ensures ActedAll(os, a + b) == ActedAll(ActedAll(os, a), b)
    decreases |b|
  {
    if b == [] {
      assert a + b == a;
    } else {
      assert (a + b)[..|a + b| - 1] == a + b[..|b| - 1];
      ActedConcat(os, a, b[..|b| - 1]);
    }
  }

  /** t is what the calls acts make of os0, with `more` outputs newly confirmed. */
  ghost predicate Did(os0: seq<Output>, t: seq<Output>, acts: seq<Action>, height: nat, more: nat) {
    t == ActedAll(os0, acts) && IsScan(acts, height) && ConfirmedCount(t) == ConfirmedCount(os0) + more
  }

  lemma DidMore(os0: seq<Output>, t: seq<Output>, acts: seq<Action>, height: nat, more: nat, a: Action, t': seq<Output>, more': nat)
    requires Did(os0, t, acts, height, more) && ScansAt(a, height) && t' == Acted(t, a)
    requires ConfirmedCount(t') == ConfirmedCount(os0) + more'
    ensures Did(os0, t', acts + [a], height, more')
  {
    ActedMore(os0, acts, a);
  }

  lemma DidMark(os0: seq<Output>, t: seq<Output>, acts: seq<Action>, height: nat, more: nat, key: nat)
    requires Did(os0, t, acts, height, more) && AllTidy(t)
    ensures Did(os0, Marked(t, key, height), acts + [Mark(key, height)], height, if Marks(t, key) then more + 1 else more)
  {
    MarkedCount(t, key, height);
    DidMore(os0, t, acts, height, more, Mark(key, height), Marked(t, key, height), if Marks(t, key) then more + 1 else more);
  }

  lemma DidAdd(os0: seq<Output>, t: seq<Output>, acts: seq<Action>, height: nat, more: nat, o: Output)
    requires Did(os0, t, acts, height, more) && o.height == height && !o.spent && o.spentBy == 0
    ensures Did(os0, Added(t, o), acts + [Add(o)], height, more)
  {
    AddedCount(t, o);
    DidMore(os0, t, acts, height, more, Add(o), Added(t, o), more);
  }

  // ---------------------------------------------------------------- the scanner

  /** Marks the keys listed for one key image. */
  method MarkKeys(w: Wallet, keys: seq<nat>, height: nat, count: nat, ghost os0: seq<Output>, ghost acts: seq<Action>)
    returns (spent: nat, ghost acts': seq<Action>)
    requires w.Valid() && Did(os0, w.outputs, acts, height, count)
    modifies w`outputs, w`reserved
    ensures w.Valid() && Did(os0, w.outputs, acts', height, spent) && PartlyMarked(old(w.outputs), w.outputs, keys, height)
  {
    ghost var os := w.outputs;
    spent, acts' := count, acts;
    for j := 0 to |keys|
      invariant w.Valid() && Did(os0, w.outputs, acts', height, spent) && PartlyMarked(os, w.outputs, keys[..j], height)
    {
      assert keys[..j + 1] == keys[..j] + [keys[j]];
      spent, acts' := MarkOne(w, keys[..j], keys[j], height, spent, os, os0, acts');
    }
    assert keys[..|keys|] == keys;
  }

  method MarkOne(w: Wallet, ghost keys: seq<nat>, key: nat, height: nat, count: nat, ghost os: seq<Output>, ghost os0: seq<Output>, ghost acts: seq<Action>)
    returns (spent: nat, ghost acts': seq<Action>)
    requires w.Valid() && AllTidy(os) && Did(os0, w.outputs, acts, height, count) && PartlyMarked(os, w.outputs, keys, height)
    modifies w`outputs, w`reserved
    ensures w.Valid() && Did(os0, w.outputs, acts', height, spent) && PartlyMarked(os, w.outputs, keys + [key], height)
  {
    MarkStep(os, w.outputs, keys, key, height);
    DidMark(os0, w.outputs, acts, height, count, key);
    var changed := w.MarkSpent(key, height);
    spent, acts' := if changed then count + 1 else count, acts + [Mark(key, height)];
  }

  /** Confirms the spends of one key image. */
  method SpendImage(w: Wallet, image: Imager, x: KeyImage, height: nat, index: Index, count: nat, ghost os0: seq<Output>, ghost acts: seq<Action>)
    returns (index': Index, spent: nat, ghost acts': seq<Action>)
    requires w.Valid() && IndexOk(image, w.outputs, index) && Did(os0, w.outputs, acts, height, count)
    modifies w`outputs, w`reserved
    ensures w.Valid() && IndexOk(image, w.outputs, index') && w.outputs == ConfirmFirsts(image, old(w.outputs), x, height)
    ensures Did(os0, w.outputs, acts', height, spent)
  {
    ghost var os := w.outputs;
    spent, acts' := MarkKeys(w, Entry(index, x), height, count, os0, acts);
    AllMarked(image, os, w.outputs, x, index, height);
    IndexDrop(image, os, index, x, height);
    index' := index - {x};
  }

  method SpendImages(w: Wallet, image: Imager, xs: seq<KeyImage>, height: nat, index: Index, count: nat, ghost os0: seq<Output>, ghost acts: seq<Action>)
    returns (index': Index, spent: nat, ghost acts': seq<Action>)
    requires w.Valid() && IndexOk(image, w.outputs, index) && Did(os0, w.outputs, acts, height, count)
    modifies w`outputs, w`reserved
    ensures w.Valid() && IndexOk(image, w.outputs, index') && w.outputs == ConfirmAll(image, old(w.outputs), xs, height)
    ensures Did(os0, w.outputs, acts', height, spent)
  {
    index', spent, acts' := index, count, acts;
    for j := 0 to |xs|
      invariant w.Valid() && IndexOk(image, w.outputs, index') && w.outputs == ConfirmAll(image, old(w.outputs), xs[..j], height)
      invariant Did(os0, w.outputs, acts', height, spent)
    {
      assert xs[..j + 1][..j] == xs[..j];
      index', spent, acts' := SpendImage(w, image, xs[j], height, index', spent, os0, acts');
    }
    assert xs[..|xs|] == xs;
  }

  /** Adds the owned outputs of a transaction. */
  lemma AddAllStep(os: seq<Output>, found: seq<Found>, j: nat, coinbase: bool, height: nat)
    requires j < |found|
    ensures AddAll(os, found[..j + 1], coinbase, height) ==
      Added(AddAll(os, found[..j], coinbase, height), NewOutput(found[j], coinbase, height))
  {
    assert found[..j + 1][..j] == found[..j];
  }

  method AddOne(w: Wallet, image: Imager, o: Output, height: nat, index: Index, ghost count: nat, ghost os0: seq<Output>, ghost acts: seq<Action>)
    returns (index': Index, ghost acts': seq<Action>)
    requires w.Valid() && IndexOk(image, w.outputs, index) && Did(os0, w.outputs, acts, height, count)
    requires o.Tidy() && !o.spent && o.height == height
    modifies w`outputs
    ensures w.Valid() && IndexOk(image, w.outputs, index') && w.outputs == Added(old(w.outputs), o)
    ensures Did(os0, w.outputs, acts', height, count)
  {
    DidAdd(os0, w.outputs, acts, height, count, o);
    IndexAdd(image, w.outputs, index, o);
    w.AddOutput(o);
    index', acts' := WithKey(image, index, o.key), acts + [Add(o)];
  }

  method AddOwned(w: Wallet, image: Imager, tx: ScanTx, height: nat, index: Index, ghost count: nat, ghost os0: seq<Output>, ghost acts: seq<Action>)
    returns (index': Index, ghost acts': seq<Action>)
    requires w.Valid() && IndexOk(image, w.outputs, index) && Did(os0, w.outputs, acts, height, count)
    modifies w`outputs
    ensures w.Valid() && IndexOk(image, w.outputs, index') && w.outputs == AddAll(old(w.outputs), tx.owned, tx.coinbase, height)
    ensures Did(os0, w.outputs, acts', height, count)
  {
    index', acts' := index, acts;
    for j := 0 to |tx.owned|
      invariant w.Valid() && IndexOk(image, w.outputs, index') && w.outputs == AddAll(old(w.outputs), tx.owned[..j], tx.coinbase, height)
      invariant Did(os0, w.outputs, acts', height, count)
    {
      AddAllStep(old(w.outputs), tx.owned, j, tx.coinbase, height);
      index', acts' := AddOne(w, image, NewOutput(tx.owned[j], tx.coinbase, height), height, index', count, os0, acts');
    }
    assert tx.owned[..|tx.owned|] == tx.owned;
  }

  method ScanTransaction(w: Wallet, image: Imager, tx: ScanTx, height: nat, index: Index, count: nat, ghost os0: seq<Output>, ghost acts: seq<Action>)
    returns (index': Index, spent: nat, ghost acts': seq<Action>)
    requires w.Valid() && IndexOk(image, w.outputs, index) && Did(os0, w.outputs, acts, height, count)
    modifies w`outputs, w`reserved
    ensures w.Valid() && IndexOk(image, w.outputs, index') && w.outputs == TxScanned(image, old(w.outputs), tx, height)
    ensures Did(os0, w.outputs, acts', height, spent)
  {
    index', acts' := AddOwned(w, image, tx, height, index, count, os0, acts);
    index', spent, acts' := SpendImages(w, image, tx.images, height, index', count, os0, acts');
  }

  /** How many owned outputs the transactions have. */
  ghost function OwnedCount(txs: seq<ScanTx>): nat {
    if txs == [] then 0 else OwnedCount(txs[..|txs| - 1]) + |txs[|txs| - 1].owned|
  }

  ghost function OwnedInBlocks(blocks: seq<ScanBlock>): nat {
    if blocks == [] then 0 else OwnedInBlocks(blocks[..|blocks| - 1]) + OwnedCount(blocks[|blocks| - 1].txs)
  }

  /** Scans one block, through the index. */
  method ScanOne(w: Wallet, image: Imager, b: ScanBlock) returns (found: nat, spent: nat, ghost acts: seq<Action>)
    requires w.Valid()
    modifies w`outputs, w`reserved
    ensures w.Valid() && w.outputs == TxsScanned(image, old(w.outputs), b.txs, b.height)
    ensures found == OwnedCount(b.txs) && Did(old(w.outputs), w.outputs, acts, b.height, spent)
  {
    ghost var os0 := w.outputs;
    var index := BuildIndex(image, w.outputs);
    found, spent, acts := 0, 0, [];
    for i := 0 to |b.txs|
      invariant w.Valid() && IndexOk(image, w.outputs, index) && w.outputs == TxsScanned(image, os0, b.txs[..i], b.height)
      invariant found == OwnedCount(b.txs[..i]) && Did(os0, w.outputs, acts, b.height, spent)
    {
      assert b.txs[..i + 1][..i] == b.txs[..i];
      index, spent, acts := ScanTransaction(w, image, b.txs[i], b.height, index, spent, os0, acts);
      found := found + |b.txs[i].owned|;
    }
    assert b.txs[..|b.txs|] == b.txs;
  }

  ghost predicate BlocksAbove(blocks: seq<ScanBlock>, h: nat) {
    forall i :: 0 <= i < |blocks| ==> blocks[i].height > h
  }

  /** Scans the next block and records its height. */
  method ScanNext(w: Wallet, image: Imager, blocks: seq<ScanBlock>, i: nat, ghost os0: seq<Output>, ghost acts: seq<Action>)
    returns (found: nat, spent: nat, ghost acts': seq<Action>)
    requires w.Valid() && i < |blocks| && w.outputs == ActedAll(os0, acts)
    requires forall h: nat :: BlocksAbove(blocks, h) ==> AllAbove(acts, h)
    modifies w`outputs, w`reserved, w`synced
    ensures w.Valid() && w.outputs == TxsScanned(image, old(w.outputs), blocks[i].txs, blocks[i].height) && w.outputs == ActedAll(os0, acts')
    ensures forall h: nat :: BlocksAbove(blocks, h) ==> AllAbove(acts', h)
    ensures w.synced == blocks[i].height && found == OwnedCount(blocks[i].txs)
    ensures ConfirmedCount(w.outputs) == ConfirmedCount(old(w.outputs)) + spent
  {
    ghost var more;
    found, spent, more := ScanOne(w, image, blocks[i]);
    forall h: nat | BlocksAbove(blocks, h) ensures AllAbove(acts + more, h) { ScanIsAbove(more, blocks[i].height, h); }
    ActedConcat(os0, acts, more);
    acts' := acts + more;
    w.SetSyncedHeight(blocks[i].height);
  }

  lemma BlocksStep(image: Imager, os: seq<Output>, blocks: seq<ScanBlock>, i: nat)
    requires i < |blocks|
    ensures BlocksScanned(image, os, blocks[..i + 1]) ==
      TxsScanned(image, BlocksScanned(image, os, blocks[..i]), blocks[i].txs, blocks[i].height)
    ensures OwnedInBlocks(blocks[..i + 1]) == OwnedInBlocks(blocks[..i]) + OwnedCount(blocks[i].txs)
  {
    assert blocks[..i + 1][..i] == blocks[..i];
  }

  /** Scans blocks in order, recording the height of each. */
  method ScanBlocks(w: Wallet, image: Imager, blocks: seq<ScanBlock>) returns (found: nat, spent: nat, ghost acts: seq<Action>)
    requires w.Valid()
    modifies w`outputs, w`reserved, w`synced
    ensures w.Valid() && w.outputs == BlocksScanned(image, old(w.outputs), blocks) && w.outputs == ActedAll(old(w.outputs), acts)
    ensures forall h: nat :: BlocksAbove(blocks, h) ==> AllAbove(acts, h)
    ensures w.synced == if blocks == [] then old(w.synced) else blocks[|blocks| - 1].height
    ensures found == OwnedInBlocks(blocks) && spent == ConfirmedCount(w.outputs) - ConfirmedCount(old(w.outputs))
  {
    ghost var os0 := w.outputs;
    found, spent, acts := 0, 0, [];
    for i := 0 to |blocks|
      invariant w.Valid() && w.outputs == BlocksScanned(image, os0, blocks[..i]) && w.outputs == ActedAll(os0, acts)
      invariant forall h: nat :: BlocksAbove(blocks, h) ==> AllAbove(acts, h)
      invariant w.synced == if i == 0 then old(w.synced) else blocks[i - 1].height
      invariant found == OwnedInBlocks(blocks[..i]) && ConfirmedCount(w.outputs) == ConfirmedCount(os0) + spent
    {
      BlocksStep(image, os0, blocks, i);
      var f, s;
      f, s, acts := ScanNext(w, image, blocks, i, os0, acts);
      found, spent := found + f, spent + s;
    }
    assert blocks[..|blocks|] == blocks;
  }

  // ---------------------------------------------------------------- rewinding a scan

  ghost function ImageSet(xs: seq<KeyImage>): set<KeyImage> { set x | x in xs }

  ghost function TxsImages(txs: seq<ScanTx>): set<KeyImage> {
    if txs == [] then {} else TxsImages(txs[..|txs| - 1]) + ImageSet(txs[|txs| - 1].images)
  }

  /** The key images in the blocks. */
  ghost function BlocksImages(blocks: seq<ScanBlock>): set<KeyImage> {
    if blocks == [] then {} else BlocksImages(blocks[..|blocks| - 1]) + TxsImages(blocks[|blocks| - 1].txs)
  }

  /** Output i is the first with its key, and its image is among xs. */
  ghost predicate Hit(image: Imager, os: seq<Output>, i: nat, xs: set<KeyImage>)
    requires i < |os|
  {
    IsFirst(os, i) && image(os[i].key).Some? && image(os[i].key).value in xs
  }

  ghost predicate TracksAt(image: Imager, os0: seq<Output>, t: seq<Output>, xs: set<KeyImage>, i: nat)
    requires i < |os0| <= |t|
  {
    t[i].key == os0[i].key && (!IsFirst(os0, i) ==> t[i] == os0[i]) &&
    (os0[i].Unconfirmed() ==> if Hit(image, os0, i, xs) then IsConfirmed(t[i]) else t[i].Unconfirmed())
  }

  /** After the images xs, the unconfirmed spends left are those that were not hit, and only first
      outputs with their keys have changed. */
  ghost predicate Tracks(image: Imager, os0: seq<Output>, t: seq<Output>, xs: set<KeyImage>) {
    |os0| <= |t| && forall i: nat {:trigger TracksAt(image, os0, t, xs, i)} :: i < |os0| ==> TracksAt(image, os0, t, xs, i)
  }

  lemma TracksNothing(image: Imager, os0: seq<Output>)
    ensures Tracks(image, os0, os0, {})
  {
    forall i: nat | i < |os0| ensures TracksAt(image, os0, os0, {}, i) { }
  }

  lemma TracksAdd(image: Imager, os0: seq<Output>, t: seq<Output>, xs: set<KeyImage>, o: Output)
    requires Tracks(image, os0, t, xs)
    ensures Tracks(image, os0, Added(t, o), xs)
  {
    forall i: nat | i < |os0| ensures TracksAt(image, os0, Added(t, o), xs, i) { assert TracksAt(image, os0, t, xs, i); }
  }

  lemma TracksConfirm(image: Imager, os0: seq<Output>, t: seq<Output>, xs: set<KeyImage>, x: KeyImage, height: nat)
    requires Tracks(image, os0, t, xs)
    ensures Tracks(image, os0, ConfirmFirsts(image, t, x, height), xs + {x})
  {
    forall i: nat | i < |os0| ensures t[i].key == os0[i].key { assert TracksAt(image, os0, t, xs, i); }
    forall i: nat | i < |os0| ensures TracksAt(image, os0, ConfirmFirsts(image, t, x, height), xs + {x}, i) {
      assert TracksAt(image, os0, t, xs, i);
      FirstSame(os0, t, i);
    }
  }

  lemma {:induction false} TracksAddAll(image: Imager, os0: seq<Output>, t: seq<Output>, xs: set<KeyImage>, new_: seq<Found>, coinbase: bool, height: nat)
    requires Tracks(image, os0, t, xs)
    ensures Tracks(image, os0, AddAll(t, new_, coinbase, height), xs)
  {
    if new_ != [] {
      var front, f := new_[..|new_| - 1], new_[|new_| - 1];
      TracksAddAll(image, os0, t, xs, front, coinbase, height);
      TracksAdd(image, os0, AddAll(t, front, coinbase, height), xs, NewOutput(f, coinbase, height));
    }
  }

  lemma {:induction false} TracksConfirmAll(image: Imager, os0: seq<Output>, t: seq<Output>, xs: set<KeyImage>, ys: seq<KeyImage>, height: nat)
    requires Tracks(image, os0, t, xs)
    ensures Tracks(image, os0, ConfirmAll(image, t, ys, height), xs + ImageSet(ys))
  {
    if ys == [] {
      assert xs + ImageSet(ys) == xs;
    } else {
      var front, y := ys[..|ys| - 1], ys[|ys| - 1];
      TracksConfirmAll(image, os0, t, xs, front, height);
      TracksConfirm(image, os0, ConfirmAll(image, t, front, height), xs + ImageSet(front), y, height);
      assert xs + ImageSet(front) + {y} == xs + ImageSet(ys);
    }
  }

  lemma {:induction false} TracksTxs(image: Imager, os0: seq<Output>, t: seq<Output>, xs: set<KeyImage>, txs: seq<ScanTx>, height: nat)
    requires Tracks(image, os0, t, xs)
    ensures Tracks(image, os0, TxsScanned(image, t, txs, height), xs + TxsImages(txs))
  {
    if txs == [] {
      assert xs + TxsImages(txs) == xs;
    } else {
      var front, tx := txs[..|txs| - 1], txs[|txs| - 1];
      var u := TxsScanned(image, t, front, height);
      TracksTxs(image, os0, t, xs, front, height);
      TracksAddAll(image, os0, u, xs + TxsImages(front), tx.owned, tx.coinbase, height);
      TracksConfirmAll(image, os0, AddAll(u, tx.owned, tx.coinbase, height), xs + TxsImages(front), tx.images, height);
      assert xs + TxsImages(front) + ImageSet(tx.images) == xs + TxsImages(txs);
    }
  }

  lemma {:induction false} TracksBlocks(image: Imager, os0: seq<Output>, blocks: seq<ScanBlock>)
    ensures Tracks(image, os0, BlocksScanned(image, os0, blocks), BlocksImages(blocks))
  {
    if blocks == [] {
      TracksNothing(image, os0);
    } else {
      var front, b := blocks[..|blocks| - 1], blocks[|blocks| - 1];
      TracksBlocks(image, os0, front);
      TracksTxs(image, os0, BlocksScanned(image, os0, front), BlocksImages(front), b.txs, b.height);
    }
  }

  /** No scan touches an output whose key an earlier output has. */
  lemma OnlyFirstsChange(image: Imager, os: seq<Output>, blocks: seq<ScanBlock>, i: nat)
    requires i < |os| && !IsFirst(os, i)
    ensures i < |BlocksScanned(image, os, blocks)| && BlocksScanned(image, os, blocks)[i] == os[i]
  {
    TracksBlocks(image, os, blocks);
    assert TracksAt(image, os, BlocksScanned(image, os, blocks), BlocksImages(blocks), i);
  }

  ghost predicate HitAt(image: Imager, os: seq<Output>, xs: set<KeyImage>, i: nat)
    requires i < |os|
  {
    os[i].Unconfirmed() && Hit(image, os, i, xs)
  }

  /** Some unconfirmed spend is confirmed by these blocks. */
  ghost predicate AnyHit(image: Imager, os: seq<Output>, blocks: seq<ScanBlock>) {
    exists i: nat {:trigger HitAt(image, os, BlocksImages(blocks), i)} :: i < |os| && HitAt(image, os, BlocksImages(blocks), i)
  }

  lemma HitIsPromotion(image: Imager, os0: seq<Output>, blocks: seq<ScanBlock>, acts: seq<Action>, h: nat)
    requires Settled(os0, h) && AllAbove(acts, h) && BlocksScanned(image, os0, blocks) == ActedAll(os0, acts)
    ensures AnyPromotion(os0, acts) <==> AnyHit(image, os0, blocks)
  {
    var t, xs := ActedAll(os0, acts), BlocksImages(blocks);
    ScanningScans(os0, acts, h);
    TracksBlocks(image, os0, blocks);
    forall i: nat | i < |os0| ensures LostAt(os0, t, h, i) <==> HitAt(image, os0, xs, i) {
      assert ScannedAt(os0, t, h, i) && TracksAt(image, os0, t, xs, i);
    }
    if AnyHit(image, os0, blocks) {
      var i: nat :| i < |os0| && HitAt(image, os0, xs, i);
      assert LostAt(os0, t, h, i);
    }
  }

  /** What the rewind leaves of a scan. */
  lemma RewindAfterScan(image: Imager, os0: seq<Output>, blocks: seq<ScanBlock>, acts: seq<Action>, h: nat)
    requires Settled(os0, h) && AllAbove(acts, h) && BlocksScanned(image, os0, blocks) == ActedAll(os0, acts)
    ensures Rewound(ActedAll(os0, acts), h) == os0 <==> !AnyHit(image, os0, blocks)
    ensures NoneUnconfirmed(os0) ==> !AnyHit(image, os0, blocks)
  {
    RewindUndoesScan(os0, acts, h);
    HitIsPromotion(image, os0, blocks, acts, h);
  }

  /** Scanning any blocks above the synced height h and rewinding to h leaves outputs, spend
      marks and synced height as they were, exactly if the blocks confirm no spend that was
      unconfirmed before. */
  method ScanThenRewind(w: Wallet, image: Imager, blocks: seq<ScanBlock>, h: nat)
    requires w.Valid() && w.synced == h && Settled(w.outputs, h) && BlocksAbove(blocks, h)
    modifies w
    ensures w.Valid() && w.synced == old(w.synced)
    ensures w.outputs == old(w.outputs) <==> !AnyHit(image, old(w.outputs), blocks)
    ensures NoneUnconfirmed(old(w.outputs)) ==> w.outputs == old(w.outputs)
  {
    ghost var os0 := w.outputs;
    var found, spent;
    ghost var acts;
    found, spent, acts := ScanBlocks(w, image, blocks);
    assert w.synced >= h && AllAbove(acts, h);
    ghost var scanned := w.outputs;
    var _ := w.RewindToHeight(h);
    assert w.outputs == Rewound(scanned, h);
    RewindAfterScan(image, os0, blocks, acts, h);
  }
}
