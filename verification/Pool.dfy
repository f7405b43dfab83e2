/** What the mempool holds, as a value: transactions by id. The mempool class (Mempool.dfy) is
    proved against these functions, and the node (Node.dfy) steps by them. */
module Pool {
  import opened Seqs
  import opened Blocks

  type Contents = map<Hash, Tx>

  /** Some pooled transaction uses key image x. */
  ghost predicate Uses(pool: Contents, x: KeyImage) {
    exists id :: id in pool && x in pool[id].images
  }

  /** No two pooled transactions share a key image, and each is filed under its id. */
  ghost predicate Consistent(pool: Contents) {
    && (forall id :: id in pool ==> pool[id].id == id)
    && forall i, j, x :: i in pool && j in pool && x in pool[i].images && x in pool[j].images ==> i == j
  }

  ghost predicate HasId(txs: seq<Tx>, id: Hash) {
    exists i :: 0 <= i < |txs| && txs[i].id == id
  }

  /** A connected block takes out its own transactions and everything that conflicts with them. */
  ghost predicate Survives(pool: Contents, txs: seq<Tx>, id: Hash) {
    id in pool && !HasId(txs, id) && Disjoint(pool[id].images, TxImages(txs))
  }

  ghost function Connected(pool: Contents, txs: seq<Tx>): Contents {
    map id | id in pool && Survives(pool, txs, id) :: pool[id]
  }

  /** pool without the given ids and without every user of the given images. */
  ghost function Without(pool: Contents, ids: set<Hash>, images: set<KeyImage>): Contents {
    map id | id in pool && id !in ids && (forall x :: x in pool[id].images ==> x !in images) :: pool[id]
  }

  lemma WithoutTwice(pool: Contents, ids: set<Hash>, images: set<KeyImage>, ids': set<Hash>, images': set<KeyImage>)
    ensures Without(Without(pool, ids, images), ids', images') == Without(pool, ids + ids', images + images')
  {
  }

  lemma WithoutNothing(pool: Contents)
    ensures Without(pool, {}, {}) == pool
  {
  }

  ghost function Ids(txs: seq<Tx>): set<Hash> {
    set i | 0 <= i < |txs| :: txs[i].id
  }

  lemma ConnectedIsWithout(pool: Contents, txs: seq<Tx>)
    ensures Connected(pool, txs) == Without(pool, Ids(txs), Elements(TxImages(txs)))
  {
    forall id | id in pool ensures HasId(txs, id) <==> id in Ids(txs) { }
  }

  /** A transaction of a disconnected block may come back. */
  ghost predicate Returns(pool: Contents, tx: Tx, spent: set<KeyImage>) {
    !tx.IsCoinbase() && tx.id !in pool && forall x :: x in tx.images ==> !Uses(pool, x) && x !in spent
  }

  ghost function Returned(pool: Contents, tx: Tx, spent: set<KeyImage>): Contents {
    if Returns(pool, tx, spent) then pool[tx.id := tx] else pool
  }

  /** A disconnected block returns its transactions one by one. */
  ghost function Disconnected(pool: Contents, txs: seq<Tx>, spent: set<KeyImage>): Contents {
    if txs == [] then pool else Returned(Disconnected(pool, txs[..|txs| - 1], spent), txs[|txs| - 1], spent)
  }

  // ---------------------------------------------------------------- pool and spent images

  /** No pooled transaction uses a spent key image. */
  ghost predicate Clean(pool: Contents, spent: set<KeyImage>) {
    forall id, x :: id in pool && x in pool[id].images ==> x !in spent
  }

  /** Any use of a spent key image is of one in `pending`. */
  ghost predicate CleanBut(pool: Contents, spent: set<KeyImage>, pending: set<KeyImage>) {
    forall id, x :: id in pool && x in pool[id].images && x in spent ==> x in pending
  }

  lemma ReturnedClean(pool: Contents, tx: Tx, spent: set<KeyImage>, pending: set<KeyImage>)
    requires CleanBut(pool, spent, pending)
    ensures CleanBut(Returned(pool, tx, spent), spent, pending)
  {
  }

  lemma {:induction false} DisconnectedClean(pool: Contents, txs: seq<Tx>, spent: set<KeyImage>, pending: set<KeyImage>)
    requires CleanBut(pool, spent, pending)
    ensures CleanBut(Disconnected(pool, txs, spent), spent, pending)
  {
    if txs != [] {
      DisconnectedClean(pool, txs[..|txs| - 1], spent, pending);
      ReturnedClean(Disconnected(pool, txs[..|txs| - 1], spent), txs[|txs| - 1], spent, pending);
    }
  }

  /** Connecting a block clears the uses of its images. */
  lemma ConnectedClean(pool: Contents, txs: seq<Tx>, spent: set<KeyImage>, pending: set<KeyImage>)
    requires CleanBut(pool, spent, pending)
    ensures CleanBut(Connected(pool, txs), spent, pending - Elements(TxImages(txs)))
  {
    var after := Connected(pool, txs);
    forall id, x | id in after && x in after[id].images && x in spent ensures x in pending && x !in TxImages(txs) {
      assert Survives(pool, txs, id);
    }
  }

  lemma ReturnedConsistent(pool: Contents, tx: Tx, spent: set<KeyImage>)
    requires Consistent(pool)
    ensures Consistent(Returned(pool, tx, spent))
  {
    if Returns(pool, tx, spent) {
      forall i, x | i in pool && x in pool[i].images ensures x !in tx.images { assert Uses(pool, x); }
    }
  }

  lemma {:induction false} DisconnectedConsistent(pool: Contents, txs: seq<Tx>, spent: set<KeyImage>)
    requires Consistent(pool)
    ensures Consistent(Disconnected(pool, txs, spent))
  {
    if txs != [] {
      DisconnectedConsistent(pool, txs[..|txs| - 1], spent);
      ReturnedConsistent(Disconnected(pool, txs[..|txs| - 1], spent), txs[|txs| - 1], spent);
    }
  }

  // ---------------------------------------------------------------- what stays and what comes back

  /** tx has inputs, and neither the chain nor the pool uses any of them. */
  ghost predicate Free(pool: Contents, tx: Tx, spent: set<KeyImage>) {
    tx.images != [] && forall x :: x in tx.images ==> x !in spent && !Uses(pool, x)
  }

  /** Some transaction of the list has the id, and all it needs is free. */
  ghost predicate FreeIn(pool: Contents, txs: seq<Tx>, spent: set<KeyImage>, id: Hash) {
    exists k :: 0 <= k < |txs| && txs[k].id == id && Free(pool, txs[k], spent)
  }

  /** A disconnected block takes nothing out of the pool, and what it brings in was free. */
  lemma {:induction false} DisconnectedBrings(pool: Contents, txs: seq<Tx>, spent: set<KeyImage>)
    ensures forall id :: id in pool ==> id in Disconnected(pool, txs, spent) && Disconnected(pool, txs, spent)[id] == pool[id]
    ensures forall id :: id in Disconnected(pool, txs, spent) && id !in pool ==>
      var tx := Disconnected(pool, txs, spent)[id]; tx in txs && tx.id == id && Free(pool, tx, spent)
  {
    if txs != [] {
      var e, tx := txs[..|txs| - 1], txs[|txs| - 1];
      DisconnectedBrings(pool, e, spent);
      var before := Disconnected(pool, e, spent);
      forall x | Uses(pool, x) ensures Uses(before, x) {
        var id :| id in pool && x in pool[id].images;
        assert id in before && before[id] == pool[id];
      }
    }
  }

  /** The images in use after a block was disconnected were in use or are images of the block. */
  lemma UsedAfter(pool: Contents, txs: seq<Tx>, spent: set<KeyImage>, x: KeyImage)
    requires Uses(Disconnected(pool, txs, spent), x)
    ensures Uses(pool, x) || x in TxImages(txs)
  {
    DisconnectedBrings(pool, txs, spent);
    var id :| id in Disconnected(pool, txs, spent) && x in Disconnected(pool, txs, spent)[id].images;
    if id !in pool {
      var k :| 0 <= k < |txs| && txs[k] == Disconnected(pool, txs, spent)[id];
      TxImagesOfMember(txs, k, x);
    }
  }

  /** Every transaction of a disconnected block that is free comes back. */
  lemma {:induction false} FreeReturns(pool: Contents, txs: seq<Tx>, spent: set<KeyImage>, k: nat)
    requires NoDup(TxImages(txs)) && k < |txs| && Free(pool, txs[k], spent)
    ensures txs[k].id in Disconnected(pool, txs, spent)
    decreases |txs|
  {
    var e, tx := txs[..|txs| - 1], txs[|txs| - 1];
    NoDupConcat(TxImages(e), tx.images);
    if k < |e| {
      FreeReturns(pool, e, spent, k);
    } else {
      var before := Disconnected(pool, e, spent);
      forall x | x in tx.images ensures !Uses(before, x) {
        if Uses(before, x) { UsedAfter(pool, e, spent, x); }
      }
    }
  }

  /** What the pool holds after a block with distinct key images was disconnected: all it held, and
      the free transactions of the block. */
  lemma DisconnectedExactly(pool: Contents, txs: seq<Tx>, spent: set<KeyImage>, id: Hash)
    requires NoDup(TxImages(txs))
    ensures id in Disconnected(pool, txs, spent) <==> id in pool || FreeIn(pool, txs, spent, id)
    ensures id in pool ==> Disconnected(pool, txs, spent)[id] == pool[id]
    ensures id in Disconnected(pool, txs, spent) && id !in pool ==>
      var tx := Disconnected(pool, txs, spent)[id]; tx in txs && tx.id == id && Free(pool, tx, spent)
  {
    DisconnectedBrings(pool, txs, spent);
    if id !in pool {
      if id in Disconnected(pool, txs, spent) {
        var k :| 0 <= k < |txs| && txs[k] == Disconnected(pool, txs, spent)[id];
      }
      if FreeIn(pool, txs, spent, id) {
        var k :| 0 <= k < |txs| && txs[k].id == id && Free(pool, txs[k], spent);
        FreeReturns(pool, txs, spent, k);
      }
    }
  }

  /** A transaction of a block whose ids and images are distinct comes back, as it was, exactly when
      it is free. */
  lemma ReturnsIffFree(pool: Contents, txs: seq<Tx>, spent: set<KeyImage>, k: nat)
    requires NoDup(TxImages(txs)) && k < |txs| && txs[k].id !in pool
    requires forall i, j :: 0 <= i < j < |txs| ==> txs[i].id != txs[j].id
    ensures txs[k].id in Disconnected(pool, txs, spent) <==> Free(pool, txs[k], spent)
    ensures txs[k].id in Disconnected(pool, txs, spent) ==> Disconnected(pool, txs, spent)[txs[k].id] == txs[k]
  {
    DisconnectedExactly(pool, txs, spent, txs[k].id);
  }

  /** A connected block leaves exactly what shares neither id nor key image with a transaction of it. */
  lemma ConnectedExactly(pool: Contents, txs: seq<Tx>, id: Hash)
    ensures id in Connected(pool, txs) <==>
      id in pool && forall k :: 0 <= k < |txs| ==> txs[k].id != id && Disjoint(txs[k].images, pool[id].images)
    ensures id in Connected(pool, txs) ==> Connected(pool, txs)[id] == pool[id]
  {
    if id in pool {
      forall k, x | 0 <= k < |txs| && x in txs[k].images && x in pool[id].images ensures x in TxImages(txs) {
        TxImagesOfMember(txs, k, x);
      }
      forall x | x in TxImages(txs) && x in pool[id].images ensures exists k :: 0 <= k < |txs| && !Disjoint(txs[k].images, pool[id].images) {
        var k := ImageHasTx(txs, x);
        assert !Disjoint(txs[k].images, pool[id].images);
      }
    }
  }
}
