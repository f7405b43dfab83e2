/** What the mempool holds once a new tip has been followed: what stays, and what the blocks left
    behind by a reorganisation bring back. */
module Recovery {
  import opened Seqs
  import opened Blocks
  import opened ChainModel
  import opened Fork
  import opened Pool
  import opened Queue
  import opened N = Node
  import Mempool
  import Reorg

  // ---------------------------------------------------------------- many blocks as one list

  /** The transactions of a list of blocks, in order. */
  ghost function AllTxs(bs: seq<Block>): seq<Tx> {
    if bs == [] then [] else AllTxs(bs[..|bs| - 1]) + bs[|bs| - 1].txs
  }

  lemma {:induction false} TxOfBlock(bs: seq<Block>, tx: Tx)
    ensures tx in AllTxs(bs) <==> exists k :: 0 <= k < |bs| && tx in bs[k].txs
  {
    if bs != [] {
      var e := bs[..|bs| - 1];
      TxOfBlock(e, tx);
      if k :| 0 <= k < |bs| && tx in bs[k].txs { assert k < |e| ==> tx in e[k].txs; }
      if tx in AllTxs(e) {
        var k :| 0 <= k < |e| && tx in e[k].txs;
        assert tx in bs[k].txs;
      } else if tx in AllTxs(bs) {
        assert tx in bs[|bs| - 1].txs;
      }
    }
  }

  lemma {:induction false} DisconnectedConcat(pool: Contents, a: seq<Tx>, b: seq<Tx>, spent: set<KeyImage>)
    ensures Disconnected(pool, a + b, spent) == Disconnected(Disconnected(pool, a, spent), b, spent)
    decreases |b|
  {
    if b == [] {
      assert a + b == a;
    } else {
      assert (a + b)[..|a + b| - 1] == a + b[..|b| - 1];
      DisconnectedConcat(pool, a, b[..|b| - 1], spent);
    }
  }

  lemma {:induction false} DisconnectsFlat(pool: Contents, d: seq<Block>, spent: set<KeyImage>, ids: set<Hash>)
    ensures AppliedAll(pool, DisconnectsOf(d), spent, ids) == Disconnected(pool, AllTxs(d), spent)
  {
    if d != [] {
      var e, b := d[..|d| - 1], d[|d| - 1];
      DisconnectsFlat(pool, e, spent, ids);
      assert DisconnectsOf(d)[..|d| - 1] == DisconnectsOf(e);
      DisconnectedConcat(pool, AllTxs(e), b.txs, spent);
    }
  }

  lemma ConnectedConcat(pool: Contents, a: seq<Tx>, b: seq<Tx>)
    ensures Connected(pool, a + b) == Connected(Connected(pool, a), b)
  {
    forall id ensures id in Connected(pool, a + b) <==> id in Connected(Connected(pool, a), b) {
      ConnectedExactly(pool, a + b, id);
      ConnectedExactly(pool, a, id);
      ConnectedExactly(Connected(pool, a), b, id);
      if id in Connected(Connected(pool, a), b) {
        forall k | 0 <= k < |a + b| ensures (a + b)[k].id != id && Disjoint((a + b)[k].images, pool[id].images) {
          if k >= |a| { assert (a + b)[k] == b[k - |a|]; }
        }
      }
      if id in Connected(pool, a + b) {
        assert forall k :: 0 <= k < |a| ==> (a + b)[k] == a[k];
        assert forall k :: 0 <= k < |b| ==> (a + b)[|a| + k] == b[k];
      }
    }
  }

  lemma {:induction false} ConnectsFlat(pool: Contents, c: seq<Block>, spent: set<KeyImage>, ids: set<Hash>)
    ensures AppliedAll(pool, ConnectsOf(c), spent, ids) == Connected(pool, AllTxs(c))
  {
    if c == [] {
      assert Connected(pool, []) == pool;
    } else {
      var e, b := c[..|c| - 1], c[|c| - 1];
      ConnectsFlat(pool, e, spent, ids);
      assert ConnectsOf(c)[..|c| - 1] == ConnectsOf(e);
      ConnectedConcat(pool, AllTxs(e), b.txs);
    }
  }

  // ---------------------------------------------------------------- the blocks left behind

  lemma {:induction false} TxImagesConcat(a: seq<Tx>, b: seq<Tx>)
    ensures TxImages(a + b) == TxImages(a) + TxImages(b)
    decreases |b|
  {
    if b == [] {
      assert a + b == a;
    } else {
      assert (a + b)[..|a + b| - 1] == a + b[..|b| - 1];
      TxImagesConcat(a, b[..|b| - 1]);
    }
  }

  lemma ImageOfBlock(bs: seq<Block>, x: KeyImage) returns (k: nat)
    requires x in TxImages(AllTxs(bs))
    ensures k < |bs| && x in bs[k].Images()
  {
    var i := ImageHasTx(AllTxs(bs), x);
    TxOfBlock(bs, AllTxs(bs)[i]);
    k :| 0 <= k < |bs| && AllTxs(bs)[i] in bs[k].txs;
    var j :| 0 <= j < |bs[k].txs| && bs[k].txs[j] == AllTxs(bs)[i];
    TxImagesOfMember(bs[k].txs, j, x);
  }

  lemma BlocksApart(p: seq<Block>, n: nat, i: nat, x: KeyImage)
    requires GoodPath(p) && n < i < |p| && x in p[i].Images()
    ensures x !in p[n].Images()
  {
    GoodAt(p, i);
    if x in p[n].Images() {
      assert p[..i][n] == p[n];
      BlockImagesInChain(p[..i], n, x);
    }
  }

  /** The blocks of a good path that are left behind share no key image. */
  lemma {:induction false} LeftDistinct(p: seq<Block>, n: nat, d: seq<Block>)
    requires GoodPath(p) && n <= |p| && IsReversedTail(d, p, n)
    ensures NoDup(TxImages(AllTxs(d)))
    decreases |d|
  {
    if d != [] {
      var e := d[..|d| - 1];
      LeftDistinct(p, n + 1, e);
      GoodAt(p, n);
      TxImagesConcat(AllTxs(e), p[n].txs);
      NoDupConcat(TxImages(AllTxs(e)), p[n].Images());
      forall x | x in TxImages(AllTxs(e)) ensures x !in p[n].Images() {
        var k := ImageOfBlock(e, x);
        BlocksApart(p, n, |p| - 1 - k, x);
      }
    }
  }

  // ---------------------------------------------------------------- the pool after a switch

  /** A block that the switch to b takes off the main chain has tx. */
  ghost predicate LeftOff(s: State, b: Block, tx: Tx)
    requires Inv(s) && Attached(s, b)
  {
    exists k :: Shared(s, b) <= k < |Main(s)| && tx in Main(s)[k].txs
  }

  ghost predicate Takes(b: Block, id: Hash, images: seq<KeyImage>) {
    exists t :: t in b.txs && (t.id == id || !Disjoint(t.images, images))
  }

  /** A block that the switch to b puts on the main chain has a transaction with the id or with
      one of the images. */
  ghost predicate Superseded(s: State, b: Block, id: Hash, images: seq<KeyImage>)
    requires Inv(s) && Attached(s, b)
  {
    exists k :: Shared(s, b) <= k < |NewPath(s, b)| && Takes(NewPath(s, b)[k], id, images)
  }

  /** What the update leaves before expiry: the pooled transactions that the new blocks neither
      hold nor conflict with and, after a switch within the walk's reach, the free transactions of
      the blocks left behind that the new ones do not hold. */
  ghost predicate Remains(s: State, b: Block, pool: Contents, spent: set<KeyImage>, id: Hash)
    requires Inv(s) && Attached(s, b)
  {
    if b.prev == s.tip || Beyond(s, b) then id in pool && !Takes(b, id, pool[id].images)
    else if id in pool then !Superseded(s, b, id, pool[id].images)
    else exists tx :: LeftOff(s, b, tx) && tx.id == id && Free(pool, tx, spent) && !Superseded(s, b, id, tx.images)
  }

  /** What the connected transactions leave of one pooled. */
  lemma ConnectedUnlessTaken(pool: Contents, c: seq<Block>, id: Hash)
    ensures id in Connected(pool, AllTxs(c)) <==> id in pool && !exists k :: 0 <= k < |c| && Takes(c[k], id, pool[id].images)
    ensures id in Connected(pool, AllTxs(c)) ==> Connected(pool, AllTxs(c))[id] == pool[id]
  {
    var txs := AllTxs(c);
    ConnectedExactly(pool, txs, id);
    if id in pool {
      if k :| 0 <= k < |c| && Takes(c[k], id, pool[id].images) {
        var t :| t in c[k].txs && (t.id == id || !Disjoint(t.images, pool[id].images));
        TxOfBlock(c, t);
      } else {
        forall i | 0 <= i < |txs| ensures txs[i].id != id && Disjoint(txs[i].images, pool[id].images) {
          TxOfBlock(c, txs[i]);
          var k :| 0 <= k < |c| && txs[i] in c[k].txs;
          assert !Takes(c[k], id, pool[id].images);
        }
      }
    }
  }

  ghost function LeftBlocks(s: State, b: Block): (d: seq<Block>)
    requires Inv(s) && Attached(s, b)
    ensures IsReversedTail(d, Main(s), Shared(s, b))
  {
    var p := Main(s);
    seq(|p| - Shared(s, b), i requires 0 <= i < |p| - Shared(s, b) => p[|p| - 1 - i])
  }

  ghost function NewBlocks(s: State, b: Block): (c: seq<Block>)
    requires Inv(s) && Attached(s, b)
    ensures IsTail(c, NewPath(s, b), Shared(s, b))
  {
    var q := NewPath(s, b);
    seq(|q| - Shared(s, b), i requires 0 <= i < |q| - Shared(s, b) => q[Shared(s, b) + i])
  }

  lemma LeftOffIs(s: State, b: Block, tx: Tx)
    requires Inv(s) && Attached(s, b)
    ensures LeftOff(s, b, tx) <==> tx in AllTxs(LeftBlocks(s, b))
  {
    var p, d := Main(s), LeftBlocks(s, b);
    TxOfBlock(d, tx);
    if LeftOff(s, b, tx) {
      var k :| Shared(s, b) <= k < |p| && tx in p[k].txs;
      assert d[|p| - 1 - k] == p[k];
    }
  }

  lemma SupersededIs(s: State, b: Block, id: Hash, images: seq<KeyImage>)
    requires Inv(s) && Attached(s, b)
    ensures Superseded(s, b, id, images) <==> exists k :: 0 <= k < |NewBlocks(s, b)| && Takes(NewBlocks(s, b)[k], id, images)
  {
    var q, c, n := NewPath(s, b), NewBlocks(s, b), Shared(s, b);
    if k :| n <= k < |q| && Takes(q[k], id, images) { assert c[k - n] == q[k]; }
    if k :| 0 <= k < |c| && Takes(c[k], id, images) { assert q[n + k] == c[k]; }
  }

  /** A switch within reach, as one list of transactions returned and one confirmed. */
  lemma ChangesFlat(s: State, b: Block, pool: Contents, spent: set<KeyImage>)
    requires Inv(s) && Attached(s, b) && b.prev != s.tip && !Beyond(s, b)
    ensures AppliedAll(pool, Changes(s, b), spent, {}) ==
      Connected(Disconnected(pool, AllTxs(LeftBlocks(s, b)), spent), AllTxs(NewBlocks(s, b)))
  {
    var d, c := LeftBlocks(s, b), NewBlocks(s, b);
    UpdatesFromLists(s, b, d, c);
    var us := DisconnectsOf(d) + ConnectsOf(c);
    assert (us + [Expire])[..|us|] == us;
    AppliedConcat(pool, DisconnectsOf(d), ConnectsOf(c), spent, {});
    DisconnectsFlat(pool, d, spent, {});
    ConnectsFlat(Disconnected(pool, AllTxs(d), spent), c, spent, {});
  }

  lemma BackExactly(s: State, b: Block, pool: Contents, spent: set<KeyImage>, id: Hash)
    requires Inv(s) && Attached(s, b)
    ensures var back := Disconnected(pool, AllTxs(LeftBlocks(s, b)), spent);
      && (id in pool ==> id in back && back[id] == pool[id])
      && (id !in pool ==> (id in back <==> exists tx :: LeftOff(s, b, tx) && tx.id == id && Free(pool, tx, spent)))
      && (id !in pool && id in back ==> LeftOff(s, b, back[id]) && back[id].id == id && Free(pool, back[id], spent))
  {
    var d := LeftBlocks(s, b);
    var txs := AllTxs(d);
    MainGood(s);
    LeftDistinct(Main(s), Shared(s, b), d);
    DisconnectedExactly(pool, txs, spent, id);
    forall tx ensures LeftOff(s, b, tx) <==> tx in txs { LeftOffIs(s, b, tx); }
    if tx :| LeftOff(s, b, tx) && tx.id == id && Free(pool, tx, spent) {
      var k :| 0 <= k < |txs| && txs[k] == tx;
      assert FreeIn(pool, txs, spent, id);
    }
  }

  /** A free transaction is superseded only by its id: the new blocks' images are spent. */
  lemma FreeSuperseded(s: State, b: Block, pool: Contents, spent: set<KeyImage>, t: Tx, u: Tx)
    requires Inv(s) && Attached(s, b) && spent == Elements(ChainImages(NewPath(s, b)))
    requires Free(pool, t, spent) && Free(pool, u, spent) && Superseded(s, b, t.id, t.images) && t.id == u.id
    ensures Superseded(s, b, u.id, u.images)
  {
    var q := NewPath(s, b);
    var k :| Shared(s, b) <= k < |q| && Takes(q[k], t.id, t.images);
    var c :| c in q[k].txs && (c.id == t.id || !Disjoint(c.images, t.images));
    if c.id != t.id {
      var x :| x in c.images && x in t.images;
      var i :| 0 <= i < |q[k].txs| && q[k].txs[i] == c;
      TxImagesOfMember(q[k].txs, i, x);
      BlockImagesInChain(q, k, x);
    }
    assert Takes(q[k], u.id, u.images);
  }

  /** The pool before expiry, transaction by transaction. */
  lemma SwitchExactly(s: State, b: Block, pool: Contents, spent: set<KeyImage>, id: Hash)
    requires Inv(s) && Attached(s, b) && spent == Elements(ChainImages(NewPath(s, b)))
    requires b.prev != s.tip && !Beyond(s, b)
    ensures id in AppliedAll(pool, Changes(s, b), spent, {}) <==> Remains(s, b, pool, spent, id)
    ensures id in AppliedAll(pool, Changes(s, b), spent, {}) ==>
      var tx := AppliedAll(pool, Changes(s, b), spent, {})[id];
      if id in pool then tx == pool[id] else LeftOff(s, b, tx) && tx.id == id && Free(pool, tx, spent)
  {
    ChangesFlat(s, b, pool, spent);
    var back := Disconnected(pool, AllTxs(LeftBlocks(s, b)), spent);
    BackExactly(s, b, pool, spent, id);
    ConnectedUnlessTaken(back, NewBlocks(s, b), id);
    if id in back { SupersededIs(s, b, id, back[id].images); }
    if id in back && id !in pool && Superseded(s, b, id, back[id].images) {
      forall tx | LeftOff(s, b, tx) && tx.id == id && Free(pool, tx, spent) ensures Superseded(s, b, id, tx.images) {
        FreeSuperseded(s, b, pool, spent, back[id], tx);
      }
    }
  }

  lemma TipExactly(s: State, b: Block, pool: Contents, spent: set<KeyImage>, id: Hash)
    requires Inv(s) && Attached(s, b) && (b.prev == s.tip || Beyond(s, b))
    ensures id in AppliedAll(pool, Changes(s, b), spent, {}) <==> Remains(s, b, pool, spent, id)
    ensures id in AppliedAll(pool, Changes(s, b), spent, {}) ==> AppliedAll(pool, Changes(s, b), spent, {})[id] == pool[id]
  {
    assert [Connect(b), Expire][..1] == [Connect(b)] && [Connect(b)][..0] == [];
    assert AppliedAll(pool, [Connect(b)], spent, {}) == Connected(pool, b.txs);
    ConnectedExactly(pool, b.txs, id);
    if id in pool {
      if Takes(b, id, pool[id].images) {
        var t :| t in b.txs && (t.id == id || !Disjoint(t.images, pool[id].images));
      } else {
        forall k | 0 <= k < |b.txs| ensures b.txs[k].id != id && Disjoint(b.txs[k].images, pool[id].images) { assert b.txs[k] in b.txs; }
      }
    }
  }

  // ---------------------------------------------------------------- and once expiry has run

  lemma ChangesThenExpiry(s: State, b: Block, pool: Contents, spent: set<KeyImage>, ids: set<Hash>)
    requires Inv(s) && Attached(s, b)
    ensures AppliedAll(pool, Updates(s, b), spent, ids) == Mempool.OnlyIds(AppliedAll(pool, Changes(s, b), spent, {}), ids)
  {
    var us := Updates(s, b);
    assert us == Changes(s, b) + [Expire];
    AppliedThenExpired(pool, Changes(s, b), spent, ids);
  }

  /** The pool after the update, transaction by transaction. Entries that were there keep their
      age; what comes back starts anew. */
  ghost predicate FollowedAt(s: State, b: Block, pool: Contents, byId: map<Hash, Entry>, spent: set<KeyImage>,
                             now: int, cutoff: int, after: Contents, id: Hash)
    requires Inv(s) && Attached(s, b)
  {
    && (id in after <==> Remains(s, b, pool, spent, id) && Since(byId, id, now) >= cutoff)
    && (id in after && id in pool ==> after[id] == pool[id])
    && (id in after && id !in pool ==> LeftOff(s, b, after[id]) && after[id].id == id && Free(pool, after[id], spent))
  }

  ghost predicate Followed(s: State, b: Block, pool: Contents, byId: map<Hash, Entry>, spent: set<KeyImage>,
                           now: int, cutoff: int, after: Contents)
    requires Inv(s) && Attached(s, b)
  {
    forall id {:trigger FollowedAt(s, b, pool, byId, spent, now, cutoff, after, id)} ::
      FollowedAt(s, b, pool, byId, spent, now, cutoff, after, id)
  }

  lemma UpdateFollows(s: State, b: Block, pool: Contents, byId: map<Hash, Entry>, spent: set<KeyImage>,
                      now: int, cutoff: int, ids: set<Hash>)
    requires Inv(s) && Attached(s, b) && spent == Elements(ChainImages(NewPath(s, b)))
    requires Unexpired(AppliedAll(pool, Changes(s, b), spent, {}), byId, now, cutoff, ids)
    ensures Followed(s, b, pool, byId, spent, now, cutoff, AppliedAll(pool, Updates(s, b), spent, ids))
  {
    var after := AppliedAll(pool, Updates(s, b), spent, ids);
    ChangesThenExpiry(s, b, pool, spent, ids);
    forall id ensures FollowedAt(s, b, pool, byId, spent, now, cutoff, after, id) {
      if b.prev == s.tip || Beyond(s, b) { TipExactly(s, b, pool, spent, id); } else { SwitchExactly(s, b, pool, spent, id); }
    }
  }

  /** A block that the switch to b puts on the main chain has a transaction with the id. */
  ghost predicate Rejoins(s: State, b: Block, id: Hash)
    requires Inv(s) && Attached(s, b)
  {
    exists k, t :: Shared(s, b) <= k < |NewPath(s, b)| && t in NewPath(s, b)[k].txs && t.id == id
  }

  /** The images of the new blocks are spent, so only the id can stand against a free transaction. */
  lemma FreeTakesId(s: State, b: Block, pool: Contents, spent: set<KeyImage>, tx: Tx)
    requires Inv(s) && Attached(s, b) && spent == Elements(ChainImages(NewPath(s, b))) && Free(pool, tx, spent)
    ensures Superseded(s, b, tx.id, tx.images) <==> Rejoins(s, b, tx.id)
  {
    var q := NewPath(s, b);
    if Superseded(s, b, tx.id, tx.images) {
      var k :| Shared(s, b) <= k < |q| && Takes(q[k], tx.id, tx.images);
      var t :| t in q[k].txs && (t.id == tx.id || !Disjoint(t.images, tx.images));
      if t.id != tx.id {
        var x :| x in t.images && x in tx.images;
        var i :| 0 <= i < |q[k].txs| && q[k].txs[i] == t;
        TxImagesOfMember(q[k].txs, i, x);
        BlockImagesInChain(q, k, x);
      }
    }
    if k, t :| Shared(s, b) <= k < |q| && t in q[k].txs && t.id == tx.id { assert Takes(q[k], tx.id, tx.images); }
  }

  /** In particular: a transaction of a block left behind that the new blocks do not hold, and whose
      images neither the new chain nor the pool uses, is pooled after a switch within reach, unless
      what enters now has expired already. */
  lemma LeftOffReturns(s: State, b: Block, pool: Contents, byId: map<Hash, Entry>, spent: set<KeyImage>,
                       now: int, cutoff: int, after: Contents, tx: Tx)
    requires Inv(s) && Attached(s, b) && b.prev != s.tip && !Beyond(s, b) && spent == Elements(ChainImages(NewPath(s, b)))
    requires Followed(s, b, pool, byId, spent, now, cutoff, after) && byId.Keys == pool.Keys
    requires LeftOff(s, b, tx) && tx.id !in pool && Free(pool, tx, spent) && !Rejoins(s, b, tx.id)
    ensures tx.id in after <==> cutoff <= now
    ensures tx.id in after ==> after[tx.id].id == tx.id && LeftOff(s, b, after[tx.id])
  {
    assert FollowedAt(s, b, pool, byId, spent, now, cutoff, after, tx.id);
    FreeTakesId(s, b, pool, spent, tx);
  }
}
