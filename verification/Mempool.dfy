/** The mempool (mempool.go): transactions by id, an index by key image, the priority queue
    and the running byte total, kept in step by every operation. */
module Mempool {
  import opened Seqs
  import opened Blocks
  import opened Queue
  import opened Pool

  datatype Config = Config(maxSize: nat, maxBytes: nat, minFeeRate: nat)

  // ---------------------------------------------------------------- the four structures

  ghost function ContentsOf(byId: map<Hash, Entry>): Contents {
    map id | id in byId :: byId[id].tx
  }

  /** The id map and the queue hold the same entries, each filed under its id. */
  ghost predicate Filed(byId: map<Hash, Entry>, items: seq<Entry>) {
    && (forall id :: id in byId ==> byId[id].tx.id == id && byId[id] in items)
    && (forall i :: 0 <= i < |items| ==> items[i].tx.id in byId && byId[items[i].tx.id] == items[i])
  }

  /** The key-image map is exactly the index of the pooled transactions. */
  ghost predicate IndexExact(pool: Contents, byImage: map<KeyImage, Hash>) {
    && (forall x :: x in byImage ==> byImage[x] in pool && x in pool[byImage[x]].images)
    && (forall id, x :: id in pool && x in pool[id].images ==> x in byImage && byImage[x] == id)
  }

  ghost function Total(s: set<Entry>): int {
    if s == {} then 0 else var e :| e in s; e.size + Total(s - {e})
  }

  lemma {:induction false} TotalSplit(s: set<Entry>, e: Entry)
    requires e in s
    ensures Total(s) == Total(s - {e}) + e.size
  {
    var f :| f in s && Total(s) == f.size + Total(s - {f});
    if e != f {
      TotalSplit(s - {f}, e);
      TotalSplit(s - {e}, f);
      assert s - {f} - {e} == s - {e} - {f};
    }
  }

  lemma {:induction false} TotalPositive(s: set<Entry>)
    ensures Total(s) >= 0
  {
    if s != {} {
      var e :| e in s;
      TotalSplit(s, e);
      TotalPositive(s - {e});
    }
  }

  /** The index is consistent only if no two pooled transactions share an image. */
  lemma IndexConsistent(pool: Contents, byImage: map<KeyImage, Hash>)
    requires IndexExact(pool, byImage) && forall id :: id in pool ==> pool[id].id == id
    ensures Consistent(pool)
    ensures forall x :: x in byImage <==> Uses(pool, x)
  {
    forall i, j, x | i in pool && j in pool && x in pool[i].images && x in pool[j].images ensures i == j {
      assert byImage[x] == i && byImage[x] == j;
    }
  }

  lemma RemoveIndexed(pool: Contents, byImage: map<KeyImage, Hash>, id: Hash, gone: set<KeyImage>)
    requires IndexExact(pool, byImage) && id in pool && gone == Elements(pool[id].images)
    ensures IndexExact(pool - {id}, byImage - gone)
  {
    forall x | x in byImage - gone ensures byImage[x] != id { }
    forall i, x | i in pool - {id} && x in pool[i].images ensures x !in gone { assert byImage[x] == i; }
  }

  lemma FiledWithout(byId: map<Hash, Entry>, items: seq<Entry>, items': seq<Entry>, id: Hash, frame: set<Entry>)
    requires Filed(byId, items) && Within(items, frame) && id in byId
    requires forall x :: x in items' <==> x in items && x != byId[id]
    ensures Filed(byId - {id}, items') && Within(items', frame)
    ensures Total(Members(items')) == Total(Members(items)) - byId[id].size
    ensures ContentsOf(byId - {id}) == ContentsOf(byId) - {id}
  {
    forall k | 0 <= k < |items'| ensures items'[k] in items && items'[k] != byId[id] { assert items'[k] in items'; }
    TotalSplit(Members(items), byId[id]);
    assert Members(items') == Members(items) - {byId[id]};
  }

  lemma FiledWith(byId: map<Hash, Entry>, items: seq<Entry>, items': seq<Entry>, e: Entry, frame: set<Entry>)
    requires Filed(byId, items) && Within(items, frame) && e.tx.id !in byId
    requires forall x :: x in items' <==> x in items || x == e
    ensures Filed(byId[e.tx.id := e], items') && Within(items', frame + {e})
    ensures Total(Members(items')) == Total(Members(items)) + e.size
    ensures ContentsOf(byId[e.tx.id := e]) == ContentsOf(byId)[e.tx.id := e.tx]
  {
    forall k | 0 <= k < |items'| ensures items'[k] in items || items'[k] == e { assert items'[k] in items'; }
    assert e !in items;
    TotalSplit(Members(items'), e);
    assert Members(items') - {e} == Members(items);
  }

  lemma InsertIndexed(pool: Contents, byImage: map<KeyImage, Hash>, tx: Tx, added: map<KeyImage, Hash>)
    requires IndexExact(pool, byImage) && tx.id !in pool && forall x :: x in tx.images ==> x !in byImage
    requires added.Keys == byImage.Keys + Elements(tx.images)
    requires forall x :: x in added ==> added[x] == if x in tx.images then tx.id else byImage[x]
    ensures IndexExact(pool[tx.id := tx], added)
  {
  }

  /** The index names the one user of an image. */
  lemma IndexUser(pool: Contents, byImage: map<KeyImage, Hash>, x: KeyImage)
    requires IndexExact(pool, byImage)
    ensures Without(pool, {}, {x}) == if x in byImage then pool - {byImage[x]} else pool
  {
  }

  lemma StepIds(txs: seq<Tx>, i: nat)
    requires i < |txs|
    ensures Ids(txs[..i + 1]) == Ids(txs[..i]) + {txs[i].id}
    ensures Elements(TxImages(txs[..i + 1])) == Elements(TxImages(txs[..i])) + Elements(txs[i].images)
  {
    assert txs[..i + 1][..i] == txs[..i];
    assert forall k :: 0 <= k < i ==> txs[..i + 1][k] == txs[..i][k];
  }

  class Mempool {
    const config: Config
    const queue: TxQueue
    var txById: map<Hash, Entry>
    var txByImage: map<KeyImage, Hash>
    var totalSize: int
    ghost var frame: set<Entry>

    constructor (config: Config)
      ensures Valid() && Contents() == map[] && this.config == config && fresh(queue) && frame == {}
    {
      this.config := config;
      queue := new TxQueue();
      txById, txByImage, totalSize, frame := map[], map[], 0, {};
    }

    ghost function Contents(): Contents
      reads this
    {
      ContentsOf(txById)
    }

    ghost predicate Valid()
      reads this, queue, queue.items
    {
      && queue.Valid() && Within(queue.items, frame)
      && Filed(txById, queue.items)
      && IndexExact(Contents(), txByImage)
      && totalSize == Total(Members(queue.items))
    }

    /** Takes a transaction out of all four structures, if it is there. */
    method RemoveById(id: Hash)
      requires Valid()
      modifies this, queue, frame
      ensures Valid() && frame == old(frame)
      ensures Contents() == old(Contents()) - {id}
      ensures txById == old(txById) - {id}
      ensures totalSize == old(totalSize) - if id in old(txById) then old(txById)[id].size else 0
    {
      if id !in txById {
        assert txById - {id} == txById;
        return;
      }
      var entry := txById[id];
      ghost var images := Elements(entry.tx.images);
      RemoveIndexed(Contents(), txByImage, id, images);
      EntryPosition(entry);
      ghost var items0, byId0 := queue.items, txById;
      txByImage := Unindexed(txByImage, entry.tx.images);
      txById := txById - {id};
      totalSize := totalSize - entry.size;
      queue.Remove(entry.index);
      FiledWithout(byId0, items0, queue.items, id, frame);
    }

    /** Takes out the transaction that uses key image x, if there is one. */
    method RemoveByImage(x: KeyImage)
      requires Valid()
      modifies this, queue, frame
      ensures Valid() && frame == old(frame)
      ensures Contents() == Without(old(Contents()), {}, {x})
      ensures Kept(old(txById), txById)
    {
      ghost var pool := Contents();
      IndexUser(pool, txByImage, x);
      if x in txByImage { RemoveById(txByImage[x]); }
    }

    /** A block has joined the main chain. */
    method OnBlockConnected(txs: seq<Tx>)
      requires Valid()
      modifies this, queue, frame
      ensures Valid() && frame == old(frame)
      ensures Contents() == Connected(old(Contents()), txs)
      ensures Kept(old(txById), txById)
    {
      ghost var pool := Contents();
      WithoutNothing(pool);
      for i := 0 to |txs|
        invariant Valid() && frame == old(frame) && Kept(old(txById), txById)
        invariant Contents() == Without(pool, Ids(txs[..i]), Elements(TxImages(txs[..i])))
      {
        ConnectOne(txs[i], pool, Ids(txs[..i]), Elements(TxImages(txs[..i])));
        StepIds(txs, i);
      }
      assert txs[..|txs|] == txs;
      ConnectedIsWithout(pool, txs);
    }

    /** Takes out one confirmed transaction and its conflicts. */
    method ConnectOne(tx: Tx, ghost pool: Contents, ghost ids: set<Hash>, ghost images: set<KeyImage>)
      requires Valid() && Contents() == Without(pool, ids, images)
      modifies this, queue, frame
      ensures Valid() && frame == old(frame)
      ensures Contents() == Without(pool, ids + {tx.id}, images + Elements(tx.images))
      ensures Kept(old(txById), txById)
    {
      RemoveById(tx.id);
      assert Contents() == Without(pool, ids + {tx.id}, images);
      RemoveUsers(tx.images, pool, ids + {tx.id}, images);
    }

    /** Takes out every user of the given images. */
    method RemoveUsers(images: seq<KeyImage>, ghost pool: Contents, ghost ids: set<Hash>, ghost gone: set<KeyImage>)
      requires Valid() && Contents() == Without(pool, ids, gone)
      modifies this, queue, frame
      ensures Valid() && frame == old(frame)
      ensures Contents() == Without(pool, ids, gone + Elements(images))
      ensures Kept(old(txById), txById)
    {
      assert gone + Elements(images[..0]) == gone;
      for j := 0 to |images|
        invariant Valid() && frame == old(frame) && Kept(old(txById), txById)
        invariant Contents() == Without(pool, ids, gone + Elements(images[..j]))
      {
        ghost var done := gone + Elements(images[..j]);
        WithoutTwice(pool, ids, done, {}, {images[j]});
        RemoveByImage(images[j]);
        assert ids + {} == ids;
        assert done + {images[j]} == gone + Elements(images[..j + 1]);
      }
      assert images[..|images|] == images;
    }

    /** Enters a transaction into all four structures. */
    method Insert(tx: Tx, feeRate: nat, size: nat, now: int)
      requires Valid() && tx.id !in txById && forall x :: x in tx.images ==> x !in txByImage
      modifies this, queue, frame
      ensures Valid() && fresh(frame - old(frame))
      ensures Contents() == old(Contents())[tx.id := tx]
      ensures txById.Keys == old(txById).Keys + {tx.id} && totalSize == old(totalSize) + size
      ensures forall id :: id in old(txById) ==> txById[id] == old(txById)[id]
      ensures Records(txById[tx.id], feeRate, size, now)
    {
      var entry := new Entry(tx, feeRate, size, now);
      var index := Indexed(txByImage, tx.images, tx.id);
      InsertIndexed(Contents(), txByImage, tx, index);
      Enter(entry, index);
    }

    method Enter(entry: Entry, index: map<KeyImage, Hash>)
      requires Valid() && entry.tx.id !in txById && entry !in queue.items
      requires IndexExact(Contents()[entry.tx.id := entry.tx], index)
      modifies this, queue, frame, entry
      ensures Valid() && frame == old(frame) + {entry}
      ensures Contents() == old(Contents())[entry.tx.id := entry.tx] && txById == old(txById)[entry.tx.id := entry]
      ensures totalSize == old(totalSize) + entry.size
    {
      ghost var items0, byId0 := queue.items, txById;
      txById := txById[entry.tx.id := entry];
      txByImage := index;
      frame := frame + {entry};
      queue.Push(entry);
      totalSize := totalSize + entry.size;
      FiledWith(byId0, items0, queue.items, entry, old(frame));
    }

    /** Some key image of tx is used by a pooled transaction. */
    method Conflicts(tx: Tx) returns (r: bool)
      ensures r <==> exists x :: x in tx.images && x in txByImage
    {
      for j := 0 to |tx.images|
        invariant forall k :: 0 <= k < j ==> tx.images[k] !in txByImage
      {
        if tx.images[j] in txByImage { return true; }
      }
      return false;
    }

    /** A block has left the main chain; `spent` are the key images spent on the chain now.
        sizes and fees belong to the block's transactions; a serialised transaction is never empty. */
    method OnBlockDisconnected(txs: seq<Tx>, spent: set<KeyImage>, sizes: seq<nat>, fees: seq<nat>, now: int)
      requires Valid() && |sizes| == |fees| == |txs| && forall i :: 0 <= i < |sizes| ==> sizes[i] > 0
      modifies this, queue, frame
      ensures Valid() && fresh(frame - old(frame))
      ensures Contents() == Disconnected(old(Contents()), txs, spent)
      ensures Kept(txById, old(txById)) && Rejoined(old(txById), txById, txs, sizes, fees, now)
    {
      ghost var pool := Contents();
      for i := 0 to |txs|
        invariant Valid() && fresh(frame - old(frame))
        invariant Kept(txById, old(txById)) && Rejoined(old(txById), txById, txs, sizes, fees, now)
        invariant Contents() == Disconnected(pool, txs[..i], spent)
      {
        assert txs[..i + 1][..i] == txs[..i];
        ghost var byId := txById;
        ReturnOne(txs[i], spent, sizes[i], fees[i], now);
        RejoinedStep(old(txById), byId, txById, txs, sizes, fees, now, i);
      }
      assert txs[..|txs|] == txs;
    }

    method ReturnOne(tx: Tx, spent: set<KeyImage>, size: nat, fee: nat, now: int)
      requires Valid() && size > 0
      modifies this, queue, frame
      ensures Valid() && fresh(frame - old(frame))
      ensures Contents() == Returned(old(Contents()), tx, spent)
      ensures Kept(txById, old(txById)) && txById.Keys <= old(txById).Keys + {tx.id}
      ensures tx.id !in old(Contents()) && tx.id in Contents() ==>
        txById[tx.id].tx == tx && Records(txById[tx.id], fee / size, size, now)
    {
      ghost var pool := Contents();
      FiledIds(txById, queue.items);
      IndexConsistent(pool, txByImage);
      if tx.IsCoinbase() || tx.id in txById { return; }
      var valid := true;
      for j := 0 to |tx.images|
        invariant valid <==> forall k :: 0 <= k < j ==> tx.images[k] !in txByImage && tx.images[k] !in spent
      {
        if tx.images[j] in txByImage || tx.images[j] in spent { valid := false; }
      }
      assert valid <==> Returns(pool, tx, spent);
      if valid { Insert(tx, fee / size, size, now); }
    }

    /** The oldest pooled transaction; among equally old ones, any. */
    method OldestId() returns (id: Hash)
      requires Valid() && txById != map[]
      ensures IsOldest(txById, id)
    {
      id :| id in txById;
      var todo := txById.Keys - {id};
      while todo != {}
        invariant todo <= txById.Keys && id in txById
        invariant forall k :: k in txById && k !in todo ==> txById[id].addedAt <= txById[k].addedAt
        decreases |todo|
      {
        var k :| k in todo;
        if txById[k].addedAt < txById[id].addedAt { id := k; }
        todo := todo - {k};
      }
    }

    /** Makes room by evicting the oldest transaction, provided its fee rate is below minFeeRate. */
    method EvictLowest(minFeeRate: nat) returns (evicted: bool, ghost id: Hash)
      requires Valid()
      modifies this, queue, frame
      ensures Valid() && frame == old(frame)
      ensures old(txById) == map[] ==> !evicted
      ensures old(txById) != map[] ==> IsOldest(old(txById), id) && (evicted <==> old(txById)[id].feeRate < minFeeRate)
      ensures txById == if evicted then old(txById) - {id} else old(txById)
      ensures evicted ==> totalSize == old(totalSize) - old(txById)[id].size
      ensures !evicted ==> Contents() == old(Contents()) && totalSize == old(totalSize)
    {
      if |queue.items| == 0 {
        id := 0;
        return false, 0;
      }
      assert queue.items[0] in queue.items;
      var oldest := OldestId();
      id := oldest;
      if txById[oldest].feeRate < minFeeRate {
        RemoveById(oldest);
        return true, id;
      }
      return false, id;
    }

    /** Evicts below `rate` until one more transaction of the given size fits, or gives up;
        evictions already made stand. */
    method MakeRoom(rate: nat, size: nat) returns (ok: bool, ghost evicted: seq<Hash>)
      requires Valid()
      modifies this, queue, frame
      ensures Valid() && frame == old(frame)
      ensures Shrunk(old(txById), txById, rate)
      ensures ok ==> |txById.Keys| < config.maxSize || |txById.Keys| < |old(txById).Keys|
      ensures !ok ==> |old(txById).Keys| >= config.maxSize || old(totalSize) + size > config.maxBytes
      ensures ok ==> totalSize + size <= config.maxBytes || (txById == map[] && totalSize == 0)
      ensures Evicted(old(txById), old(totalSize), rate, size, config, evicted, txById, totalSize)
      ensures !ok ==> Stuck(txById, rate)
      ensures |old(txById).Keys| < config.maxSize && old(totalSize) + size <= config.maxBytes ==> evicted == []
    {
      ghost var id, byId0, total0 := 0, txById, totalSize;
      evicted := [];
      NoneEvicted(byId0, total0, rate, size, config);
      if |txById.Keys| >= config.maxSize {
        ok, id := EvictLowest(rate);
        if !ok {
          EvictedShrinks(byId0, total0, rate, size, config, [], txById, totalSize);
          return false, [];
        }
        EvictedStep(byId0, total0, rate, size, config, [], byId0, total0, id);
        evicted := [] + [id];
      }
      ok, evicted := MakeSpace(rate, size, byId0, total0, evicted);
      EvictedShrinks(byId0, total0, rate, size, config, evicted, txById, totalSize);
      RoomEvictsNone(byId0, total0, rate, size, config, evicted, txById, totalSize);
    }

    method MakeSpace(rate: nat, size: nat, ghost byId0: map<Hash, Entry>, ghost total0: int, ghost before: seq<Hash>)
      returns (ok: bool, ghost evicted: seq<Hash>)
      requires Valid() && Evicted(byId0, total0, rate, size, config, before, txById, totalSize)
      modifies this, queue, frame
      ensures Valid() && frame == old(frame)
      ensures |txById.Keys| <= |old(txById).Keys|
      ensures ok ==> totalSize + size <= config.maxBytes || (txById == map[] && totalSize == 0)
      ensures !ok ==> old(totalSize) + size > config.maxBytes
      ensures Evicted(byId0, total0, rate, size, config, evicted, txById, totalSize)
      ensures !ok ==> Stuck(txById, rate)
    {
      ok, evicted := true, before;
      ghost var id;
      while ok && totalSize + size > config.maxBytes && |queue.items| > 0
        invariant Valid() && frame == old(frame)
        invariant |txById.Keys| <= |old(txById).Keys|
        invariant totalSize == old(totalSize) || old(totalSize) + size > config.maxBytes
        invariant !ok ==> old(totalSize) + size > config.maxBytes && Stuck(txById, rate)
        invariant Evicted(byId0, total0, rate, size, config, evicted, txById, totalSize)
        decreases |txById.Keys|, ok
      {
        ghost var byId, total := txById, totalSize;
        ok, id := EvictLowest(rate);
        if ok {
          EvictedStep(byId0, total0, rate, size, config, evicted, byId, total, id);
          evicted := evicted + [id];
        }
      }
      EmptyQueue(txById, queue.items);
    }

    /** Makes room for a screened transaction and enters it. */
    method Admit(tx: Tx, rate: nat, size: nat, now: int) returns (ok: bool, ghost evicted: seq<Hash>)
      requires Valid() && tx.id !in txById && !Conflicting(Contents(), tx)
      modifies this, queue, frame
      ensures Valid() && fresh(frame - old(frame))
      ensures ok ==>
        Contents() == OnlyIds(old(Contents()), txById.Keys - {tx.id})[tx.id := tx] && EvictedBelow(old(txById), txById, rate)
      ensures ok ==> |txById.Keys| <= config.maxSize || |txById.Keys| <= |old(txById).Keys|
      ensures ok && size <= config.maxBytes ==> totalSize <= config.maxBytes
      ensures ok ==> tx.id in txById && Records(txById[tx.id], rate, size, now)
      ensures !ok ==> Contents() == OnlyIds(old(Contents()), txById.Keys)
      ensures !ok ==> |old(txById).Keys| >= config.maxSize || old(totalSize) + size > config.maxBytes
      ensures ok ==> Evicted(old(txById), old(totalSize), rate, size, config, evicted, txById - {tx.id}, totalSize - size)
      ensures !ok ==> Evicted(old(txById), old(totalSize), rate, size, config, evicted, txById, totalSize) && Stuck(txById, rate)
      ensures |old(txById).Keys| < config.maxSize && old(totalSize) + size <= config.maxBytes ==> evicted == []
    {
      ghost var byId0 := txById;
      ok, evicted := MakeRoom(rate, size);
      if ok {
        InsertInto(tx, rate, size, now, byId0);
      } else {
        ShrunkContents(byId0, txById, rate);
      }
    }

    /** Enters a transaction that was screened against the pool byId0, of which some is left. */
    method InsertInto(tx: Tx, rate: nat, size: nat, now: int, ghost byId0: map<Hash, Entry>)
      requires Valid() && tx.id !in byId0 && !Conflicting(ContentsOf(byId0), tx) && Shrunk(byId0, txById, rate)
      modifies this, queue, frame
      ensures Valid() && fresh(frame - old(frame))
      ensures Contents() == OnlyIds(ContentsOf(byId0), txById.Keys - {tx.id})[tx.id := tx] && EvictedBelow(byId0, txById, rate)
      ensures |txById.Keys| == |old(txById).Keys| + 1 && totalSize == old(totalSize) + size
      ensures txById - {tx.id} == old(txById) && tx.id in txById && Records(txById[tx.id], rate, size, now)
    {
      NoConflictLeft(byId0, txById, queue.items, txByImage, tx);
      ghost var byId1 := txById;
      Insert(tx, rate, size, now);
      InsertedContents(byId0, byId1, txById, tx, rate);
    }

    /** Admits a transaction. `wellFormed` says that its bytes parse, `validated` that it passes
        validation against the chain; the fee is the caller's. `evicted` are the transactions that
        had to make room, in that order. */
    method AddTransaction(tx: Tx, wellFormed: bool, validated: bool, fee: nat, size: nat, now: int)
      returns (r: Admission, ghost evicted: seq<Hash>)
      requires Valid() && size > 0
      modifies this, queue, frame
      ensures Valid() && fresh(frame - old(frame))
      ensures r == Known <==> wellFormed && !tx.IsCoinbase() && tx.id in old(Contents())
      ensures r == Known ==> Contents() == old(Contents())
      ensures r == Added ==> Acceptable(old(Contents()), tx, wellFormed, validated) && fee / size >= config.minFeeRate
      ensures r == Added ==>
        Contents() == OnlyIds(old(Contents()), txById.Keys - {tx.id})[tx.id := tx] && EvictedBelow(old(txById), txById, fee / size)
      ensures r == Added ==> |txById.Keys| <= config.maxSize || |txById.Keys| <= |old(txById).Keys|
      ensures r == Added && size <= config.maxBytes ==> totalSize <= config.maxBytes
      ensures r == Added ==> tx.id in txById && Records(txById[tx.id], fee / size, size, now)
      ensures r == Refused ==> Contents() == OnlyIds(old(Contents()), txById.Keys)
      ensures r == Refused && Acceptable(old(Contents()), tx, wellFormed, validated) && fee / size >= config.minFeeRate ==>
        |old(txById).Keys| >= config.maxSize || old(totalSize) + size > config.maxBytes
      ensures r == Added ==>
        Evicted(old(txById), old(totalSize), fee / size, size, config, evicted, txById - {tx.id}, totalSize - size)
      ensures r != Added ==>
        Evicted(old(txById), old(totalSize), fee / size, size, config, evicted, txById, totalSize)
      ensures r == Refused && Acceptable(old(Contents()), tx, wellFormed, validated) && fee / size >= config.minFeeRate ==>
        Stuck(txById, fee / size)
      ensures r == Refused && !(Acceptable(old(Contents()), tx, wellFormed, validated) && fee / size >= config.minFeeRate) ==>
        evicted == []
      ensures |old(txById).Keys| < config.maxSize && old(totalSize) + size <= config.maxBytes ==> evicted == []
    {
      FiledIds(txById, queue.items);
      IndexConsistent(Contents(), txByImage);
      OnlyAll(txById);
      NoneEvicted(txById, totalSize, fee / size, size, config);
      r, evicted := Refused, [];
      if wellFormed && !tx.IsCoinbase() {
        if tx.id in txById { return Known, []; }
        var conflict := Conflicts(tx);
        var rate := fee / size;
        if !conflict && validated && rate >= config.minFeeRate {
          var ok;
          ok, evicted := Admit(tx, rate, size, now);
          if ok { r := Added; }
        }
      }
    }

    /** Drops every transaction admitted before the cutoff. */
    method RemoveExpired(cutoff: int) returns (removed: nat)
      requires Valid()
      modifies this, queue, frame
      ensures Valid() && frame == old(frame)
      ensures txById == old(txById) - Expired(old(txById), cutoff)
      ensures removed == |Expired(old(txById), cutoff)|
    {
      var ids := ExpiredIds(txById, cutoff);
      assert txById - Elements(ids[..0]) == txById;
      for i := 0 to |ids|
        invariant Valid() && frame == old(frame) && txById == old(txById) - Elements(ids[..i])
      {
        RemoveById(ids[i]);
        assert ids[..i + 1] == ids[..i] + [ids[i]];
        assert Elements(ids[..i + 1]) == Elements(ids[..i]) + {ids[i]};
      }
      assert ids[..|ids|] == ids;
      removed := |ids|;
    }

    /** The entries of the pool, in no particular order. */
    method Collect() returns (entries: array<Entry>)
      requires Valid()
      ensures fresh(entries) && Pairwise(entries[..]) && Holds(entries[..], txById)
    {
      var list: seq<Entry>, todo := [], txById.Keys;
      while todo != {}
        invariant todo <= txById.Keys && Pairwise(list)
        invariant forall e :: e in list ==> e.tx.id in txById && e.tx.id !in todo && txById[e.tx.id] == e
        invariant forall id :: id in txById && id !in todo ==> txById[id] in list
        decreases |todo|
      {
        var id :| id in todo;
        assert txById[id].tx.id == id;
        list, todo := list + [txById[id]], todo - {id};
      }
      entries := new Entry[|list|](i requires 0 <= i < |list| => list[i]);
      assert entries[..] == list;
    }

    /** Picks transactions for a block, best fee rate first, skipping those that no longer fit. */
    method GetTransactionsForBlock(maxSize: nat, maxCount: nat) returns (chosen: seq<Entry>)
      requires Valid()
      ensures |chosen| <= maxCount && SizeSum(chosen) <= maxSize
      ensures Pairwise(chosen) && Descending(chosen)
      ensures forall e :: e in chosen ==> e.tx.id in txById && txById[e.tx.id] == e
      ensures |chosen| < maxCount ==>
        forall id :: id in txById && txById[id] !in chosen ==> SizeSum(chosen) + txById[id].size > maxSize
      ensures forall id :: id in txById && txById[id] !in chosen ==> exists m :: Outbid(chosen, txById[id], maxSize, maxCount, m)
    {
      var entries := Collect();
      SortByRate(entries);
      chosen := Pick(entries[..], maxSize, maxCount);
    }

    lemma EntryPosition(e: Entry)
      requires Valid() && e in queue.items
      ensures 0 <= e.index < |queue.items| && queue.items[e.index] == e
    {
      var i :| 0 <= i < |queue.items| && queue.items[i] == e;
    }
  }

  /** Every entry left is an entry there was. */
  ghost predicate Kept(byId: map<Hash, Entry>, byId': map<Hash, Entry>) {
    forall id :: id in byId' ==> id in byId && byId'[id] == byId[id]
  }

  ghost predicate Rejoins(e: Entry, txs: seq<Tx>, sizes: seq<nat>, fees: seq<nat>, now: int, i: int) {
    0 <= i < |txs| && i < |sizes| && i < |fees| && e.tx == txs[i] && sizes[i] > 0 && Records(e, fees[i] / sizes[i], sizes[i], now)
  }

  /** Every new entry is made of a transaction of the list, with its size and fee rate, now. */
  ghost predicate Rejoined(byId: map<Hash, Entry>, byId': map<Hash, Entry>, txs: seq<Tx>, sizes: seq<nat>, fees: seq<nat>, now: int) {
    forall id :: id in byId' && id !in byId ==> exists i :: Rejoins(byId'[id], txs, sizes, fees, now, i)
  }

  lemma RejoinedStep(byId0: map<Hash, Entry>, byId: map<Hash, Entry>, byId': map<Hash, Entry>,
                     txs: seq<Tx>, sizes: seq<nat>, fees: seq<nat>, now: int, i: nat)
    requires Rejoined(byId0, byId, txs, sizes, fees, now) && Kept(byId', byId)
    requires i < |txs| == |sizes| == |fees| && sizes[i] > 0 && byId'.Keys <= byId.Keys + {txs[i].id}
    requires txs[i].id !in byId && txs[i].id in byId' ==>
      byId'[txs[i].id].tx == txs[i] && Records(byId'[txs[i].id], fees[i] / sizes[i], sizes[i], now)
    ensures Rejoined(byId0, byId', txs, sizes, fees, now)
  {
    forall id | id in byId' && id !in byId0 ensures exists j :: Rejoins(byId'[id], txs, sizes, fees, now, j) {
      if id !in byId {
        assert Rejoins(byId'[id], txs, sizes, fees, now, i);
      } else {
        var j :| Rejoins(byId[id], txs, sizes, fees, now, j);
        assert Rejoins(byId'[id], txs, sizes, fees, now, j);
      }
    }
  }

  /** The bytes that the listed entries take. */
  ghost function Freed(byId: map<Hash, Entry>, ids: seq<Hash>): int {
    if ids == [] then 0
    else Freed(byId, ids[..|ids| - 1]) + if ids[|ids| - 1] in byId then byId[ids[|ids| - 1]].size else 0
  }

  /** Eviction j took an oldest entry, of a lower fee rate, while there was no room: the pool was
      full at the first eviction, or there were too few bytes left. */
  ghost predicate EvictedAt(byId: map<Hash, Entry>, total: int, rate: nat, size: nat, config: Config, ids: seq<Hash>, j: int)
    requires 0 <= j < |ids|
  {
    && IsOldest(byId - Elements(ids[..j]), ids[j]) && byId[ids[j]].feeRate < rate
    && ((j == 0 && |byId.Keys| >= config.maxSize) || total - Freed(byId, ids[..j]) + size > config.maxBytes)
  }

  /** Exactly the listed entries are gone, each for want of room. */
  ghost predicate Evicted(byId: map<Hash, Entry>, total: int, rate: nat, size: nat, config: Config, ids: seq<Hash>,
                          byId': map<Hash, Entry>, total': int) {
    && byId' == byId - Elements(ids) && total' == total - Freed(byId, ids)
    && forall j {:trigger EvictedAt(byId, total, rate, size, config, ids, j)} :: 0 <= j < |ids| ==>
         EvictedAt(byId, total, rate, size, config, ids, j)
  }

  /** There is nothing to evict, or an oldest entry pays as much. */
  ghost predicate Stuck(byId: map<Hash, Entry>, rate: nat) {
    byId == map[] || exists id :: IsOldest(byId, id) && byId[id].feeRate >= rate
  }

  lemma NoneEvicted(byId: map<Hash, Entry>, total: int, rate: nat, size: nat, config: Config)
    ensures Evicted(byId, total, rate, size, config, [], byId, total)
  {
    assert byId - Elements<Hash>([]) == byId;
  }

  lemma EvictedStep(byId: map<Hash, Entry>, total: int, rate: nat, size: nat, config: Config, ids: seq<Hash>,
                    byId': map<Hash, Entry>, total': int, id: Hash)
    requires Evicted(byId, total, rate, size, config, ids, byId', total')
    requires IsOldest(byId', id) && byId'[id].feeRate < rate
    requires (ids == [] && |byId.Keys| >= config.maxSize) || total' + size > config.maxBytes
    ensures Evicted(byId, total, rate, size, config, ids + [id], byId' - {id}, total' - byId'[id].size)
  {
    var more := ids + [id];
    assert more[..|ids|] == ids;
    assert Elements(more) == Elements(ids) + {id};
    forall j | 0 <= j < |more| ensures EvictedAt(byId, total, rate, size, config, more, j) {
      assert more[..j] == ids[..j];
      if j < |ids| { assert EvictedAt(byId, total, rate, size, config, ids, j); } else { assert ids[..j] == ids; }
    }
  }

  lemma EvictedShrinks(byId: map<Hash, Entry>, total: int, rate: nat, size: nat, config: Config, ids: seq<Hash>,
                       byId': map<Hash, Entry>, total': int)
    requires Evicted(byId, total, rate, size, config, ids, byId', total')
    ensures Shrunk(byId, byId', rate)
  {
    forall id | id in byId && id !in byId' ensures byId[id].feeRate < rate {
      var j :| 0 <= j < |ids| && ids[j] == id;
      assert EvictedAt(byId, total, rate, size, config, ids, j);
    }
  }

  /** With room for one more nothing is evicted. */
  lemma RoomEvictsNone(byId: map<Hash, Entry>, total: int, rate: nat, size: nat, config: Config, ids: seq<Hash>,
                       byId': map<Hash, Entry>, total': int)
    requires Evicted(byId, total, rate, size, config, ids, byId', total')
    ensures |byId.Keys| < config.maxSize && total + size <= config.maxBytes ==> ids == []
  {
    if ids != [] {
      assert EvictedAt(byId, total, rate, size, config, ids, 0);
      assert ids[..0] == [];
    }
  }

  ghost predicate IsOldest(byId: map<Hash, Entry>, id: Hash) {
    id in byId && forall k :: k in byId ==> byId[id].addedAt <= byId[k].addedAt
  }

  function Expired(byId: map<Hash, Entry>, cutoff: int): set<Hash> {
    set id | id in byId && byId[id].addedAt < cutoff
  }

  method ExpiredIds(byId: map<Hash, Entry>, cutoff: int) returns (ids: seq<Hash>)
    ensures Elements(ids) == Expired(byId, cutoff) && |ids| == |Expired(byId, cutoff)|
  {
    var todo := byId.Keys;
    ids := [];
    while todo != {}
      invariant todo <= byId.Keys && NoDup(ids)
      invariant forall k :: k in ids <==> k in byId && k !in todo && byId[k].addedAt < cutoff
      decreases |todo|
    {
      var id :| id in todo;
      if byId[id].addedAt < cutoff {
        assert (ids + [id])[..|ids|] == ids;
        ids := ids + [id];
      }
      todo := todo - {id};
    }
    NoDupCard(ids);
  }

  // ---------------------------------------------------------------- choosing for a block

  /** The list holds exactly the entries of the pool. */
  ghost predicate Holds(list: seq<Entry>, byId: map<Hash, Entry>) {
    && (forall e :: e in list ==> e.tx.id in byId && byId[e.tx.id] == e)
    && (forall id :: id in byId ==> byId[id] in list)
  }

  ghost predicate Descending(s: seq<Entry>) {
    forall i, j :: 0 <= i < j < |s| ==> s[i].feeRate >= s[j].feeRate
  }

  /** The first i entries are in place. */
  ghost predicate PlacedTo(s: seq<Entry>, i: nat)
    requires i <= |s|
  {
    forall a, b :: 0 <= a < i && a < b < |s| ==> s[a].feeRate >= s[b].feeRate
  }

  ghost predicate BestSoFar(s: seq<Entry>, i: nat, j: nat)
    requires i < j <= |s|
  {
    forall b :: i < b < j ==> s[i].feeRate >= s[b].feeRate
  }

  lemma ExchangeStep(s: seq<Entry>, i: nat, j: nat)
    requires i < j < |s| && PlacedTo(s, i) && BestSoFar(s, i, j) && s[j].feeRate > s[i].feeRate && Pairwise(s)
    ensures var t := Swapped(s, i, j); PlacedTo(t, i) && BestSoFar(t, i, j + 1) && Pairwise(t) && Rearranged(s, t, |s|)
  {
    SwappedMembers(s, i, j);
  }

  lemma RearrangedTrans(s: seq<Entry>, t: seq<Entry>, u: seq<Entry>)
    requires Rearranged(s, t, |s|) && Rearranged(t, u, |t|)
    ensures Rearranged(s, u, |s|)
  {
  }

  /** The exchange sort by falling fee rate. */
  method SortByRate(a: array<Entry>)
    requires Pairwise(a[..])
    modifies a
    ensures Descending(a[..]) && Pairwise(a[..]) && Rearranged(old(a[..]), a[..], a.Length)
  {
    ghost var s0 := a[..];
    var i := 0;
    while i < a.Length - 1
      invariant 0 <= i <= a.Length && PlacedTo(a[..], i) && Pairwise(a[..]) && Rearranged(s0, a[..], a.Length)
      invariant a.Length > 0 ==> i <= a.Length - 1
    {
      for j := i + 1 to a.Length
        invariant PlacedTo(a[..], i) && BestSoFar(a[..], i, j) && Pairwise(a[..]) && Rearranged(s0, a[..], a.Length)
      {
        if a[j].feeRate > a[i].feeRate {
          ghost var s := a[..];
          ExchangeStep(s, i, j);
          RearrangedTrans(s0, s, Swapped(s, i, j));
          a[i], a[j] := a[j], a[i];
          assert a[..] == Swapped(s, i, j);
        }
      }
      i := i + 1;
    }
  }

  ghost function SizeSum(s: seq<Entry>): nat {
    if s == [] then 0 else SizeSum(s[..|s| - 1]) + s[|s| - 1].size
  }

  /** Takes entries in order while they fit. */
  method Pick(entries: seq<Entry>, maxSize: nat, maxCount: nat) returns (chosen: seq<Entry>)
    requires Pairwise(entries) && Descending(entries)
    ensures |chosen| <= maxCount && SizeSum(chosen) <= maxSize && Pairwise(chosen) && Descending(chosen)
    ensures forall e :: e in chosen ==> e in entries
    ensures forall e :: e in entries && e !in chosen ==> exists m :: Outbid(chosen, e, maxSize, maxCount, m)
    ensures |chosen| < maxCount ==> forall e :: e in entries && e !in chosen ==> SizeSum(chosen) + e.size > maxSize
  {
    chosen := [];
    var total, k := 0, 0;
    while k < |entries| && |chosen| < maxCount
      invariant 0 <= k <= |entries| && |chosen| <= maxCount && total == SizeSum(chosen) <= maxSize
      invariant Chosen(entries, k, chosen)
      invariant Skipped(entries, k, chosen, total, maxSize)
      invariant OutbidTo(entries, k, chosen, maxSize, maxCount)
    {
      if total + entries[k].size <= maxSize {
        ChosenStep(entries, k, chosen);
        OutbidTaken(entries, k, chosen, maxSize, maxCount);
        SkippedStep(entries, k, chosen, total, maxSize);
        SizeSumAppend(chosen, entries[k]);
        chosen, total := chosen + [entries[k]], total + entries[k].size;
      } else {
        PassedOver(entries, k, chosen, total, maxSize);
        OutbidPassed(entries, k, chosen, maxSize, maxCount);
      }
      k := k + 1;
    }
    PickDone(entries, k, chosen, total, maxSize);
    OutbidDone(entries, k, chosen, maxSize, maxCount);
  }

  /** The first m choices pay at least as much as e and leave it no place or no space. */
  ghost predicate Outbid(chosen: seq<Entry>, e: Entry, maxSize: nat, maxCount: nat, m: int) {
    && 0 <= m <= |chosen| && (forall c :: 0 <= c < m ==> chosen[c].feeRate >= e.feeRate)
    && (m == maxCount || SizeSum(chosen[..m]) + e.size > maxSize)
  }

  ghost predicate OutbidTo(entries: seq<Entry>, k: nat, chosen: seq<Entry>, maxSize: nat, maxCount: nat)
    requires k <= |entries|
  {
    forall i :: 0 <= i < k && entries[i] !in chosen ==> exists m :: Outbid(chosen, entries[i], maxSize, maxCount, m)
  }

  lemma OutbidLater(chosen: seq<Entry>, more: Entry, e: Entry, maxSize: nat, maxCount: nat, m: int)
    requires Outbid(chosen, e, maxSize, maxCount, m)
    ensures Outbid(chosen + [more], e, maxSize, maxCount, m)
  {
    assert (chosen + [more])[..m] == chosen[..m];
  }

  lemma OutbidTaken(entries: seq<Entry>, k: nat, chosen: seq<Entry>, maxSize: nat, maxCount: nat)
    requires k < |entries| && OutbidTo(entries, k, chosen, maxSize, maxCount)
    ensures OutbidTo(entries, k + 1, chosen + [entries[k]], maxSize, maxCount)
  {
    var next := chosen + [entries[k]];
    forall i | 0 <= i < k + 1 && entries[i] !in next ensures exists m :: Outbid(next, entries[i], maxSize, maxCount, m) {
      assert entries[k] in next;
      var m :| Outbid(chosen, entries[i], maxSize, maxCount, m);
      OutbidLater(chosen, entries[k], entries[i], maxSize, maxCount, m);
    }
  }

  lemma OutbidPassed(entries: seq<Entry>, k: nat, chosen: seq<Entry>, maxSize: nat, maxCount: nat)
    requires k < |entries| && Descending(entries) && Chosen(entries, k, chosen) && OutbidTo(entries, k, chosen, maxSize, maxCount)
    requires SizeSum(chosen) + entries[k].size > maxSize
    ensures OutbidTo(entries, k + 1, chosen, maxSize, maxCount)
  {
    AllPayMore(entries, k, chosen, k);
    assert chosen[..|chosen|] == chosen;
    assert Outbid(chosen, entries[k], maxSize, maxCount, |chosen|);
  }

  /** What was chosen among the first k entries pays at least as much as any later one. */
  lemma AllPayMore(entries: seq<Entry>, k: nat, chosen: seq<Entry>, i: nat)
    requires k <= i < |entries| && Descending(entries) && Chosen(entries, k, chosen)
    ensures forall c :: 0 <= c < |chosen| ==> chosen[c].feeRate >= entries[i].feeRate
  {
    forall c | 0 <= c < |chosen| ensures chosen[c].feeRate >= entries[i].feeRate { assert Among(entries, k, chosen[c]); }
  }

  lemma OutbidDone(entries: seq<Entry>, k: nat, chosen: seq<Entry>, maxSize: nat, maxCount: nat)
    requires k <= |entries| && Descending(entries) && Chosen(entries, k, chosen) && OutbidTo(entries, k, chosen, maxSize, maxCount)
    requires k == |entries| || |chosen| == maxCount
    ensures forall e :: e in entries && e !in chosen ==> exists m :: Outbid(chosen, e, maxSize, maxCount, m)
  {
    forall i | 0 <= i < |entries| && entries[i] !in chosen ensures exists m :: Outbid(chosen, entries[i], maxSize, maxCount, m) {
      if i >= k {
        AllPayMore(entries, k, chosen, i);
        assert Outbid(chosen, entries[i], maxSize, maxCount, |chosen|);
      }
    }
  }

  lemma SizeSumAppend(s: seq<Entry>, e: Entry)
    ensures SizeSum(s + [e]) == SizeSum(s) + e.size
  {
    assert (s + [e])[..|s|] == s;
  }

  lemma PassedOver(entries: seq<Entry>, k: nat, chosen: seq<Entry>, total: nat, maxSize: nat)
    requires k < |entries| && Chosen(entries, k, chosen) && Skipped(entries, k, chosen, total, maxSize) && total + entries[k].size > maxSize
    ensures Chosen(entries, k + 1, chosen) && Skipped(entries, k + 1, chosen, total, maxSize)
  {
    forall c | 0 <= c < |chosen| ensures Among(entries, k + 1, chosen[c]) { assert Among(entries, k, chosen[c]); }
  }

  lemma PickDone(entries: seq<Entry>, k: nat, chosen: seq<Entry>, total: nat, maxSize: nat)
    requires k <= |entries| && Chosen(entries, k, chosen) && Skipped(entries, k, chosen, total, maxSize)
    ensures forall e :: e in chosen ==> e in entries
    ensures k == |entries| ==> forall e :: e in entries && e !in chosen ==> total + e.size > maxSize
  {
    forall e | e in chosen ensures e in entries {
      var c :| 0 <= c < |chosen| && chosen[c] == e;
      assert Among(entries, k, chosen[c]);
    }
  }

  ghost predicate Among(entries: seq<Entry>, k: nat, e: Entry)
    requires k <= |entries|
  {
    exists i :: 0 <= i < k && entries[i] == e
  }

  /** Whatever was passed over among the first k entries does not fit beside the choice. */
  ghost predicate Skipped(entries: seq<Entry>, k: nat, chosen: seq<Entry>, total: nat, maxSize: nat)
    requires k <= |entries|
  {
    forall i :: 0 <= i < k && entries[i] !in chosen ==> total + entries[i].size > maxSize
  }

  lemma SkippedStep(entries: seq<Entry>, k: nat, chosen: seq<Entry>, total: nat, maxSize: nat)
    requires k < |entries| && Skipped(entries, k, chosen, total, maxSize)
    ensures Skipped(entries, k + 1, chosen + [entries[k]], total + entries[k].size, maxSize)
  {
    var next := chosen + [entries[k]];
    forall i | 0 <= i < k + 1 && entries[i] !in next ensures entries[i] !in chosen && i < k {
      assert entries[k] in next;
    }
  }

  /** The choice so far comes from the first k entries, in their order. */
  ghost predicate Chosen(entries: seq<Entry>, k: nat, chosen: seq<Entry>)
    requires k <= |entries|
  {
    && Pairwise(chosen) && Descending(chosen)
    && forall c {:trigger Among(entries, k, chosen[c])} :: 0 <= c < |chosen| ==> Among(entries, k, chosen[c])
  }

  lemma ChosenStep(entries: seq<Entry>, k: nat, chosen: seq<Entry>)
    requires k < |entries| && Pairwise(entries) && Descending(entries) && Chosen(entries, k, chosen)
    ensures Chosen(entries, k + 1, chosen + [entries[k]])
  {
    var next := chosen + [entries[k]];
    forall c | 0 <= c < |chosen| ensures next[c] != entries[k] && next[c].feeRate >= entries[k].feeRate {
      assert Among(entries, k, chosen[c]);
    }
    forall c | 0 <= c < |next| ensures Among(entries, k + 1, next[c]) {
      if c < |chosen| { assert Among(entries, k, chosen[c]); } else { assert entries[k] == next[c]; }
    }
  }

  ghost predicate Records(e: Entry, feeRate: nat, size: nat, addedAt: int) {
    e.feeRate == feeRate && e.size == size && e.addedAt == addedAt
  }

  datatype Admission = Known | Added | Refused

  /** Some pooled transaction uses one of the images of tx. */
  ghost predicate Conflicting(pool: Contents, tx: Tx) {
    exists x :: x in tx.images && Uses(pool, x)
  }

  /** Everything but fee rate and space speaks for tx. */
  ghost predicate Acceptable(pool: Contents, tx: Tx, wellFormed: bool, validated: bool) {
    wellFormed && !tx.IsCoinbase() && tx.id !in pool && !Conflicting(pool, tx) && validated
  }

  lemma NoConflictLeft(byId: map<Hash, Entry>, byId': map<Hash, Entry>, items: seq<Entry>, byImage: map<KeyImage, Hash>, tx: Tx)
    requires !Conflicting(ContentsOf(byId), tx) && forall id :: id in byId' ==> id in byId && byId'[id] == byId[id]
    requires Filed(byId', items) && IndexExact(ContentsOf(byId'), byImage)
    ensures forall x :: x in tx.images ==> x !in byImage
  {
    forall x | x in byImage ensures Uses(ContentsOf(byId), x) {
      assert ContentsOf(byId)[byImage[x]] == ContentsOf(byId')[byImage[x]];
    }
  }

  /** The pool restricted to some ids. */
  ghost function OnlyIds(pool: Contents, ids: set<Hash>): Contents {
    map id | id in pool && id in ids :: pool[id]
  }

  /** Every entry that is gone had a fee rate below `rate`. */
  ghost predicate EvictedBelow(byId: map<Hash, Entry>, byId': map<Hash, Entry>, rate: nat) {
    forall id :: id in byId && id !in byId' ==> byId[id].feeRate < rate
  }

  ghost predicate Shrunk(byId: map<Hash, Entry>, byId': map<Hash, Entry>, rate: nat) {
    (forall id :: id in byId' ==> id in byId && byId'[id] == byId[id]) && EvictedBelow(byId, byId', rate)
  }

  lemma OnlyAll(byId: map<Hash, Entry>)
    ensures OnlyIds(ContentsOf(byId), byId.Keys) == ContentsOf(byId)
  {
  }

  lemma ShrunkContents(byId: map<Hash, Entry>, byId': map<Hash, Entry>, rate: nat)
    requires Shrunk(byId, byId', rate)
    ensures ContentsOf(byId') == OnlyIds(ContentsOf(byId), byId'.Keys)
  {
  }

  lemma InsertedContents(byId0: map<Hash, Entry>, byId1: map<Hash, Entry>, byId2: map<Hash, Entry>, tx: Tx, rate: nat)
    requires Shrunk(byId0, byId1, rate) && tx.id !in byId0 && byId2.Keys == byId1.Keys + {tx.id}
    requires ContentsOf(byId2) == ContentsOf(byId1)[tx.id := tx] && forall id :: id in byId1 ==> byId2[id] == byId1[id]
    ensures ContentsOf(byId2) == OnlyIds(ContentsOf(byId0), byId2.Keys - {tx.id})[tx.id := tx]
    ensures EvictedBelow(byId0, byId2, rate) && |byId2.Keys| == |byId1.Keys| + 1 && byId2 - {tx.id} == byId1
  {
    assert tx.id !in byId1;
    ShrunkContents(byId0, byId1, rate);
    assert byId2.Keys - {tx.id} == byId1.Keys;
  }

  lemma EmptyQueue(byId: map<Hash, Entry>, items: seq<Entry>)
    requires Filed(byId, items)
    ensures items == [] ==> byId == map[] && Total(Members(items)) == 0
  {
    assert items == [] ==> byId.Keys == {};
  }

  lemma FiledIds(byId: map<Hash, Entry>, items: seq<Entry>)
    requires Filed(byId, items)
    ensures forall id :: id in ContentsOf(byId) ==> ContentsOf(byId)[id].id == id
  {
  }

  method Indexed(m: map<KeyImage, Hash>, images: seq<KeyImage>, id: Hash) returns (r: map<KeyImage, Hash>)
    ensures r.Keys == m.Keys + Elements(images)
    ensures forall x :: x in r ==> r[x] == if x in images then id else m[x]
  {
    r := m;
    for i := 0 to |images|
      invariant r.Keys == m.Keys + Elements(images[..i])
      invariant forall x :: x in r ==> r[x] == if x in images[..i] then id else m[x]
    {
      r := r[images[i] := id];
    }
    assert images[..|images|] == images;
  }

  method Unindexed(m: map<KeyImage, Hash>, images: seq<KeyImage>) returns (r: map<KeyImage, Hash>)
    ensures r == m - Elements(images)
  {
    r := m;
    for i := 0 to |images|
      invariant r == m - Elements(images[..i])
    {
      r := r - {images[i]};
    }
    assert images[..|images|] == images;
  }
}
