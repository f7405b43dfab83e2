/** The daemon's two entry points (daemon.go): a block is processed and the mempool brought in
    step under one lock; a transaction is admitted between such changes. */
module Daemon {
  import opened Blocks
  import opened ChainModel
  import opened Storage
  import opened Fork
  import opened Adoption
  import opened Pool
  import opened Queue
  import opened N = Node
  import opened Recovery
  import Chain
  import Mempool
  import Reorg

  /** The cache is smaller than the walk is long, or no larger and holds the recent chain. */
  ghost predicate SmallCache(chain: Chain.Chain)
    reads chain, chain.cache
  {
    chain.cache.cap < Reorg.MAX_WALK || (chain.cache.cap == Reorg.MAX_WALK && chain.Window())
  }

  lemma NoneMissed(pool: Contents, spent: set<KeyImage>, s: State, e: Event)
    requires CleanBut(pool, spent, Missed(s, e))
    requires Inv(s) && (e.Adopt? ==> Attached(s, e.b) && BranchLength(s, e.b) < Reorg.MAX_WALK)
    ensures Clean(pool, spent)
  {
    assert Missed(s, e) == {};
  }

  lemma StaysClean(pool: Contents, s: State, e: Event, s': State, ids: set<Hash>)
    requires Inv(s) && ChainModel.Next(s, e, s') && Clean(pool, Spent(s))
    ensures Inv(s') && CleanBut(AppliedAll(pool, UpdatesOf(s, e), Spent(s'), ids), Spent(s'), Missed(s, e))
  {
    SpentGrows(s, e, s');
    AppliedClean(pool, UpdatesOf(s, e), Spent(s'), ids, Missed(s, e));
  }

  lemma FollowsUp(s: State, b: Block, s': State, pool: Contents, byId: map<Hash, Entry>, now: int, cutoff: int, ids: set<Hash>)
    requires Inv(s) && ChainModel.Next(s, Adopt(b), s') && Inv(s')
    requires Unexpired(AppliedAll(pool, Changes(s, b), Spent(s'), {}), byId, now, cutoff, ids)
    ensures Followed(s, b, pool, byId, Spent(s'), now, cutoff, AppliedAll(pool, Updates(s, b), Spent(s'), ids))
  {
    ChainModel.NextInv(s, Adopt(b), s');
    UpdateFollows(s, b, pool, byId, Spent(s'), now, cutoff, ids);
  }

  /** The chain's part: it leaves the pool alone and says what the mempool update needs. */
  method Process(chain: Chain.Chain, pool: Mempool.Mempool, b: Block, warm: bool)
    returns (r: Outcome, bs: map<Hash, Block>, spent: set<KeyImage>)
    requires chain.Valid() && pool.Valid()
    modifies chain, chain.store, chain.cache
    ensures chain.Valid() && ChainModel.Next(old(chain.Abs()), StepOf(r, b), chain.Abs())
    ensures pool.Valid() && pool.Contents() == old(pool.Contents()) && pool.txById == old(pool.txById)
    ensures bs == chain.Abs().blocks && spent == Spent(chain.Abs())
    ensures r == OnMain && old(SmallCache(chain)) ==> BranchLength(old(chain.Abs()), b) < Reorg.MAX_WALK
  {
    r := chain.ProcessBlock(b, true, warm);
    bs, spent := chain.store.blocks, chain.store.keyImages.Keys;
    SpentMapKeys(Main(chain.Abs()));
  }

  /** The mempool's part, once b has become the tip: it leaves the chain alone. */
  method Follow(chain: Chain.Chain, pool: Mempool.Mempool, bs: map<Hash, Block>, b: Block, previousBest: Hash,
                spent: set<KeyImage>, m: Measure, now: int, cutoff: int, ghost s: State)
    returns (ghost ids: set<Hash>)
    requires chain.Valid() && pool.Valid() && forall tx: Tx :: m.size(tx) > 0
    requires Inv(s) && Joins(s, b) && FinalityAllows(s, b) && bs == WithBlock(s, b) && previousBest == s.tip
    modifies pool, pool.queue, pool.frame
    ensures chain.Valid() && chain.Abs() == old(chain.Abs())
    ensures pool.Valid() && pool.Contents() == AppliedAll(old(pool.Contents()), Updates(s, b), spent, ids)
    ensures Unexpired(AppliedAll(old(pool.Contents()), Changes(s, b), spent, {}), old(pool.txById), now, cutoff, ids)
  {
    ids := UpdateMempool(pool, bs, b, previousBest, spent, m, now, cutoff, s);
  }

  /** Both parts: one step of the chain and the updates it causes. */
  method ProcessThenFollow(chain: Chain.Chain, pool: Mempool.Mempool, b: Block, warm: bool, m: Measure, now: int, cutoff: int)
    returns (r: Outcome, ghost ids: set<Hash>)
    requires chain.Valid() && pool.Valid() && forall tx: Tx :: m.size(tx) > 0
    modifies chain, chain.store, chain.cache, pool, pool.queue, pool.frame
    ensures chain.Valid() && pool.Valid()
    ensures ChainModel.Next(old(chain.Abs()), StepOf(r, b), chain.Abs())
    ensures pool.Contents() == AppliedAll(old(pool.Contents()), UpdatesOf(old(chain.Abs()), StepOf(r, b)), Spent(chain.Abs()), ids)
    ensures r == OnMain && old(SmallCache(chain)) ==> BranchLength(old(chain.Abs()), b) < Reorg.MAX_WALK
    ensures r == OnMain ==>
      Unexpired(AppliedAll(old(pool.Contents()), Changes(old(chain.Abs()), b), Spent(chain.Abs()), {}), old(pool.txById), now, cutoff, ids)
  {
    ghost var s := chain.Abs();
    var previousBest := chain.bestHash;
    var bs, spent;
    r, bs, spent := Process(chain, pool, b, warm);
    ids := {};
    if r == OnMain {
      AdmitGood(s, b);
      ids := Follow(chain, pool, bs, b, previousBest, spent, m, now, cutoff, s);
    }
  }

  /** Processes a block and brings the mempool in step. The pool holds what the chain step and its
      updates leave, and is as clean of spent images as it was, but for the ones a switch beyond
      the walk's reach does not announce. With a cache smaller than the walk is long, or as long as
      it with the recent chain cached, there are none. */
  method HandleBlock(chain: Chain.Chain, pool: Mempool.Mempool, b: Block, warm: bool, m: Measure, now: int, cutoff: int)
    returns (r: Outcome, ghost ids: set<Hash>)
    requires chain.Valid() && pool.Valid() && forall tx: Tx :: m.size(tx) > 0
    modifies chain, chain.store, chain.cache, pool, pool.queue, pool.frame
    ensures chain.Valid() && pool.Valid()
    ensures ChainModel.Next(old(chain.Abs()), StepOf(r, b), chain.Abs())
    ensures pool.Contents() == AppliedAll(old(pool.Contents()), UpdatesOf(old(chain.Abs()), StepOf(r, b)), Spent(chain.Abs()), ids)
    ensures old(Clean(pool.Contents(), Spent(chain.Abs()))) ==>
      CleanBut(pool.Contents(), Spent(chain.Abs()), Missed(old(chain.Abs()), StepOf(r, b)))
    ensures old(Clean(pool.Contents(), Spent(chain.Abs())) && SmallCache(chain)) ==> Clean(pool.Contents(), Spent(chain.Abs()))
    ensures r != OnMain ==> pool.Contents() == old(pool.Contents())
    ensures r == OnMain ==>
      Followed(old(chain.Abs()), b, old(pool.Contents()), old(pool.txById), Spent(chain.Abs()), now, cutoff, pool.Contents())
  {
    ghost var s, before, byId := chain.Abs(), pool.Contents(), pool.txById;
    r, ids := ProcessThenFollow(chain, pool, b, warm, m, now, cutoff);
    if r == OnMain { FollowsUp(s, b, chain.Abs(), before, byId, now, cutoff, ids); }
    if Clean(before, Spent(s)) {
      StaysClean(before, s, StepOf(r, b), chain.Abs(), ids);
      if r == OnMain ==> BranchLength(s, b) < Reorg.MAX_WALK { NoneMissed(pool.Contents(), Spent(chain.Abs()), s, StepOf(r, b)); }
    }
  }

  /** The last step of admitting a transaction whose images have all been checked, whatever its
      outcome, is a step of the node. */
  method FinishAdding(pool: Mempool.Mempool, tx: Tx, wellFormed: bool, validated: bool, fee: nat, size: nat, now: int, ghost n: N.Node)
    returns (r: Mempool.Admission, ghost ids: set<Hash>)
    requires pool.Valid() && size > 0 && Inv(n.chain)
    requires n.pool == pool.Contents() && n.adding == Some(Adding(tx, |tx.images|))
    modifies pool, pool.queue, pool.frame
    ensures pool.Valid() && fresh(pool.frame - old(pool.frame))
    ensures N.Next(n, Finish(r == Mempool.Added, ids), n.(pool := pool.Contents(), adding := None))
  {
    ghost var evicted;
    r, evicted := pool.AddTransaction(tx, wellFormed, validated, fee, size, now);
    ids := if r == Mempool.Known then n.pool.Keys else if r == Mempool.Added then pool.txById.Keys - {tx.id} else pool.txById.Keys;
    assert Mempool.OnlyIds(n.pool, n.pool.Keys) == n.pool;
  }
}
