/** The chain (block.go): fork choice over the store, with in-memory indexes and the block
    cache. Every operation is proved to take the corresponding step of ChainModel. */
module Chain {
  import opened Words
  import opened Seqs
  import opened Blocks
  import opened Lwma
  import opened ChainModel
  import opened Storage
  import opened Cache
  import opened Median
  import opened Fork
  import opened Serving
  import opened Branch
  import opened Adoption
  import opened Loading
  import Audit

  class Chain {
    const store: Store
    const cache: BlockCache

    var byHeight: map<nat, Hash>
    var bestHash: Hash
    var height: nat
    var totalWork: nat
    var keyImages: map<KeyImage, nat>

    /** An empty chain over a store; Load or AddGenesis makes it usable. */
    constructor (store: Store, capSetting: int)
      ensures this.store == store && fresh(cache) && Blank()
    {
      this.store := store;
      cache := new BlockCache(CapFromEnv(capSetting));
      byHeight, bestHash, height, totalWork, keyImages := map[], 0, 0, 0, map[];
    }

    /** Nothing has been loaded yet. */
    ghost predicate Blank()
      reads this, cache
    {
      cache.Valid() && cache.view == View(map[], map[], []) && byHeight == map[] && keyImages == map[]
    }

    ghost function Here(): Pins
      reads this
    {
      Pins(byHeight, height)
    }

    /** The cache holds known blocks only, and everything stored is known. */
    ghost predicate CacheOk(known: map<Hash, Block>)
      reads this, store, cache
    {
      && cache.Valid()
      && GoodStore(known) && Linked(store.blocks) && Sub(store.blocks, known) && Agrees(cache.view, known)
      && Here().Bounded()
    }

    /** A block by hash, from the cache or else from the store, which then caches it. */
    method Lookup(k: Hash, ghost ctx: Context) returns (r: Option<Block>)
      requires CacheOk(ctx.known)
      modifies cache
      ensures CacheOk(ctx.known)
      ensures r.Some? ==> k in ctx.known && r.value == ctx.known[k]
      ensures k in store.blocks || k in old(cache.view).blocks <==> r.Some?
      ensures Served(old(cache.view), cache.view, Here(), ctx, cache.cap, ctx.Covers(k))
      ensures r.Some? && k != ctx.keep && Unpinned(ctx.keep) ==> Overtaken(old(cache.view), cache.view, ctx.keep, {k})
      ensures k in old(cache.view).blocks || r.None? ==> cache.view.blocks == old(cache.view).blocks
    {
      ghost var v0 := cache.view;
      if k in cache.view.blocks {
        TouchServed(v0, Here(), ctx, cache.cap, k);
        cache.Touch(k);
        r := Some(cache.view.blocks[k]);
      } else if k in store.blocks {
        r := Some(store.blocks[k]);
        CacheBlock(k, store.blocks[k], ctx);
      } else {
        r := None;
      }
    }

    /** The hash is on no indexed height, so it is not pinned. */
    ghost predicate Unpinned(k: Hash)
      reads this
    {
      forall h :: h in byHeight ==> byHeight[h] != k
    }

    method CacheBlock(k: Hash, b: Block, ghost ctx: Context)
      requires CacheOk(ctx.known) && k in ctx.known && ctx.known[k] == b && k !in cache.view.blocks
      modifies cache
      ensures CacheOk(ctx.known)
      ensures Served(old(cache.view), cache.view, Here(), ctx, cache.cap, ctx.Covers(k))
      ensures k != ctx.keep && Unpinned(ctx.keep) ==> Overtaken(old(cache.view), cache.view, ctx.keep, {k})
    {
      ghost var v0 := cache.view;
      AddServed(v0, Here(), ctx, cache.cap, k, b);
      AddAgrees(v0, ctx.known, k);
      cache.AddBlock(k, b);
      ghost var v1 := cache.view;
      Trim(ctx);
      PinsKeptTrans(v0, v1, cache.view, Here());
      if k != ctx.keep && Unpinned(ctx.keep) { LoadOvertakes(v0, cache.view, Here(), ctx.keep, k, b); }
    }

    method Trim(ghost ctx: Context)
      requires CacheOk(ctx.known)
      modifies cache
      ensures CacheOk(ctx.known)
      ensures |cache.view.lru| <= cache.cap
      ensures Trimmed(old(cache.view), cache.view, Here()) && OrderKept(old(cache.view), cache.view, Here())
      ensures Served(old(cache.view), cache.view, Here(), ctx, cache.cap, true)
    {
      ghost var v0 := cache.view;
      cache.Trim(Pins(byHeight, height), ctx.keep, ctx.walk);
      TrimAgrees(v0, cache.view, Here(), ctx.known);
      TrimServed(v0, cache.view, Here(), ctx, cache.cap);
    }

    /** Cumulative work at a block, memoised. */
    method CumulativeWork(k: Hash, ghost ctx: Context) returns (r: Option<nat>)
      requires CacheOk(ctx.known)
      modifies cache
      ensures CacheOk(ctx.known)
      ensures r.Some? ==> WorkRight(ctx.known, k, r.value)
      ensures k in store.blocks ==> r.Some?
      ensures r.Some? ==> k in store.blocks || k in old(cache.view).lru
      ensures PinsKept(old(cache.view), cache.view, Here())
      ensures k in old(cache.view).workAt ==> r.Some? && cache.view == old(cache.view)
      decreases if k in ctx.known then ctx.known[k].height + 1 else 0
    {
      if k in cache.view.workAt { return Some(cache.view.workAt[k]); }
      ghost var v0 := cache.view;
      var b := Lookup(k, ctx);
      if b.None? { return None; }
      WorkStep(ctx.known, k);
      var parentWork := 0;
      if b.value.height > 0 {
        assert k in store.blocks ==> LinkedAt(store.blocks, k);
        ghost var v1 := cache.view;
        var p := CumulativeWork(b.value.prev, ctx);
        PinsKeptTrans(v0, v1, cache.view, Here());
        if p.None? { return None; }
        parentWork := p.value;
      }
      if b.value.difficulty > U64_LIMIT - 1 - parentWork { return None; }
      ghost var v2 := cache.view;
      CacheWork(k, parentWork + b.value.difficulty, ctx);
      PinsKeptTrans(v0, v2, cache.view, Here());
      return Some(parentWork + b.value.difficulty);
    }

    method CacheWork(k: Hash, work: nat, ghost ctx: Context)
      requires CacheOk(ctx.known) && WorkRight(ctx.known, k, work)
      modifies cache
      ensures CacheOk(ctx.known)
      ensures PinsKept(old(cache.view), cache.view, Here())
    {
      ghost var v0 := cache.view;
      AddWorkServed(v0, Here(), ctx, cache.cap, k, work);
      cache.AddWork(k, work);
      ghost var v1 := cache.view;
      Trim(ctx);
      PinsKeptTrans(v0, v1, cache.view, Here());
    }

    // -------------------------------------------------------------- indexes

    /** Memory and store agree wherever memory is defined. */
    ghost predicate Synced()
      reads this, store
    {
      && store.Valid()
      && Sub(byHeight, store.heights) && Sub(keyImages, store.keyImages)
      && bestHash == store.tip && height == store.tipHeight && totalWork == store.tipWork
    }

    ghost predicate Valid()
      reads this, store, cache
    {
      Synced() && CacheOk(store.blocks)
    }

    ghost function Abs(): State
      reads store
    {
      store.Abs()
    }

    /** The main-chain block at a height, from memory or else from the store. */
    function BlockByHeight(h: nat): Option<Block>
      reads this, store, cache
    {
      if h in byHeight && byHeight[h] in cache.view.blocks then Some(cache.view.blocks[byHeight[h]])
      else if h in store.heights && store.heights[h] in store.blocks then Some(store.blocks[store.heights[h]])
      else None
    }

    lemma BlockByHeightIsMain(known: map<Hash, Block>, h: nat)
      requires Synced() && CacheOk(known)
      ensures BlockByHeight(h) == if h <= height then Some(Main(Abs())[h]) else None
    {
      MainIndex(h);
      PathIsChain(store.blocks, store.tip);
    }

    lemma MainIndex(h: nat)
      requires store.Valid()
      ensures h in store.heights <==> h <= store.tipHeight
      ensures h in store.heights ==> store.heights[h] == Main(Abs())[h].hash && Main(Abs())[h].height == h
    {
      PathIsChain(store.blocks, store.tip);
      HeightMapAt(Main(Abs()));
      if h <= store.tipHeight { assert LinkAt(Main(Abs()), h); }
    }

    /** A block that the height index names is on the main chain, with all its ancestors. */
    lemma IndexedOnMain(k: Hash)
      requires Synced() && k in store.blocks
      requires store.blocks[k].height in byHeight && byHeight[store.blocks[k].height] == k
      ensures Path(store.blocks, k) <= Main(Abs())
    {
      var h := store.blocks[k].height;
      MainIndex(h);
      PathPrefix(store.blocks, store.tip, h);
    }

    predicate IsSpent(x: KeyImage)
      reads this, store
    {
      x in keyImages || x in store.keyImages
    }

    /** The spent check is exact: an image is reported spent iff the main chain spends it. */
    lemma SpentExact(x: KeyImage)
      requires Synced()
      ensures IsSpent(x) <==> x in Spent(Abs())
    {
      SpentMapKeys(Main(Abs()));
    }

    // -------------------------------------------------------------- start-up

    /** Where loading starts. */
    function LoadFrom(): nat
      reads this
    {
      if height > PROTECTED_BACK then height - PROTECTED_BACK else 0
    }

    /** Heights lo..n-1 have a stored block, and memory indexes it and none below. */
    ghost predicate IndexedFrom(lo: nat, n: nat)
      reads this, store
    {
      && (forall h :: h in byHeight ==> lo <= h)
      && forall h :: lo <= h < n ==>
        h in store.heights && store.heights[h] in store.blocks && h in byHeight && byHeight[h] == store.heights[h]
    }

    /** Loads the recent main chain. On a store that commits have left consistent it succeeds,
        every cumulative work it caches is the true one, and the recent chain is cached. On any
        other it fails if the block of a recent height is missing. */
    method Load() returns (ok: bool)
      requires Blank()
      modifies this, cache
      ensures !store.found ==> ok && unchanged(this) && unchanged(cache)
      ensures store.Valid() ==> ok && Valid() && Window()
      ensures store.found ==> bestHash == store.tip && height == store.tipHeight && totalWork == store.tipWork
      ensures store.found && ok ==> IndexedFrom(LoadFrom(), height + 1)
    {
      ok := true;
      if store.found {
        ghost var good := store.Valid();
        ghost var p := if good then Main(Abs()) else [];
        bestHash, height, totalWork := store.tip, store.tipHeight, store.tipWork;
        ok := LoadRecent(good, p);
      }
    }

    method LoadRecent(ghost good: bool, ghost p: seq<Block>) returns (ok: bool)
      requires Blank() && bestHash == store.tip && height == store.tipHeight && totalWork == store.tipWork && GoodMain(good, p)
      modifies this`byHeight, this`keyImages, cache
      ensures good ==> ok && Valid() && Window()
      ensures ok ==> IndexedFrom(LoadFrom(), height + 1)
    {
      ok := Preload(LoadFrom(), good, p);
      if ok { ok := FinishLoad(good, p); }
    }

    method FinishLoad(ghost good: bool, ghost p: seq<Block>) returns (ok: bool)
      requires bestHash == store.tip && height == store.tipHeight && totalWork == store.tipWork
      requires GoodMain(good, p) && Reading(good, p, LoadFrom(), height + 1)
      modifies cache
      ensures good ==> ok && Valid() && Window()
    {
      GoodMainChain(good, p);
      TrimPreloaded(good, p);
      ok := RepairWork(good, p);
    }

    /** What holds while blocks lo..n-1 of the main chain p of a good store have been read. */
    ghost predicate Reading(good: bool, p: seq<Block>, lo: nat, n: nat)
      reads this, store, cache
    {
      && cache.Valid() && (forall h :: h in byHeight ==> h <= store.tipHeight)
      && (good ==> Sub(keyImages, store.keyImages) && Loaded(cache.view, byHeight, p, lo, n))
    }

    ghost predicate GoodMain(good: bool, p: seq<Block>)
      reads store
    {
      good ==> store.Valid() && p == Main(Abs())
    }

    method TrimPreloaded(ghost good: bool, ghost p: seq<Block>)
      requires height == store.tipHeight && Reading(good, p, LoadFrom(), height + 1)
      requires good ==> IsChain(p) && |p| == height + 1
      modifies cache
      ensures Reading(good, p, LoadFrom(), height + 1)
    {
      ghost var v0 := cache.view;
      cache.Trim(Pins(byHeight, height), 0, {});
      TrimLoaded(good, v0, cache.view, Here(), p, LoadFrom());
    }

    lemma GoodMainChain(good: bool, p: seq<Block>)
      requires GoodMain(good, p)
      ensures good ==> IsChain(p) && |p| == store.tipHeight + 1
    {
      if good { PathIsChain(store.blocks, store.tip); }
    }

    /** Reads the main-chain blocks from height lo up, with work relative to lo. */
    method Preload(lo: nat, ghost good: bool, ghost p: seq<Block>) returns (ok: bool)
      requires Blank() && lo <= store.tipHeight && GoodMain(good, p)
      modifies this`byHeight, this`keyImages, cache
      ensures cache.Valid() && (good ==> ok)
      ensures ok ==> Reading(good, p, lo, store.tipHeight + 1) && IndexedFrom(lo, store.tipHeight + 1)
    {
      ok := true;
      var h := lo;
      while ok && h <= store.tipHeight
        invariant lo <= h <= store.tipHeight + 1
        invariant cache.Valid() && (good ==> ok) && GoodMain(good, p)
        invariant ok ==> Reading(good, p, lo, h) && IndexedFrom(lo, h)
      {
        ok := LoadNextBlock(h, lo, good, p);
        h := h + 1;
      }
    }

    /** The store of a good chain holds the block at height h, and reading it keeps what was read. */
    ghost predicate NextReads(p: seq<Block>, lo: nat, h: nat)
      reads this, store, cache
    {
      && h in store.heights && store.heights[h] in store.blocks
      && var b := store.blocks[store.heights[h]];
      && var w := ParentWork(cache.view, b, h) + b.difficulty;
      && b.hash == store.heights[h] && w < U64_LIMIT
      && Loaded(LoadedNext(cache.view, b, w), byHeight[h := b.hash], p, lo, h + 1)
      && Sub(Marked(keyImages, b.Images(), h), store.keyImages)
    }

    lemma ReadsNext(good: bool, p: seq<Block>, lo: nat, h: nat)
      requires lo <= h <= store.tipHeight && GoodMain(good, p) && Reading(good, p, lo, h)
      ensures good ==> NextReads(p, lo, h)
    {
      if good { MainStep(lo, h); MainMarks(h); }
    }

    lemma StillLoaded(v0: View, index0: map<nat, Hash>, images0: map<KeyImage, nat>, k: Hash, b: Block, work: nat, lo: nat, h: nat, p: seq<Block>)
      requires Loaded(LoadedUnder(v0, k, b, work), index0[h := k], p, lo, h + 1)
      requires Sub(Marked(images0, b.Images(), h), store.keyImages)
      requires cache.view == LoadedUnder(v0, k, b, work) && byHeight == index0[h := k]
      requires keyImages == Marked(images0, b.Images(), h)
      ensures Loaded(cache.view, byHeight, p, lo, h + 1) && Sub(keyImages, store.keyImages)
    {
    }

    /** Reads the main-chain block at height h. */
    method LoadBlock(h: nat, ghost lo: nat, ghost good: bool, ghost p: seq<Block>) returns (ok: bool)
      requires lo <= h <= store.tipHeight && Reading(good, p, lo, h) && (good ==> NextReads(p, lo, h)) && IndexedFrom(lo, h)
      modifies this`byHeight, this`keyImages, cache
      ensures cache.Valid() && (good ==> ok)
      ensures ok ==> Reading(good, p, lo, h + 1)
      ensures ok ==> IndexedFrom(lo, h + 1)
    {
      ok := false;
      if h in store.heights && store.heights[h] in store.blocks {
        var k := store.heights[h];
        var b := store.blocks[k];
        ghost var v0, index0, images0 := cache.view, byHeight, keyImages;
        ghost var w := ParentWork(v0, b, h) + b.difficulty;
        assert good ==> Loaded(LoadedUnder(v0, k, b, w), index0[h := k], p, lo, h + 1);
        assert good ==> Sub(Marked(images0, b.Images(), h), store.keyImages);
        var work := LoadEntry(cache, k, b, h);
        byHeight := byHeight[h := k];
        if work.Some? {
          keyImages := MarkAll(keyImages, b.Images(), h);
          assert cache.view == LoadedUnder(v0, k, b, w);
          assert byHeight == index0[h := k];
          assert keyImages == Marked(images0, b.Images(), h);
          if good { StillLoaded(v0, index0, images0, k, b, w, lo, h, p); }
          ok := true;
        }
      }
    }

    method LoadNextBlock(h: nat, ghost lo: nat, ghost good: bool, ghost p: seq<Block>) returns (ok: bool)
      requires lo <= h <= store.tipHeight && GoodMain(good, p) && Reading(good, p, lo, h) && IndexedFrom(lo, h)
      modifies this`byHeight, this`keyImages, cache
      ensures cache.Valid() && (good ==> ok) && GoodMain(good, p)
      ensures ok ==> Reading(good, p, lo, h + 1) && IndexedFrom(lo, h + 1)
    {
      ReadsNext(good, p, lo, h);
      ok := LoadBlock(h, lo, good, p);
    }

    lemma MainStep(lo: nat, h: nat)
      requires store.Valid() && lo <= h <= store.tipHeight && Loaded(cache.view, byHeight, Main(Abs()), lo, h)
      ensures h in store.heights && store.heights[h] in store.blocks
      ensures var b := store.blocks[store.heights[h]]; var w := ParentWork(cache.view, b, h) + b.difficulty;
        && b == Main(Abs())[h] && b.hash == store.heights[h] && w < U64_LIMIT
        && Loaded(LoadedNext(cache.view, b, w), byHeight[h := b.hash], Main(Abs()), lo, h + 1)
    {
      MainIndex(h);
      PathNext(store.blocks, store.tip, h);
      LoadNext(cache.view, byHeight, Main(Abs()), lo, h);
    }

    lemma MainMarks(h: nat)
      requires store.Valid() && Sub(keyImages, store.keyImages) && h <= store.tipHeight
      ensures Sub(Marked(keyImages, Main(Abs())[h].Images(), h), store.keyImages)
    {
      PathIsChain(store.blocks, store.tip);
      MainGood(Abs());
      GoodPathNoDup(Main(Abs()));
      MarkedInPlace(keyImages, Main(Abs()), h);
    }

    /** Adds the work below the loaded part to each entry, so that the tip's entry is right. */
    method RepairWork(ghost good: bool, ghost p: seq<Block>) returns (ok: bool)
      requires bestHash == store.tip && height == store.tipHeight && totalWork == store.tipWork
      requires GoodMain(good, p) && Reading(good, p, LoadFrom(), height + 1)
      modifies cache
      ensures good ==> ok && Valid() && Window()
    {
      var computed := if bestHash in cache.view.workAt then cache.view.workAt[bestHash] else 0;
      if good { BelowLoaded(computed, p); }
      ok := false;
      if totalWork >= computed {
        var work := OffsetWork(cache.view.workAt, totalWork - computed);
        if work.Some? {
          InstallWork(work.value, totalWork - computed, good, p);
          ok := true;
        }
      }
    }

    method InstallWork(work: map<Hash, nat>, ghost offset: nat, ghost good: bool, ghost p: seq<Block>)
      requires bestHash == store.tip && height == store.tipHeight && totalWork == store.tipWork
      requires GoodMain(good, p) && Reading(good, p, LoadFrom(), height + 1)
      requires work == Offset(cache.view.workAt, offset) && (good ==> offset == WorkTo(p, LoadFrom()))
      modifies cache
      ensures good ==> Valid() && Window()
    {
      ghost var v0 := cache.view;
      cache.ReplaceWork(work);
      if good { LoadedIsValid(v0, work, offset, p); }
    }

    lemma BelowLoaded(computed: nat, p: seq<Block>)
      requires store.Valid() && p == Main(Abs()) && height == store.tipHeight && totalWork == store.tipWork && bestHash == store.tip
      requires Loaded(cache.view, byHeight, p, LoadFrom(), height + 1)
      requires computed == if bestHash in cache.view.workAt then cache.view.workAt[bestHash] else 0
      ensures computed <= totalWork && totalWork - computed == WorkTo(p, LoadFrom())
      ensures forall k :: k in cache.view.workAt ==> cache.view.workAt[k] + (totalWork - computed) < U64_LIMIT
    {
      LoadedOffset(cache.view, byHeight, store.blocks, store.tip, LoadFrom());
    }

    lemma LoadedIsValid(v0: View, work: map<Hash, nat>, offset: nat, p: seq<Block>)
      requires store.Valid() && cache.Valid() && cache.view == v0.(workAt := work) && p == Main(Abs())
      requires bestHash == store.tip && height == store.tipHeight && totalWork == store.tipWork
      requires Sub(keyImages, store.keyImages) && (forall h :: h in byHeight ==> h <= height)
      requires Loaded(v0, byHeight, p, LoadFrom(), height + 1)
      requires work == Offset(v0.workAt, offset) && offset == WorkTo(p, LoadFrom())
      ensures Valid() && Window()
    {
      LoadedFacts(v0, byHeight, store.blocks, store.tip, LoadFrom(), work);
    }

    /** Founds an empty chain. `external` stands for the verdict of the checks left out of the model. */
    method AddGenesis(b: Block, external: bool) returns (ok: bool)
      requires store.found || (Blank() && store.Empty())
      modifies this, store, cache
      ensures ok <==> !old(store.found) && b.height == 0 && external && Bare(b)
      ensures !ok ==> unchanged(this) && unchanged(store) && unchanged(cache)
      ensures ok ==> Valid() && Window() && Abs() == State(map[b.hash := b], b.hash) && Heaviest(Abs())
    {
      ok := false;
      if b.height == 0 && !store.found && external && Bare(b) {
        FoundedInv(b);
        var _ := store.CommitBlock(b, b.difficulty);
        FoundedStore(b);
        EnterGenesis(b);
        ok := true;
      }
    }

    /** The in-memory side of founding. */
    method EnterGenesis(b: Block)
      requires Blank() && store.Valid() && store.Abs() == State(map[b.hash := b], b.hash)
      requires b.height == 0 && store.tipHeight == 0 && store.tipWork == b.difficulty
      requires 0 in store.heights && store.heights[0] == b.hash && Work(Path(store.blocks, b.hash)) == b.difficulty
      modifies this, cache
      ensures Valid() && Window()
    {
      cache.AddBlock(b.hash, b);
      cache.AddWork(b.hash, b.difficulty);
      byHeight, bestHash, height, totalWork := byHeight[0 := b.hash], b.hash, 0, b.difficulty;
      GenesisView(store.blocks, b, cache.view);
      TrimWindow();
    }

    method TrimWindow()
      requires Valid() && Window()
      modifies cache
      ensures Valid() && Window()
    {
      ghost var v0, bs := cache.view, store.blocks;
      Trim(Context(bs, 0, {}, {}));
      WindowKept(v0, cache.view, Here(), bs);
    }

    lemma FoundedStore(b: Block)
      requires b.height == 0 && Bare(b) && store.found && store.Abs() == State(map[b.hash := b], b.hash)
      requires store.tipHeight == 0 && store.tipWork == b.difficulty
      requires store.heights == map[0 := b.hash] && store.keyImages == map[]
      ensures store.Valid() && Work(Path(store.blocks, b.hash)) == b.difficulty
    {
      FoundedInv(b);
      assert [b][..0] == [] && b.Images() == [];
      assert HeightMap([]) == map[] && SpentMap([]) == map[];
      assert HeightMap([b]) == map[0 := b.hash] && SpentMap([b]) == map[];
    }

    // -------------------------------------------------------------- the next difficulty

    /** The main-chain block at height h is indexed and cached in memory. */
    ghost predicate InMemory(h: nat)
      reads this, cache
    {
      h in byHeight && byHeight[h] in cache.view.blocks
    }

    lemma CachedMain(h: nat)
      requires Valid() && InMemory(h)
      ensures h <= height && cache.view.blocks[byHeight[h]] == Main(Abs())[h]
    {
      MainIndex(h);
      PathLinks(store.blocks, store.tip, h);
    }

    /** The difficulty of the next block, read from memory only. None stands for the failure on a
        block of the averaging window that is not in memory. Loading, founding, tip extensions and
        side blocks all keep the recent chain there. */
    method NextDifficulty() returns (d: Option<U64>)
      requires Valid()
      ensures d.Some? ==> d.value == ExpectedDifficulty(Main(Abs()))
      ensures d.None? <==> height >= LWMA_WINDOW && exists h: nat :: height - LWMA_WINDOW <= h <= height && !InMemory(h)
      ensures Window() ==> d.Some?
    {
      if height < LWMA_WINDOW { return Some(MIN_DIFFICULTY); }
      var w: seq<Block> := [];
      for i := 0 to LWMA_WINDOW + 1
        invariant |w| == i && forall j :: 0 <= j < i ==> w[j] == Main(Abs())[height - LWMA_WINDOW + j]
        invariant forall h: nat :: height - LWMA_WINDOW <= h < height - LWMA_WINDOW + i ==> InMemory(h)
      {
        var h := height - LWMA_WINDOW + i;
        if h !in byHeight || byHeight[h] !in cache.view.blocks {
          assert !InMemory(h);
          return None;
        }
        CachedMain(h);
        w := w + [cache.view.blocks[byHeight[h]]];
      }
      LwmaShift(w, LWMA_WINDOW, Main(Abs()), height);
      var next := WindowDifficulty(w, LWMA_WINDOW);
      d := Some(next);
    }

    // -------------------------------------------------------------- auditing

    /** The main-chain lookups an audit makes, one per height. */
    method LookUpAll() returns (found: seq<Option<Block>>)
      requires Valid()
      ensures |found| == |Main(Abs())| && forall h :: 0 <= h < |found| ==> found[h] == Some(Main(Abs())[h])
    {
      found := [];
      for h := 0 to height + 1
        invariant |found| == h && forall i :: 0 <= i < h ==> found[i] == Some(Main(Abs())[i])
      {
        BlockByHeightIsMain(store.blocks, h);
        found := found + [BlockByHeight(h)];
      }
    }

    /** A chain that block processing has built audits clean. */
    method VerifyChain() returns (vs: seq<Audit.Violation>)
      requires Valid()
      ensures vs == if height == 0 then [] else Audit.Violations(Main(Abs()), 1)
      ensures Main(Abs())[0].timestamp >= 0 ==> vs == []
    {
      var found := LookUpAll();
      ghost var p;
      vs, p := Audit.VerifyChain(found);
      if height > 0 { assert p == Main(Abs()); }
      if Main(Abs())[0].timestamp >= 0 { Audit.BuiltChainIsClean(Abs()); }
    }

    /** The audit above a checkpoint reports what the full audit reports above it. */
    method VerifyChainWithCheckpoints(checkpoints: map<nat, Hash>, heights: seq<nat>)
      returns (vs: seq<Audit.Violation>, used: nat)
      requires Valid()
      ensures used > 0 ==> used in heights && used <= height && used in checkpoints && checkpoints[used] == Main(Abs())[used].hash
      ensures vs == if used == 0 then [] else Audit.Above(Audit.Violations(Main(Abs()), 1), used)
    {
      var found := LookUpAll();
      ghost var p;
      vs, used, p := Audit.VerifyChainWithCheckpoints(found, checkpoints, heights);
      if used > 0 {
        assert p == Main(Abs());
        Audit.CheckpointAuditIsRestriction(Main(Abs()), used);
      }
    }

    // -------------------------------------------------------------- truncation

    /** The main chain p is indexed below height n, in the store and in memory. */
    ghost predicate Cut(p: seq<Block>, n: nat)
      reads this, store, cache
    {
      && CacheOk(store.blocks) && n <= |p| && IsChain(p) && AllStored(store.blocks, p) && GoodPath(p)
      && store.heights == HeightMap(p[..n]) && store.keyImages == SpentMap(p[..n])
      && Sub(byHeight, store.heights) && Sub(keyImages, store.keyImages)
    }

    /** Removes all main-chain blocks above `keep`; they stay stored. */
    method TruncateToHeight(keep: nat)
      requires Valid()
      modifies this, store, cache
      ensures Valid()
      ensures keep >= old(height) ==> Abs() == old(Abs())
      ensures keep < old(height) ==> Next(old(Abs()), Truncate(keep), Abs())
      ensures byHeight.Keys <= old(byHeight).Keys && height == if keep < old(height) then keep else old(height)
    {
      if keep < height {
        ghost var s := Abs();
        ghost var p := Main(s);
        EnterCut();
        var h := height;
        while h > keep
          invariant keep <= h <= height == old(height) && Cut(p, h + 1) && Abs() == s && store.found
          invariant byHeight.Keys <= old(byHeight).Keys
        {
          Disconnect(h, p);
          h := h - 1;
        }
        Retip(keep, s);
      }
    }

    lemma EnterCut()
      requires Valid()
      ensures Cut(Main(Abs()), height + 1)
    {
      var p := Main(Abs());
      PathIsChain(store.blocks, store.tip);
      MainGood(Abs());
      assert p[..|p|] == p;
    }

    /** Takes the top block of the cut chain out of every index. */
    method Disconnect(h: nat, ghost p: seq<Block>)
      requires Cut(p, h + 1) && h <= height
      modifies this`byHeight, this`keyImages, store`heights, store`keyImages, cache
      ensures Cut(p, h) && byHeight == old(byHeight) - {h}
    {
      CutBlock(p, h + 1, h);
      var b := BlockByHeight(h);
      CutStep(p, h);
      keyImages := UnmarkImages(keyImages, b.value);
      store.UnmarkBlock(b.value);
      store.RemoveMainChainBlock(h);
      byHeight := byHeight - {h};
      cache.Forget(b.value.hash);
    }

    lemma CutStep(p: seq<Block>, h: nat)
      requires Cut(p, h + 1)
      ensures store.heights - {h} == HeightMap(p[..h])
      ensures store.keyImages - Elements(p[h].Images()) == SpentMap(p[..h])
    {
      var c := p[..h + 1];
      IsChainPrefix(p, h + 1);
      GoodPrefix(p, h + 1);
      GoodPathNoDup(c);
      assert c[..h] == p[..h];
      DropLastHeight(c);
      DropLastImages(c);
    }

    lemma CutBlock(p: seq<Block>, n: nat, h: nat)
      requires Cut(p, n) && h < n
      ensures BlockByHeight(h) == Some(p[h])
    {
      IsChainPrefix(p, n);
      HeightMapAt(p[..n]);
    }

    /** Makes the block at height `keep` the tip of the cut chain. */
    method Retip(keep: nat, ghost s: State)
      requires Inv(s) && Abs() == s && keep < height == Height(s) && Cut(Main(s), keep + 1)
      modifies this, store, cache
      ensures Valid() && Abs() == s.(tip := Main(s)[keep].hash) && byHeight == old(byHeight) && height == keep
    {
      CutBlock(Main(s), keep + 1, keep);
      var b := BlockByHeight(keep);
      ghost var ctx := Context(store.blocks, 0, {}, {});
      PathLinks(s.blocks, s.tip, keep);
      var w := CumulativeWork(b.value.hash, ctx);
      SetTip(b.value.hash, keep, w.value, ctx, Main(s));
      RetipValid(s, keep);
    }

    method SetTip(h: Hash, keep: nat, work: nat, ghost ctx: Context, ghost p: seq<Block>)
      requires CacheOk(ctx.known) && keep < |p| && IsChain(p) && Sub(byHeight, HeightMap(p[..keep + 1]))
      modifies this`bestHash, this`height, this`totalWork, store`found, store`tip, store`tipHeight, store`tipWork, cache
      ensures bestHash == h && height == keep && totalWork == work
      ensures store.found && store.tip == h && store.tipHeight == keep && store.tipWork == work
      ensures CacheOk(ctx.known)
    {
      bestHash, height, totalWork := h, keep, work;
      CutBounded(p, keep + 1);
      cache.Touch(bestHash);
      Trim(ctx);
      store.SetTip(bestHash, keep, work);
    }

    lemma RetipValid(s: State, keep: nat)
      requires Inv(s) && keep <= Height(s) && store.Abs() == s.(tip := Main(s)[keep].hash)
      requires store.found && store.tipHeight == keep && Main(s)[keep].hash in s.blocks
      requires store.tipWork == Work(Path(s.blocks, Main(s)[keep].hash))
      requires store.heights == HeightMap(Main(s)[..keep + 1]) && store.keyImages == SpentMap(Main(s)[..keep + 1])
      ensures store.Valid()
    {
      PathPrefix(s.blocks, s.tip, keep);
      PathLinks(s.blocks, s.tip, keep);
    }

    lemma CutBounded(p: seq<Block>, n: nat)
      requires n <= |p| && IsChain(p) && Sub(byHeight, HeightMap(p[..n]))
      ensures forall h :: h in byHeight ==> h < n
    {
      IsChainPrefix(p, n);
      HeightMapAt(p[..n]);
    }

    // -------------------------------------------------------------- validation

    /** Collects the key images of the branch from `parent` down to the first block the height
        index knows to be on the main chain. Together with the spent set they are exactly the
        images of the parent's path and of the main chain. */
    method BranchSpent(parent: Hash, ghost ctx: Context) returns (r: Option<set<KeyImage>>)
      requires Valid() && ctx.known == store.blocks
      modifies cache
      ensures Valid()
      ensures PinsKept(old(cache.view), cache.view, Here())
      ensures r.Some? <==> parent in store.blocks
      ensures r.Some? ==>
        r.value + Spent(Abs()) == Elements(ChainImages(Path(store.blocks, parent))) + Spent(Abs())
    {
      ghost var pre, seg;
      r, pre, seg := CollectBranch(parent, ctx);
      if r.Some? { BranchImages(Abs(), pre, seg); }
    }

    /** The walk itself: the path to `parent` is a part `pre` of the main chain followed by the
        collected segment. */
    method CollectBranch(parent: Hash, ghost ctx: Context)
      returns (r: Option<set<KeyImage>>, ghost pre: seq<Block>, ghost seg: seq<Block>)
      requires Valid() && ctx.known == store.blocks
      modifies cache
      ensures Valid()
      ensures PinsKept(old(cache.view), cache.view, Here())
      ensures r.Some? <==> parent in store.blocks
      ensures r.Some? ==> r.value == Elements(ChainImages(seg))
      ensures r.Some? ==> Path(store.blocks, parent) == pre + seg && pre <= Main(Abs())
    {
      var cur, acc := parent, {};
      ghost var v0, bs := cache.view, store.blocks;
      pre, seg := [], [];
      while true
        invariant Valid() && PinsKept(v0, cache.view, Here())
        invariant Peeled(bs, parent, cur, seg, acc)
        decreases if cur in bs then bs[cur].height + 1 else 0
      {
        ghost var v1 := cache.view;
        var b := Lookup(cur, ctx);
        PinsKeptTrans(v0, v1, cache.view, Here());
        if b.None? { return None, [], []; }
        if b.value.height in byHeight && byHeight[b.value.height] == cur {
          IndexedOnMain(cur);
          return Some(acc), Path(bs, cur), seg;
        }
        PeelStep(bs, parent, cur, seg, acc);
        acc := AddImages(acc, b.value);
        seg := [b.value] + seg;
        if b.value.height == 0 { return Some(acc), [], seg; }
        cur := b.value.prev;
      }
    }

    /** The last n blocks of the path to `parent` (all of it if shorter), by parent links. */
    method WalkBack(parent: Block, n: nat, ghost ctx: Context) returns (w: seq<Block>)
      requires Valid() && ctx.known == store.blocks && n >= 1
      requires parent.hash in store.blocks && store.blocks[parent.hash] == parent
      modifies cache
      ensures Valid()
      ensures PinsKept(old(cache.view), cache.view, Here())
      ensures w == LastBlocks(Path(store.blocks, parent.hash), n)
    {
      ghost var v0, bs, p := cache.view, store.blocks, Path(store.blocks, parent.hash);
      w := [parent];
      ghost var i: nat := |p| - 1;
      assert p[i..] == w;
      while |w| < n && w[0].height > 0
        invariant Valid() && PinsKept(v0, cache.view, Here())
        invariant i < |p| && w == p[i..] && |w| <= n
        decreases i
      {
        PathLinks(bs, parent.hash, i);
        ghost var v1 := cache.view;
        var cur := Lookup(w[0].prev, ctx);
        PinsKeptTrans(v0, v1, cache.view, Here());
        SliceBack(p, i);
        i, w := i - 1, [cur.value] + w;
      }
      PathLinks(bs, parent.hash, i);
    }

    /** The difficulty demanded of a child of `parent`. */
    method DifficultyFromParent(parent: Block, ghost ctx: Context) returns (d: U64)
      requires Valid() && ctx.known == store.blocks
      requires parent.hash in store.blocks && store.blocks[parent.hash] == parent
      modifies cache
      ensures Valid()
      ensures PinsKept(old(cache.view), cache.view, Here())
      ensures d == ExpectedDifficulty(Path(store.blocks, parent.hash))
    {
      if parent.height < LWMA_WINDOW { return MIN_DIFFICULTY; }
      var w := WalkBack(parent, LWMA_WINDOW + 1, ctx);
      LwmaOfLast(Path(store.blocks, parent.hash), w);
      d := WindowDifficulty(w, LWMA_WINDOW);
    }

    /** The median timestamp at `parent`. */
    method MedianFromParent(parent: Block, ghost ctx: Context) returns (m: int)
      requires Valid() && ctx.known == store.blocks
      requires parent.hash in store.blocks && store.blocks[parent.hash] == parent
      modifies cache
      ensures Valid()
      ensures PinsKept(old(cache.view), cache.view, Here())
      ensures m == MedianOf(MedianWindow(Path(store.blocks, parent.hash)))
    {
      var w := WalkBack(parent, MEDIAN_WINDOW, ctx);
      m := Median.Compute(Stamps(w));
    }

    /** No image of the block is spent on its branch or on the main chain, or twice in it. */
    method ImagesFresh(b: Block, branch: set<KeyImage>) returns (ok: bool)
      ensures ok <==> NoDup(b.Images()) && forall x :: x in b.Images() ==> x !in branch && !IsSpent(x)
    {
      var xs, seen := b.Images(), {};
      for i := 0 to |xs|
        invariant seen == Elements(xs[..i]) && NoDup(xs[..i])
        invariant forall x :: x in xs[..i] ==> x !in branch && !IsSpent(x)
      {
        NoDupStep(xs, i);
        if xs[i] in branch || IsSpent(xs[i]) { return false; }
        if xs[i] in seen { return false; }
        seen := seen + {xs[i]};
      }
      assert xs[..|xs|] == xs;
      return true;
    }

    /** Loads the whole main chain through the cache, as rebuilding the ring-member index does. */
    method WarmMainChain(ghost ctx: Context)
      requires Valid() && ctx.known == store.blocks
      modifies cache
      ensures Valid()
      ensures PinsKept(old(cache.view), cache.view, Here())
    {
      ghost var v0 := cache.view;
      for h := 0 to store.tipHeight + 1
        invariant Valid() && PinsKept(v0, cache.view, Here())
      {
        MainIndex(h);
        ghost var v1 := cache.view;
        var _ := Lookup(store.heights[h], ctx);
        PinsKeptTrans(v0, v1, cache.view, Here());
      }
    }

    /** Validation of a block against its own branch. `external` stands for the verdict of the
        checks left out of the model. Version, proof of work, size, signatures, range proofs,
        reward, Merkle root and the clock do not read the chain; the checkpoint pin and the ring
        members do, and are taken as given here too. */
    method Validate(b: Block, external: bool, warm: bool) returns (ok: bool)
      requires Valid()
      modifies cache
      ensures Valid()
      ensures PinsKept(old(cache.view), cache.view, Here())
      ensures ok <==> external && Validated(Abs(), b)
    {
      ghost var ctx, v0 := Context(store.blocks, 0, {}, {}), cache.view;
      if !external { return false; }
      if b.height == 0 { return Bare(b); }
      var branch := BranchSpent(b.prev, ctx);
      if branch.None? { return false; }
      ghost var v1 := cache.view;
      var parent := Lookup(b.prev, ctx);
      PinsKeptTrans(v0, v1, cache.view, Here());
      assert LinkedAt(store.blocks, b.prev);
      if b.height != parent.value.height + 1 { return false; }
      if b.timestamp <= parent.value.timestamp { return false; }
      if b.prev == bestHash && b.height != height + 1 { return false; }
      ok := ContextRules(b, parent.value, warm, ctx);
      PinsKeptTrans(v0, v1, cache.view, Here());
      if !ok { return false; }
      var c := CheckCoinbase(b.txs);
      var f := ImagesFresh(b, branch.value);
      FreshIffDisjoint(b, branch.value);
      return c && f;
    }

    /** The difficulty and median rules of the parent branch. The median rule never refuses a
        block that is later than its parent. */
    method ContextRules(b: Block, parent: Block, warm: bool, ghost ctx: Context) returns (ok: bool)
      requires Valid() && ctx.known == store.blocks
      requires parent.hash in store.blocks && store.blocks[parent.hash] == parent && parent.timestamp < b.timestamp
      modifies cache
      ensures Valid()
      ensures PinsKept(old(cache.view), cache.view, Here())
      ensures ok <==> b.difficulty == ExpectedDifficulty(Path(store.blocks, parent.hash)) && b.difficulty >= MIN_DIFFICULTY
    {
      ghost var v0 := cache.view;
      var d := DifficultyFromParent(parent, ctx);
      ghost var v1 := cache.view;
      var m := MedianFromParent(parent, ctx);
      PinsKeptTrans(v0, v1, cache.view, Here());
      assert GoodBlock(store.blocks, parent.hash);
      MedianImplied(Path(store.blocks, parent.hash));
      if b.difficulty != d || b.timestamp <= m || b.difficulty < MIN_DIFFICULTY { return false; }
      if warm {
        ghost var v2 := cache.view;
        WarmMainChain(ctx);
        PinsKeptTrans(v0, v2, cache.view, Here());
      }
      return true;
    }

    lemma FreshIffDisjoint(b: Block, branch: set<KeyImage>)
      requires Synced() && b.prev in store.blocks
      requires branch + Spent(Abs()) == Elements(ChainImages(Path(store.blocks, b.prev))) + Spent(Abs())
      ensures (forall x :: x in b.Images() ==> x !in branch && !IsSpent(x)) <==>
        Disjoint(b.Images(), ChainImages(Path(store.blocks, b.prev))) && Disjoint(b.Images(), ChainImages(Main(Abs())))
    {
      forall x ensures x !in branch && !IsSpent(x) <==>
        x !in ChainImages(Path(store.blocks, b.prev)) && x !in ChainImages(Main(Abs()))
      {
        SpentExact(x);
        assert x in branch + Spent(Abs()) <==> x in Elements(ChainImages(Path(store.blocks, b.prev))) + Spent(Abs());
      }
    }

    // -------------------------------------------------------------- walking to the fork

    /** Everything known is stored, except the block being processed. */
    ghost predicate Pending(ctx: Context)
      reads store
    {
      && ctx.keep in ctx.known && ctx.keep !in store.blocks
      && forall k :: k in ctx.known ==> k in store.blocks || k == ctx.keep
    }

    lemma PrevStored(ctx: Context, k: Hash)
      requires CacheOk(ctx.known) && Pending(ctx) && k in ctx.known && ctx.known[k].height > 0
      ensures ctx.known[k].prev in store.blocks
    {
      assert LinkedAt(ctx.known, k);
      if k in store.blocks { assert LinkedAt(store.blocks, k); }
    }

    /** x is the block at its height on the path to tip. */
    ghost predicate OnPath(ctx: Context, tip: Hash, x: Block)
      requires Linked(ctx.known) && tip in ctx.known
    {
      x.height < |Path(ctx.known, tip)| && x == Path(ctx.known, tip)[x.height]
    }

    /** One step down the path to `tip`. */
    method ParentOf(x: Block, ghost tip: Hash, ghost ctx: Context) returns (r: Block)
      requires CacheOk(ctx.known) && Pending(ctx) && tip in ctx.known && OnPath(ctx, tip, x) && x.height > 0
      modifies cache
      ensures CacheOk(ctx.known)
      ensures r.height == x.height - 1 && OnPath(ctx, tip, r)
      ensures Served(old(cache.view), cache.view, Here(), ctx, cache.cap, ctx.Covers(r.hash))
      ensures r.hash != ctx.keep && Unpinned(ctx.keep) ==> Overtaken(old(cache.view), cache.view, ctx.keep, {r.hash})
    {
      PathLinks(ctx.known, tip, x.height);
      PathLinks(ctx.known, tip, x.height - 1);
      PrevStored(ctx, x.hash);
      var next := Lookup(x.prev, ctx);
      r := next.value;
    }

    /** Follows parent links from a block of the path to `tip` down to height `to`. */
    method Descend(cur: Block, to: nat, ghost tip: Hash, ghost ctx: Context) returns (r: Block)
      requires CacheOk(ctx.known) && Pending(ctx) && tip in ctx.known && OnPath(ctx, tip, cur) && to <= cur.height
      modifies cache
      ensures CacheOk(ctx.known)
      ensures r.height == to && OnPath(ctx, tip, r)
      ensures Served(old(cache.view), cache.view, Here(), ctx, cache.cap, CoversFrom(ctx, Path(ctx.known, tip), to))
    {
      ghost var v0, cov := cache.view, CoversFrom(ctx, Path(ctx.known, tip), to);
      r := cur;
      while r.height > to
        invariant CacheOk(ctx.known) && OnPath(ctx, tip, r) && to <= r.height
        invariant Served(v0, cache.view, Here(), ctx, cache.cap, cov)
      {
        ghost var v1 := cache.view;
        r := ParentOf(r, tip, ctx);
        ServedTrans(v0, v1, cache.view, Here(), ctx, cache.cap, cov, cov, ctx.Covers(r.hash));
      }
    }

    /** The last shared block of the paths to two tips. It fails only if the paths share
        nothing, or if the block being processed has been evicted meanwhile. */
    method FindCommonAncestor(aTip: Hash, bTip: Hash, ghost ctx: Context) returns (r: Option<Block>)
      requires CacheOk(ctx.known) && Pending(ctx) && aTip in store.blocks && bTip == ctx.keep
      modifies cache
      ensures CacheOk(ctx.known)
      ensures Served(old(cache.view), cache.view, Here(), ctx, cache.cap, CoversFork(ctx, aTip, bTip))
      ensures var n := ForkAt(ctx.known, aTip, bTip);
        && (r.Some? ==> n >= 1 && r.value == Path(ctx.known, aTip)[n - 1] && r.value.height == n - 1)
        && (r.None? && CoversFork(ctx, aTip, bTip) && Held(old(cache.view), Here(), ctx, cache.cap) ==> n == 0)
        && (aTip in old(cache.view).blocks ==> (r.Some? <==> n >= 1 && bTip in old(cache.view).blocks))
        && (r.None? ==> n == 0 || bTip !in cache.view.blocks)
    {
      ghost var v0, cov := cache.view, CoversFork(ctx, aTip, bTip);
      TipsCovered(ctx, aTip, bTip);
      PathLinks(ctx.known, aTip, ctx.known[aTip].height);
      PathLinks(ctx.known, bTip, ctx.known[bTip].height);
      var ra := Lookup(aTip, ctx);
      ghost var v1 := cache.view;
      var rb := Lookup(bTip, ctx);
      ServedTrans(v0, v1, cache.view, Here(), ctx, cache.cap, cov, ctx.Covers(aTip), ctx.Covers(bTip));
      if rb.None? { return None; }
      ghost var v2 := cache.view;
      var a, b := LevelDown(ra.value, rb.value, aTip, bTip, ctx);
      ghost var v3 := cache.view;
      ServedTrans(v0, v2, v3, Here(), ctx, cache.cap, cov, cov, cov);
      r := MeetPaths(a, b, aTip, bTip, ctx);
      ServedTrans(v0, v3, cache.view, Here(), ctx, cache.cap, cov, cov, cov);
    }

    /** Brings the higher of two blocks down to the height of the other. */
    method LevelDown(a: Block, b: Block, ghost aTip: Hash, ghost bTip: Hash, ghost ctx: Context)
      returns (a': Block, b': Block)
      requires CacheOk(ctx.known) && Pending(ctx) && aTip in store.blocks && bTip == ctx.keep
      requires a == ctx.known[aTip] && b == ctx.known[bTip]
      modifies cache
      ensures CacheOk(ctx.known)
      ensures Served(old(cache.view), cache.view, Here(), ctx, cache.cap, CoversFork(ctx, aTip, bTip))
      ensures OnPath(ctx, aTip, a') && OnPath(ctx, bTip, b') && a'.height == b'.height
      ensures a'.height == a.height || a'.height == b.height
    {
      a', b' := a, b;
      if a.height > b.height {
        a' := Descend(a, b.height, aTip, ctx);
      } else if b.height > a.height {
        b' := Descend(b, a.height, bTip, ctx);
      }
    }

    method ParentsOf(x: Block, y: Block, ghost aTip: Hash, ghost bTip: Hash, ghost ctx: Context)
      returns (x': Block, y': Block)
      requires CacheOk(ctx.known) && Pending(ctx) && aTip in store.blocks && bTip == ctx.keep
      requires OnPath(ctx, aTip, x) && OnPath(ctx, bTip, y) && x.height == y.height > 0
      requires ForkAt(ctx.known, aTip, bTip) <= x.height
      modifies cache
      ensures CacheOk(ctx.known)
      ensures OnPath(ctx, aTip, x') && OnPath(ctx, bTip, y') && x'.height == y'.height == x.height - 1
      ensures Served(old(cache.view), cache.view, Here(), ctx, cache.cap, CoversFork(ctx, aTip, bTip))
    {
      ghost var v0, cov := cache.view, CoversFork(ctx, aTip, bTip);
      x' := ParentOf(x, aTip, ctx);
      ghost var v1 := cache.view;
      y' := ParentOf(y, bTip, ctx);
      ServedTrans(v0, v1, cache.view, Here(), ctx, cache.cap, cov, ctx.Covers(x'.hash), ctx.Covers(y'.hash));
    }

    /** Walks two paths down in step until they meet. */
    method MeetPaths(a: Block, b: Block, ghost aTip: Hash, ghost bTip: Hash, ghost ctx: Context) returns (r: Option<Block>)
      requires CacheOk(ctx.known) && Pending(ctx) && aTip in store.blocks && bTip == ctx.keep
      requires OnPath(ctx, aTip, a) && OnPath(ctx, bTip, b) && a.height == b.height
      requires ForkAt(ctx.known, aTip, bTip) <= a.height + 1
      modifies cache
      ensures CacheOk(ctx.known)
      ensures Served(old(cache.view), cache.view, Here(), ctx, cache.cap, CoversFork(ctx, aTip, bTip))
      ensures var n := ForkAt(ctx.known, aTip, bTip);
        if n == 0 then r.None? else r == Some(Path(ctx.known, aTip)[n - 1]) && r.value.height == n - 1
    {
      ghost var v0, cov, n := cache.view, CoversFork(ctx, aTip, bTip), ForkAt(ctx.known, aTip, bTip);
      var x, y := a, b;
      SameHashIffShared(ctx.known, aTip, bTip, x.height);
      while x.hash != y.hash && x.height > 0 && y.height > 0
        invariant CacheOk(ctx.known)
        invariant Served(v0, cache.view, Here(), ctx, cache.cap, cov)
        invariant OnPath(ctx, aTip, x) && OnPath(ctx, bTip, y) && x.height == y.height
        invariant n <= x.height + 1 && (x.hash == y.hash <==> x.height < n)
        decreases x.height
      {
        ghost var v1 := cache.view;
        x, y := ParentsOf(x, y, aTip, bTip, ctx);
        ServedTrans(v0, v1, cache.view, Here(), ctx, cache.cap, cov, cov, cov);
        SameHashIffShared(ctx.known, aTip, bTip, x.height);
      }
      r := if x.hash == y.hash then Some(x) else None;
    }

    /** Refuses a reorganisation whose fork lies more than MAX_REORG_DEPTH below the tip. */
    method EnforceFinality(newTip: Hash, ghost ctx: Context) returns (ok: bool)
      requires Synced() && CacheOk(ctx.known) && Pending(ctx) && newTip == ctx.keep
      modifies cache
      ensures CacheOk(ctx.known)
      ensures Served(old(cache.view), cache.view, Here(), ctx, cache.cap, CoversFork(ctx, bestHash, newTip))
      ensures var n := ForkAt(ctx.known, bestHash, newTip);
        && (ok ==> height < MAX_REORG_DEPTH || (n >= 1 && n - 1 + MAX_REORG_DEPTH >= height))
        && (!ok && CoversFork(ctx, bestHash, newTip) && Held(old(cache.view), Here(), ctx, cache.cap) ==>
              n == 0 || n - 1 + MAX_REORG_DEPTH < height)
        && (bestHash in old(cache.view).blocks ==>
              (ok <==> height < MAX_REORG_DEPTH || (newTip in old(cache.view).blocks && WithinFinality(n, height))))
        && (!ok ==> !WithinFinality(n, height) || newTip !in cache.view.blocks)
    {
      if height < MAX_REORG_DEPTH { return true; }
      ghost var v0, cov := cache.view, CoversFork(ctx, bestHash, newTip);
      var b := Lookup(newTip, ctx);
      if b.Some? {
        ghost var v1 := cache.view;
        var common := FindCommonAncestor(bestHash, newTip, ctx);
        ServedTrans(v0, v1, cache.view, Here(), ctx, cache.cap, cov, true, cov);
        ok := common.Some? && common.value.height >= height - MAX_REORG_DEPTH;
      } else {
        ok := false;
      }
    }

    /** The blocks of the new branch above the fork, lowest first. */
    method CollectConnect(common: Hash, newTip: Hash, ghost n: nat, ghost ctx: Context) returns (r: Option<seq<Block>>)
      requires CacheOk(ctx.known) && Pending(ctx) && newTip == ctx.keep
      requires var q := Path(ctx.known, newTip); 1 <= n <= |q| && common == q[n - 1].hash
      modifies cache
      ensures CacheOk(ctx.known)
      ensures Served(old(cache.view), cache.view, Here(), ctx, cache.cap, CoversFrom(ctx, Path(ctx.known, newTip), n))
      ensures r.Some? ==> IsTail(r.value, Path(ctx.known, newTip), n)
      ensures r.None? ==> !Held(old(cache.view), Here(), ctx, cache.cap)
      ensures var q := Path(ctx.known, newTip);
        r.Some? && n < |q| && Unpinned(newTip) ==> Crowded(cache.view, newTip, HashesIn(q, n, |q| - 1))
    {
      TipOnPath(ctx.known, newTip);
      DistinctHashes(ctx.known, newTip, n - 1, ctx.known[newTip].height);
      if newTip == common { return Some([]); }
      ghost var v0, cov := cache.view, CoversFrom(ctx, Path(ctx.known, newTip), n);
      var b := Lookup(newTip, ctx);
      if b.None? { return None; }
      ghost var v1 := cache.view;
      var c := CollectBelow(b.value, common, newTip, n, ctx);
      ServedTrans(v0, v1, cache.view, Here(), ctx, cache.cap, cov, true, cov);
      return Some(c);
    }

    /** One step of the walk down the new branch, and how far the walk has come since v0. */
    method NextBelow(x: Block, ghost tip: Hash, ghost top: nat, ghost v0: View, ghost cov: bool, ghost n: nat, ghost ctx: Context)
      returns (r: Block)
      requires CacheOk(ctx.known) && Pending(ctx) && tip in ctx.known && OnPath(ctx, tip, x)
      requires n < x.height <= top == ctx.known[tip].height && cov == CoversFrom(ctx, Path(ctx.known, tip), n)
      requires Served(v0, cache.view, Here(), ctx, cache.cap, cov)
      requires tip == ctx.keep && Unpinned(tip) ==> Overtaken(v0, cache.view, tip, HashesIn(Path(ctx.known, tip), x.height, top))
      modifies cache
      ensures CacheOk(ctx.known) && OnPath(ctx, tip, r) && r.height == x.height - 1
      ensures Served(v0, cache.view, Here(), ctx, cache.cap, cov)
      ensures tip == ctx.keep && Unpinned(tip) ==> Overtaken(v0, cache.view, tip, HashesIn(Path(ctx.known, tip), r.height, top))
    {
      ghost var v1 := cache.view;
      r := ParentOf(x, tip, ctx);
      if tip == ctx.keep && Unpinned(tip) { PathOvertakes(ctx.known, tip, r.height, v0, v1, cache.view); }
      ServedTrans(v0, v1, cache.view, Here(), ctx, cache.cap, cov, cov, ctx.Covers(r.hash));
    }

    method CollectBelow(b: Block, common: Hash, ghost tip: Hash, ghost n: nat, ghost ctx: Context) returns (c: seq<Block>)
      requires CacheOk(ctx.known) && Pending(ctx) && tip in ctx.known && b == ctx.known[tip]
      requires 1 <= n <= b.height && common == Path(ctx.known, tip)[n - 1].hash
      modifies cache
      ensures CacheOk(ctx.known)
      ensures Served(old(cache.view), cache.view, Here(), ctx, cache.cap, CoversFrom(ctx, Path(ctx.known, tip), n))
      ensures IsTail(c, Path(ctx.known, tip), n)
      ensures tip == ctx.keep && Unpinned(tip) ==>
        Overtaken(old(cache.view), cache.view, tip, HashesIn(Path(ctx.known, tip), n, b.height))
    {
      ghost var v0, q := cache.view, Path(ctx.known, tip);
      ghost var cov := CoversFrom(ctx, q, n);
      var x := b;
      c := [b];
      PrevIs(ctx.known, tip, n, x.height);
      while x.prev != common
        invariant CacheOk(ctx.known)
        invariant Served(v0, cache.view, Here(), ctx, cache.cap, cov)
        invariant OnPath(ctx, tip, x) && n <= x.height && IsTail(c, q, x.height)
        invariant x.prev == common <==> x.height == n
        invariant tip == ctx.keep && Unpinned(tip) ==> Overtaken(v0, cache.view, tip, HashesIn(q, x.height, b.height))
        decreases x.height
      {
        TailBack(c, q, x.height);
        x := NextBelow(x, tip, b.height, v0, cov, n, ctx);
        PrevIs(ctx.known, tip, n, x.height);
        c := [x] + c;
      }
    }

    // -------------------------------------------------------------- switching the main chain

    /** The recent main chain is cached and indexed in memory. */
    ghost predicate Window()
      reads this, cache
    {
      WindowOf(cache.view, Here())
    }

    /** Commits the reorganisation and brings memory in step, or changes nothing. */
    method Switch(d: seq<Block>, c: seq<Block>, b: Block, work: nat, ghost n: nat, ghost ctx: Context) returns (ok: bool)
      requires Synced() && CacheOk(ctx.known) && Joins(Abs(), b) && ctx.known == WithBlock(Abs(), b)
      requires work == Work(NewPath(Abs(), b))
      requires store.ReorgOk(d, c, b.hash, b.height) ==> IsReorg(Abs(), b, n, d, c)
      modifies this, store, cache
      ensures ok <==> old(store.ReorgOk(d, c, b.hash, b.height))
      ensures !ok ==> unchanged(this) && unchanged(store) && unchanged(cache)
      ensures ok ==> Valid() && Abs() == State(WithBlock(old(Abs()), b), b.hash)
      ensures ok && old(Window()) && b.height >= old(height) && BranchCached(old(cache.view), NewPath(old(Abs()), b), n) ==> Window()
    {
      ghost var h0, k0, s, v0 := store.heights, store.keyImages, Abs(), cache.view;
      ok := CommitFork(store, d, c, b, work, n);
      if ok {
        ReorgReplaces(s, b, n, d, c);
        FollowStore(d, c, b, work, h0, k0, n, ctx);
      }
    }

    /** Brings memory and cache in step with a store that has just committed. */
    method FollowStore(d: seq<Block>, c: seq<Block>, b: Block, work: nat,
                       ghost h0: map<nat, Hash>, ghost k0: map<KeyImage, nat>, ghost n: nat, ghost ctx: Context)
      requires store.Valid() && Sub(byHeight, h0) && Sub(keyImages, k0)
      requires store.heights == Indexed(h0 - Heights(d), c)
      requires store.keyImages == MarkedChain(k0 - Elements(ChainImages(d)), c)
      requires store.tip == b.hash && store.tipHeight == b.height && store.tipWork == work
      requires CacheOk(ctx.known) && ctx.known == store.blocks && store.blocks[b.hash] == b
      modifies this, cache
      ensures Valid()
      ensures old(Window() && n <= height + 1 && height <= b.height && Replaces(d, c, n, b.height) && AllCachedIn(cache.view, c)) ==> Window()
    {
      ghost var pins, v0 := Here(), cache.view;
      UpdateMemory(d, c, b, work, h0, k0);
      RefreshCache(c, b.hash, ctx);
      if WindowOf(v0, pins) && n <= pins.height + 1 && pins.height <= b.height && Replaces(d, c, n, b.height) && AllCachedIn(v0, c) {
        WindowMoves(v0, pins, Here(), d, c, n);
        WindowKept(v0, cache.view, Here(), ctx.known);
      }
    }

    /** The in-memory side of a committed reorganisation. */
    method UpdateMemory(d: seq<Block>, c: seq<Block>, b: Block, work: nat,
                        ghost h0: map<nat, Hash>, ghost k0: map<KeyImage, nat>)
      requires store.Valid() && Sub(byHeight, h0) && Sub(keyImages, k0)
      requires store.heights == Indexed(h0 - Heights(d), c)
      requires store.keyImages == MarkedChain(k0 - Elements(ChainImages(d)), c)
      requires store.tip == b.hash && store.tipHeight == b.height && store.tipWork == work
      modifies this
      ensures Synced() && Here().Bounded()
      ensures byHeight == Indexed(old(byHeight) - Heights(d), c)
      ensures height == b.height
    {
      SubIndexed(byHeight - Heights(d), h0 - Heights(d), c);
      SubMarkedChain(keyImages - Elements(ChainImages(d)), k0 - Elements(ChainImages(d)), c);
      byHeight, keyImages := DropBlocks(byHeight, keyImages, d);
      byHeight, keyImages := EnterBlocks(byHeight, keyImages, c);
      bestHash, height, totalWork := b.hash, b.height, work;
      forall h | h in byHeight ensures h <= height { MainIndex(h); }
    }

    method RefreshCache(c: seq<Block>, newTip: Hash, ghost ctx: Context)
      requires CacheOk(ctx.known)
      modifies cache
      ensures CacheOk(ctx.known)
      ensures PinsKept(old(cache.view), cache.view, Here())
    {
      ghost var v0 := cache.view;
      for i := 0 to |c|
        invariant CacheOk(ctx.known) && cache.view.blocks == v0.blocks
      {
        cache.Touch(c[i].hash);
      }
      cache.Touch(newTip);
      ghost var v1 := cache.view;
      Trim(ctx);
      PinsKeptTrans(v0, v1, cache.view, Here());
    }

    /** The main chain above `low`, tip first. */
    method CollectDisconnect(low: nat, ghost known: map<Hash, Block>) returns (d: seq<Block>)
      requires Synced() && CacheOk(known) && low <= height
      ensures IsReversedTail(d, Main(Abs()), low + 1)
    {
      ghost var p := Main(Abs());
      d := [];
      var h := height;
      while h > low
        invariant low <= h <= height && IsReversedTail(d, p, h + 1)
      {
        BlockByHeightIsMain(known, h);
        var b := BlockByHeight(h);
        d := d + [b.value];
        h := h - 1;
      }
    }

    /** The situation in which the block being processed is about to become the tip. */
    ghost predicate Proposed(b: Block, ctx: Context)
      reads this, store, cache
    {
      && Synced() && CacheOk(ctx.known) && Pending(ctx)
      && Joins(Abs(), b) && ctx.known == WithBlock(Abs(), b) && ctx.keep == b.hash
    }

    lemma ProposedPaths(b: Block, ctx: Context)
      requires Proposed(b, ctx)
      ensures Path(ctx.known, bestHash) == Main(Abs()) && Path(ctx.known, b.hash) == NewPath(Abs(), b)
      ensures ForkAt(ctx.known, bestHash, b.hash) == Shared(Abs(), b) < |NewPath(Abs(), b)|
    {
      TwoPaths(Abs(), b, ctx.known);
      ForkBelowNew(Abs(), b);
    }

    /** The fast path: the parent is the tip. */
    method ExtendTip(b: Block, ghost ctx: Context) returns (ok: bool)
      requires Proposed(b, ctx) && b.prev == bestHash
      modifies this, store, cache
      ensures ok ==> Valid() && Abs() == State(WithBlock(old(Abs()), b), b.hash) && FinalityAllows(old(Abs()), b)
      ensures !ok ==> unchanged(this) && unchanged(store) && CacheOk(ctx.known)
      ensures !ok ==> PinsKept(old(cache.view), cache.view, Here())
      ensures b.height > 0 && old(Held(cache.view, Here(), ctx, cache.cap)) ==> ok
      ensures ok && b.height > 0 && old(Held(cache.view, Here(), ctx, cache.cap)) && old(Window()) ==> Window()
    {
      var w := CumulativeWork(b.hash, ctx);
      if w.None? { return false; }
      JoinPaths(Abs(), b);
      if b.height > 0 {
        ExtensionIsReorg(Abs(), b);
        ReorgPasses(Abs(), b, |Main(Abs())|, [], [b]);
        if b.hash in cache.view.blocks { ExtensionCached(Abs(), b, cache.view); }
      }
      ok := Switch([], [b], b, w.value, |Main(Abs())|, ctx);
    }

    /** The slow path: leave the main chain at the fork and follow the new branch. */
    method SwitchBranch(b: Block, ghost ctx: Context) returns (ok: bool)
      requires Proposed(b, ctx)
      modifies this, store, cache
      ensures ok ==> Valid() && Abs() == State(WithBlock(old(Abs()), b), b.hash) && FinalityAllows(old(Abs()), b)
      ensures !ok ==> unchanged(this) && unchanged(store) && CacheOk(ctx.known)
      ensures !ok ==> PinsKept(old(cache.view), cache.view, Here())
      ensures old(Held(cache.view, Here(), ctx, cache.cap) && CoversFork(ctx, bestHash, b.hash) && FinalityAllows(Abs(), b)) ==> ok
      ensures old(Window() && |cache.view.lru| <= cache.cap && !BranchFits(Abs(), b, cache.cap)) ==> !ok
      ensures ok && |old(cache.view).lru| <= cache.cap ==> BranchLength(old(Abs()), b) <= cache.cap
      ensures ok && b.height >= old(height) && old(Window() && Held(cache.view, Here(), ctx, cache.cap) && CoversFork(ctx, bestHash, b.hash)) ==> Window()
    {
      FinalityIsWithin(b, ctx);
      ghost var v0 := cache.view;
      var plan := PlanReorg(b, ctx);
      if plan.Some? {
        KeepWindow(v0, ctx.known);
        PlanIsReorg(b, plan.value, ctx);
        ok := Switch(plan.value.disconnect, plan.value.connect, b, plan.value.work, Shared(Abs(), b), ctx);
      } else {
        ok := false;
      }
    }

    lemma FinalityIsWithin(b: Block, ctx: Context)
      requires Proposed(b, ctx)
      ensures FinalityAllows(Abs(), b) <==> WithinFinality(ForkAt(ctx.known, bestHash, b.hash), height)
      ensures BranchFits(Abs(), b, cache.cap) <==> !Overfull(ctx, bestHash, b.hash)
      ensures BranchLength(Abs(), b) <= cache.cap <==> !Overlong(ctx, bestHash, b.hash)
      ensures Path(ctx.known, b.hash) == NewPath(Abs(), b) && ForkAt(ctx.known, bestHash, b.hash) == Shared(Abs(), b)
    {
      ProposedPaths(b, ctx);
    }

    lemma PlanIsReorg(b: Block, plan: Plan, ctx: Context)
      requires Proposed(b, ctx) && PlanFor(plan, ctx, bestHash, b.hash)
      requires ForkAt(ctx.known, bestHash, b.hash) >= 1
      ensures IsReorg(Abs(), b, Shared(Abs(), b), plan.disconnect, plan.connect)
      ensures store.ReorgOk(plan.disconnect, plan.connect, b.hash, b.height)
      ensures plan.work == Work(NewPath(Abs(), b))
    {
      ProposedPaths(b, ctx);
      TailsOfReorg(Abs(), b, plan.disconnect, plan.connect);
      ReorgPasses(Abs(), b, Shared(Abs(), b), plan.disconnect, plan.connect);
    }

    /** `common` is the last shared block of the main chain and the path to newTip. */
    ghost predicate ForksAt(newTip: Hash, common: Block, ctx: Context)
      requires CacheOk(ctx.known) && newTip in ctx.known
      reads this, store, cache
    {
      && Synced() && bestHash in ctx.known && Path(ctx.known, bestHash) == Main(Abs())
      && var n := ForkAt(ctx.known, bestHash, newTip); var q := Path(ctx.known, newTip);
      && 1 <= n < |q| && common.height == n - 1 <= height && common.hash == q[n - 1].hash
    }

    lemma ForkFacts(b: Block, common: Block, ctx: Context)
      requires Proposed(b, ctx)
      requires var n := ForkAt(ctx.known, bestHash, b.hash); n >= 1 && common == Path(ctx.known, bestHash)[n - 1]
      ensures ForksAt(b.hash, common, ctx)
    {
      ForkPoint(Abs(), b, ctx.known);
    }

    /** The plan, once the fork has been found. */
    method PlanAbove(b: Block, common: Block, ghost ctx: Context) returns (r: Option<Plan>)
      requires Proposed(b, ctx)
      requires var n := ForkAt(ctx.known, bestHash, b.hash); n >= 1 && common == Path(ctx.known, bestHash)[n - 1]
      modifies cache
      ensures CacheOk(ctx.known)
      ensures PinsKept(old(cache.view), cache.view, Here())
      ensures r.Some? ==> PlanFor(r.value, ctx, bestHash, b.hash)
      ensures r.None? ==> !(Held(old(cache.view), Here(), ctx, cache.cap) && CoversFork(ctx, bestHash, b.hash))
      ensures old(Window()) && |old(cache.view).lru| <= cache.cap && Overfull(ctx, bestHash, b.hash) ==> r.None?
      ensures |old(cache.view).lru| <= cache.cap && Overlong(ctx, bestHash, b.hash) ==> r.None?
      ensures Held(old(cache.view), Here(), ctx, cache.cap) && CoversFork(ctx, bestHash, b.hash) && r.Some? ==>
        BranchCached(cache.view, Path(ctx.known, b.hash), ForkAt(ctx.known, bestHash, b.hash))
    {
      ForkFacts(b, common, ctx);
      r := CollectPlan(b.hash, common, ctx);
    }

    /** Finds the fork and collects both lists and the new tip's work, touching only the cache. */
    method PlanReorg(b: Block, ghost ctx: Context) returns (r: Option<Plan>)
      requires Proposed(b, ctx)
      modifies cache
      ensures CacheOk(ctx.known)
      ensures PinsKept(old(cache.view), cache.view, Here())
      ensures r.Some? ==> PlanFor(r.value, ctx, bestHash, b.hash) && WithinFinality(ForkAt(ctx.known, bestHash, b.hash), height)
      ensures r.None? && Held(old(cache.view), Here(), ctx, cache.cap) && CoversFork(ctx, bestHash, b.hash) ==>
        !WithinFinality(ForkAt(ctx.known, bestHash, b.hash), height)
      ensures old(Window()) && |old(cache.view).lru| <= cache.cap && Overfull(ctx, bestHash, b.hash) ==> r.None?
      ensures |old(cache.view).lru| <= cache.cap && Overlong(ctx, bestHash, b.hash) ==> r.None?
      ensures Held(old(cache.view), Here(), ctx, cache.cap) && CoversFork(ctx, bestHash, b.hash) && r.Some? ==>
        BranchCached(cache.view, Path(ctx.known, b.hash), ForkAt(ctx.known, bestHash, b.hash))
    {
      ghost var v0 := cache.view;
      var common := LocateFork(b, ctx);
      if common.Some? {
        ghost var v1 := cache.view;
        KeepWindow(v0, ctx.known);
        r := PlanAbove(b, common.value, ctx);
        PinsKeptTrans(v0, v1, cache.view, Here());
      } else {
        r := None;
      }
    }

    /** The branch does not fit the cache beside the pinned blocks. */
    ghost predicate Overfull(ctx: Context, tip: Hash, newTip: Hash)
      requires Linked(ctx.known) && tip in ctx.known && newTip in ctx.known
      reads this
    {
      |Path(ctx.known, newTip)| - ForkAt(ctx.known, tip, newTip) + Here().Room() > cache.cap
    }

    /** The branch alone is longer than the cache. */
    ghost predicate Overlong(ctx: Context, tip: Hash, newTip: Hash)
      requires Linked(ctx.known) && tip in ctx.known && newTip in ctx.known
      reads this
    {
      |Path(ctx.known, newTip)| - ForkAt(ctx.known, tip, newTip) > cache.cap
    }

    /** Both lists of the reorganisation, and the new tip's work. */
    method CollectPlan(newTip: Hash, common: Block, ghost ctx: Context) returns (r: Option<Plan>)
      requires CacheOk(ctx.known) && Pending(ctx) && newTip == ctx.keep && ForksAt(newTip, common, ctx)
      modifies cache
      ensures CacheOk(ctx.known)
      ensures PinsKept(old(cache.view), cache.view, Here())
      ensures r.Some? ==> PlanFor(r.value, ctx, bestHash, newTip)
      ensures r.None? ==> !(Held(old(cache.view), Here(), ctx, cache.cap) && CoversFork(ctx, bestHash, newTip))
      ensures old(Window()) && |old(cache.view).lru| <= cache.cap && Overfull(ctx, bestHash, newTip) ==> r.None?
      ensures |old(cache.view).lru| <= cache.cap && Overlong(ctx, bestHash, newTip) ==> r.None?
      ensures Held(old(cache.view), Here(), ctx, cache.cap) && CoversFork(ctx, bestHash, newTip) && r.Some? ==>
        BranchCached(cache.view, Path(ctx.known, newTip), ForkAt(ctx.known, bestHash, newTip))
    {
      var d := DisconnectPart(newTip, common, ctx);
      r := ConnectPlan(newTip, common.hash, d, bestHash, ctx);
    }

    /** The disconnect list in terms of the known blocks. */
    method DisconnectPart(ghost newTip: Hash, common: Block, ghost ctx: Context) returns (d: seq<Block>)
      requires CacheOk(ctx.known) && Pending(ctx) && newTip == ctx.keep && ForksAt(newTip, common, ctx)
      ensures var n := ForkAt(ctx.known, bestHash, newTip); var q := Path(ctx.known, newTip);
        1 <= n < |q| && common.hash == q[n - 1].hash && IsReversedTail(d, Path(ctx.known, bestHash), n)
      ensures Unpinned(newTip) && Indexes(Here(), ctx.known, bestHash)
    {
      MainIndexes(ctx);
      d := CollectDisconnect(common.height, ctx.known);
    }

    lemma MainIndexes(ctx: Context)
      requires Synced() && CacheOk(ctx.known) && Pending(ctx) && bestHash in ctx.known && Path(ctx.known, bestHash) == Main(Abs())
      ensures Unpinned(ctx.keep) && Indexes(Here(), ctx.known, bestHash)
    {
      forall h | h in byHeight ensures h < |Main(Abs())| && byHeight[h] == Main(Abs())[h].hash && byHeight[h] in store.blocks {
        MainIndex(h);
        PathLinks(store.blocks, store.tip, h);
      }
    }

    /** Adds the connect list and the new tip's work to a disconnect list. */
    method ConnectPlan(newTip: Hash, common: Hash, d: seq<Block>, ghost tip: Hash, ghost ctx: Context) returns (r: Option<Plan>)
      requires CacheOk(ctx.known) && Pending(ctx) && newTip == ctx.keep && tip in ctx.known
      requires var n := ForkAt(ctx.known, tip, newTip); var q := Path(ctx.known, newTip);
        1 <= n < |q| && common == q[n - 1].hash && IsReversedTail(d, Path(ctx.known, tip), n)
      requires Unpinned(newTip) && Indexes(Here(), ctx.known, tip)
      modifies cache
      ensures CacheOk(ctx.known)
      ensures PinsKept(old(cache.view), cache.view, Here())
      ensures r.Some? ==> PlanFor(r.value, ctx, tip, newTip)
      ensures r.None? ==> !(Held(old(cache.view), Here(), ctx, cache.cap) && CoversFork(ctx, tip, newTip))
      ensures old(Window()) && |old(cache.view).lru| <= cache.cap && Overfull(ctx, tip, newTip) ==> r.None?
      ensures |old(cache.view).lru| <= cache.cap && Overlong(ctx, tip, newTip) ==> r.None?
      ensures Held(old(cache.view), Here(), ctx, cache.cap) && CoversFork(ctx, tip, newTip) && r.Some? ==>
        BranchCached(cache.view, Path(ctx.known, newTip), ForkAt(ctx.known, tip, newTip))
    {
      ghost var v0, n := cache.view, ForkAt(ctx.known, tip, newTip);
      var c := CollectConnect(common, newTip, n, ctx);
      if c.Some? {
        ghost var v1 := cache.view;
        WalkLeaves(v0, v1, Here(), ctx.known, tip, newTip, cache.cap);
        var w := CumulativeWork(newTip, ctx);
        PinsKeptTrans(v0, v1, cache.view, Here());
        r := if w.Some? then Some(Plan(d, c.value, w.value)) else None;
      } else {
        r := None;
      }
    }

    /** The finality check followed by the search for the fork. */
    method LocateFork(b: Block, ghost ctx: Context) returns (r: Option<Block>)
      requires Proposed(b, ctx)
      modifies cache
      ensures CacheOk(ctx.known)
      ensures Served(old(cache.view), cache.view, Here(), ctx, cache.cap, CoversFork(ctx, bestHash, b.hash))
      ensures var n := ForkAt(ctx.known, bestHash, b.hash);
        && (r.Some? ==> WithinFinality(n, height) && r.value == Path(ctx.known, bestHash)[n - 1])
        && (r.None? && Held(old(cache.view), Here(), ctx, cache.cap) && CoversFork(ctx, bestHash, b.hash) ==>
              !WithinFinality(n, height))
    {
      ghost var v0, cov := cache.view, CoversFork(ctx, bestHash, b.hash);
      var fin := EnforceFinality(b.hash, ctx);
      if fin {
        ghost var v1 := cache.view;
        r := FindCommonAncestor(bestHash, b.hash, ctx);
        ServedTrans(v0, v1, cache.view, Here(), ctx, cache.cap, cov, cov, cov);
      } else {
        r := None;
      }
    }

    method ReorganizeTo(b: Block, ghost ctx: Context) returns (ok: bool)
      requires Proposed(b, ctx)
      modifies this, store, cache
      ensures ok ==> Valid() && Abs() == State(WithBlock(old(Abs()), b), b.hash) && FinalityAllows(old(Abs()), b)
      ensures !ok ==> unchanged(this) && unchanged(store) && CacheOk(ctx.known)
      ensures !ok && old(Window()) ==> Window()
      ensures b.height > 0 && b.prev == old(bestHash) && old(Held(cache.view, Here(), ctx, cache.cap)) ==> ok
      ensures ok && b.prev == old(bestHash) && old(Held(cache.view, Here(), ctx, cache.cap)) && old(Window()) ==> Window()
      ensures old(Held(cache.view, Here(), ctx, cache.cap) && CoversFork(ctx, bestHash, b.hash) && FinalityAllows(Abs(), b)) ==> ok
      ensures old(Window() && |cache.view.lru| <= cache.cap && !BranchFits(Abs(), b, cache.cap)) ==> !ok
      ensures ok && |old(cache.view).lru| <= cache.cap ==> BranchLength(old(Abs()), b) <= cache.cap
      ensures ok && b.height >= old(height) && old(Window() && Held(cache.view, Here(), ctx, cache.cap) && CoversFork(ctx, bestHash, b.hash)) ==> Window()
    {
      if b.hash !in cache.view.blocks { return false; }
      ghost var v0 := cache.view;
      ForkBelowNew(Abs(), b);
      if b.height > 0 && b.prev == bestHash { ExtensionFits(Abs(), b, cache.cap); }
      if b.prev == bestHash {
        ok := ExtendTip(b, ctx);
      } else {
        ok := SwitchBranch(b, ctx);
      }
      if !ok { KeepWindow(v0, ctx.known); }
    }

    // -------------------------------------------------------------- processing a block

    /** Caches the new block and its work; a small enough walk cannot evict it afterwards. */
    method Insert(b: Block, work: nat, ghost ctx: Context)
      requires Valid() && Joins(Abs(), b) && b.hash !in cache.view.blocks
      requires ctx.known == WithBlock(Abs(), b) && ctx.keep == b.hash && work == Work(NewPath(Abs(), b))
      modifies cache
      ensures Proposed(b, ctx) && |cache.view.lru| <= cache.cap
      ensures old(Window()) ==> Window()
      ensures |ctx.walk| + Here().Room() < cache.cap && AllPinned(old(cache.view), Here(), ctx.safe) ==> Held(cache.view, Here(), ctx, cache.cap)
    {
      ghost var v0 := cache.view;
      InsertedFacts(Abs(), b, v0, work);
      InsertHeld(v0, Here(), ctx, cache.cap, b, work);
      cache.AddBlock(b.hash, b);
      cache.AddWork(b.hash, work);
      ghost var v1 := cache.view;
      assert v1 == Inserted(v0, b, work);
      Trim(ctx);
      PinsKeptTrans(v0, v1, cache.view, Here());
      KeepWindow(v0, ctx.known);
    }

    lemma KeepWindow(v0: View, known: map<Hash, Block>)
      requires CacheOk(known) && Agrees(v0, known) && PinsKept(v0, cache.view, Here())
      ensures WindowOf(v0, Here()) ==> Window()
    {
      if WindowOf(v0, Here()) { WindowKept(v0, cache.view, Here(), known); }
    }

    /** Drops a refused block again. */
    method Retract(b: Block, ghost ctx: Context)
      requires Proposed(b, ctx)
      modifies cache
      ensures Valid() && (old(Window()) ==> Window())
    {
      JoinPaths(Abs(), b);
      ghost var v0 := cache.view;
      cache.Forget(b.hash);
      AgreesShrink(Abs(), b, v0, cache.view);
      forall k | Pinned(v0.blocks, Here(), k) ensures Pinned(cache.view.blocks, Here(), k) {
        MainIndex(v0.blocks[k].height);
        PathIsChain(store.blocks, store.tip);
      }
      AgreesGrow(Abs(), b, cache.view);
      if WindowOf(v0, Here()) { WindowKept(v0, cache.view, Here(), ctx.known); }
    }

    /** Stores a block that does not become the tip. */
    method SaveSide(b: Block, ghost ctx: Context)
      requires Proposed(b, ctx) && Work(NewPath(Abs(), b)) <= Work(Main(Abs()))
      modifies store
      ensures Valid() && Chosen(old(Abs()), b, OnSide, Abs()) && Window() == old(Window())
    {
      JoinKeepsTip(Abs(), b);
      var _ := store.SaveBlock(b);
    }

    /** The work at a new block on top of its parent, if it fits 64 bits. */
    method WorkOnParent(b: Block) returns (r: Option<nat>)
      requires Valid() && Attached(Abs(), b)
      modifies cache
      ensures Valid()
      ensures PinsKept(old(cache.view), cache.view, Here())
      ensures var w := Work(ParentPath(Abs(), b)) + b.difficulty; r == if w < U64_LIMIT then Some(w) else None
    {
      ghost var ctx := Context(store.blocks, 0, {}, {});
      var parentWork := 0;
      if b.height > 0 {
        var p := CumulativeWork(b.prev, ctx);
        parentWork := p.value;
      }
      r := if b.difficulty > U64_LIMIT - 1 - parentWork then None else Some(parentWork + b.difficulty);
    }

    /** Processes one block: one step of the chain model. */
    method ProcessBlock(b: Block, external: bool, warm: bool) returns (r: Outcome)
      requires Valid()
      modifies this, store, cache
      ensures Valid()
      ensures Next(old(Abs()), StepOf(r, b), Abs())
      ensures r != Refused ==> external
      ensures external && old(Admissible(Abs(), b) && Work(NewPath(Abs(), b)) <= Work(Main(Abs()))) ==> r == OnSide
      ensures external && old(Window() && Admissible(Abs(), b) && Work(NewPath(Abs(), b)) > Work(Main(Abs()))) ==>
        (r == OnMain <==> old(Adoptable(Abs(), b, cache.cap)))
      ensures external && old(Admissible(Abs(), b) && Work(NewPath(Abs(), b)) > Work(Main(Abs())) && Reachable(Abs(), b, cache.cap)) ==>
        r == OnMain
      ensures r == OnMain ==> BranchLength(old(Abs()), b) <= cache.cap
      ensures old(Window()) && (r == OnMain ==> b.height >= old(height)) ==> Window()
    {
      if b.hash in cache.view.blocks || b.hash in store.blocks { return Refused; }
      var work := Screen(b, external, warm);
      if work.Some? {
        r := Choose(b, work.value);
      } else {
        r := Refused;
      }
    }

    /** Validation and the work check of a block not yet known. */
    method Screen(b: Block, external: bool, warm: bool) returns (work: Option<nat>)
      requires Valid() && b.hash !in store.blocks
      modifies cache
      ensures Valid() && (old(Window()) ==> Window())
      ensures work.Some? <==> external && Admissible(Abs(), b)
      ensures work.Some? ==> work.value == Work(NewPath(Abs(), b))
    {
      ghost var v0, bs := cache.view, store.blocks;
      var ok := Validate(b, external, warm);
      if ok {
        ghost var v1 := cache.view;
        work := WorkOnParent(b);
        PinsKeptTrans(v0, v1, cache.view, Here());
        if work.Some? { NewPathWork(Abs(), b); }
      } else {
        work := None;
      }
      KeepWindow(v0, bs);
    }

    /** With the recent main chain cached, the blocks a switch within finality takes off are pinned. */
    lemma MainIsPinned(b: Block)
      requires Valid() && Window() && Joins(Abs(), b) && FinalityAllows(Abs(), b)
      ensures AllPinned(cache.view, Here(), HashesIn(Main(Abs()), Shared(Abs(), b) - 1, |Main(Abs())|))
    {
      var p, n := Main(Abs()), Shared(Abs(), b);
      forall i | n - 1 <= i < |p| ensures Pinned(cache.view.blocks, Here(), p[i].hash) { MainIndex(i); }
    }

    /** The context in which b is placed: what is known, and what the switch may look up. */
    lemma PlaceContext(b: Block, ready: bool) returns (ctx: Context)
      requires Valid() && Admissible(Abs(), b)
      requires ready ==> Reachable(Abs(), b, cache.cap) || (Window() && Adoptable(Abs(), b, cache.cap))
      ensures ctx.known == WithBlock(Abs(), b) && ctx.keep == b.hash && GoodStore(ctx.known)
      ensures ready ==> CoversFork(ctx, bestHash, b.hash) && FinalityAllows(Abs(), b)
      ensures ready || b.prev == bestHash ==> |ctx.walk| + Here().Room() < cache.cap && AllPinned(cache.view, Here(), ctx.safe)
    {
      AdmitGood(Abs(), b);
      if ready {
        var windowed := !Reachable(Abs(), b, cache.cap);
        ctx := SwitchCovers(Abs(), b, windowed);
        if windowed { MainIsPinned(b); }
      } else {
        ctx := Context(WithBlock(Abs(), b), b.hash, {}, {});
      }
    }

    /** Fork choice, with what decides it. */
    method Choose(b: Block, work: nat) returns (r: Outcome)
      requires Valid() && Admissible(Abs(), b) && work == Work(NewPath(Abs(), b)) && b.hash !in cache.view.blocks
      modifies this, store, cache
      ensures Valid()
      ensures Next(old(Abs()), StepOf(r, b), Abs())
      ensures r == OnSide <==> work <= old(totalWork)
      ensures work > old(totalWork) && old(Window()) ==> (r == OnMain <==> old(Adoptable(Abs(), b, cache.cap)))
      ensures work > old(totalWork) && old(Reachable(Abs(), b, cache.cap)) ==> r == OnMain
      ensures r == OnMain ==> BranchLength(old(Abs()), b) <= cache.cap
      ensures old(Window()) && (r == OnMain ==> b.height >= old(height)) ==> Window()
    {
      ghost var reachable, adoptable, window := Reachable(Abs(), b, cache.cap), Adoptable(Abs(), b, cache.cap), Window();
      ghost var allowed, fits := FinalityAllows(Abs(), b), BranchFits(Abs(), b, cache.cap);
      ghost var ready := reachable || (window && adoptable);
      assert adoptable <==> allowed && fits;
      ghost var ctx := PlaceContext(b, ready);
      r := Place(b, work, ready, ctx);
      assert r == OnMain ==> allowed && (window ==> fits);
    }

    /** Places a block that has passed validation: a heavier block is tried as the new
        tip, any other is stored on its branch. */
    method Place(b: Block, work: nat, ghost ready: bool, ghost ctx: Context) returns (r: Outcome)
      requires Valid() && Admissible(Abs(), b) && work == Work(NewPath(Abs(), b)) && b.hash !in cache.view.blocks
      requires ctx.known == WithBlock(Abs(), b) && ctx.keep == b.hash && GoodStore(ctx.known)
      requires ready ==> CoversFork(ctx, bestHash, b.hash) && FinalityAllows(Abs(), b)
      requires ready || b.prev == bestHash ==> |ctx.walk| + Here().Room() < cache.cap && AllPinned(cache.view, Here(), ctx.safe)
      modifies this, store, cache
      ensures Valid()
      ensures Next(old(Abs()), StepOf(r, b), Abs())
      ensures r == OnSide <==> work <= old(totalWork)
      ensures work > old(totalWork) && ready ==> r == OnMain
      ensures work > old(totalWork) && old(Window() && !BranchFits(Abs(), b, cache.cap)) ==> r == Refused
      ensures r == OnMain ==> old(FinalityAllows(Abs(), b)) && BranchLength(old(Abs()), b) <= cache.cap
      ensures old(Window()) && (r == OnMain ==> ready && b.height >= old(height)) ==> Window()
    {
      AdmitGood(Abs(), b);
      Insert(b, work, ctx);
      if work > totalWork {
        r := TakeOver(b, ready, ctx);
      } else {
        SaveSide(b, ctx);
        r := OnSide;
      }
    }

    /** Tries to make the heavier block the tip. */
    method TakeOver(b: Block, ghost ready: bool, ghost ctx: Context) returns (r: Outcome)
      requires Proposed(b, ctx) && Work(NewPath(Abs(), b)) > Work(Main(Abs()))
      requires ready ==>
        Held(cache.view, Here(), ctx, cache.cap) && CoversFork(ctx, bestHash, b.hash) && FinalityAllows(Abs(), b)
      requires b.prev == bestHash ==> Held(cache.view, Here(), ctx, cache.cap)
      modifies this, store, cache
      ensures Valid() && r != OnSide
      ensures Chosen(old(Abs()), b, r, Abs())
      ensures ready ==> r == OnMain
      ensures old(Window() && |cache.view.lru| <= cache.cap && !BranchFits(Abs(), b, cache.cap)) ==> r == Refused
      ensures |old(cache.view).lru| <= cache.cap && r == OnMain ==> BranchLength(old(Abs()), b) <= cache.cap
      ensures old(Window()) && (r == OnMain ==> ready && b.height >= old(height)) ==> Window()
    {
      var ok := ReorganizeTo(b, ctx);
      if ok {
        r := OnMain;
      } else {
        Retract(b, ctx);
        r := Refused;
      }
    }
  }
}
