/** The block cache against the blocks known to the chain: what a lookup may do to it, and which
    blocks it is sure to hold. */
module Serving {
  import opened Words
  import opened Seqs
  import opened Blocks
  import opened ChainModel
  import opened Storage
  import opened Cache
  import opened Fork

  ghost predicate WorkRight(known: map<Hash, Block>, k: Hash, w: nat)
    requires Linked(known)
  {
    k in known && w == Work(Path(known, k))
  }

  /** Cached blocks and work entries are those of the known blocks. */
  ghost predicate Agrees(v: View, known: map<Hash, Block>)
    requires Linked(known)
  {
    Sub(v.blocks, known) && forall k :: k in v.workAt ==> WorkRight(known, k, v.workAt[k])
  }

  /** The blocks known at some moment: the stored ones and the one being processed, if any.
      `keep` is the latter; `walk` are the hashes the current operation may look up, besides
      those in `safe`, which are pinned. */
  datatype Context = Context(known: map<Hash, Block>, keep: Hash, walk: set<Hash>, safe: set<Hash>) {
    ghost predicate Covers(k: Hash) { k in walk || k == keep || k in safe }
  }

  ghost predicate AllPinned(v: View, pins: Pins, safe: set<Hash>) {
    forall k :: k in safe ==> Pinned(v.blocks, pins, k)
  }

  /** The block being processed is cached and cannot have been overtaken by too many others. */
  ghost predicate Held(v: View, pins: Pins, ctx: Context, cap: nat) {
    && ctx.keep in v.blocks && ctx.keep in v.workAt
    && Recent(v.lru, v.blocks, pins, ctx.keep, ctx.walk)
    && |ctx.walk| + pins.Room() < cap && AllPinned(v, pins, ctx.safe)
  }

  ghost predicate PinsKept(v0: View, v: View, pins: Pins) {
    forall k {:trigger Pinned(v0.blocks, pins, k)} :: Pinned(v0.blocks, pins, k) ==> Pinned(v.blocks, pins, k)
  }

  lemma PinsKeptTrans(v0: View, v1: View, v2: View, pins: Pins)
    requires PinsKept(v0, v1, pins) && PinsKept(v1, v2, pins)
    ensures PinsKept(v0, v2, pins)
  {
    forall k | Pinned(v0.blocks, pins, k) ensures Pinned(v2.blocks, pins, k) { assert Pinned(v1.blocks, pins, k); }
  }

  /** What a lookup does to the cache: pinned blocks stay, so does the block being processed as
      long as only covered hashes are looked up, and the cache does not outgrow its capacity. */
  ghost predicate Served(v0: View, v: View, pins: Pins, ctx: Context, cap: nat, covered: bool) {
    && PinsKept(v0, v, pins) && (covered && Held(v0, pins, ctx, cap) ==> Held(v, pins, ctx, cap))
    && (|v0.lru| <= cap ==> |v.lru| <= cap)
  }

  lemma ServedTrans(v0: View, v1: View, v2: View, pins: Pins, ctx: Context, cap: nat, c: bool, c1: bool, c2: bool)
    requires Served(v0, v1, pins, ctx, cap, c1) && Served(v1, v2, pins, ctx, cap, c2) && (c ==> c1 && c2)
    ensures Served(v0, v2, pins, ctx, cap, c)
  {
    PinsKeptTrans(v0, v1, v2, pins);
  }

  /** Block x is cached, and was used after y. */
  ghost predicate AheadIn(v: View, x: Hash, y: Hash) {
    x in v.blocks && Ahead(v.lru, x, y)
  }

  /** If keep is still cached, it was before, and the blocks of ks and all that were ahead of
      it are ahead of it now. */
  ghost predicate Overtaken(v0: View, v: View, keep: Hash, ks: set<Hash>) {
    keep in v.lru ==>
      && keep in v0.lru && (forall x :: x in ks ==> AheadIn(v, x, keep))
      && (forall x :: AheadIn(v0, x, keep) ==> AheadIn(v, x, keep))
  }

  lemma OvertakenTrans(v0: View, v1: View, v2: View, keep: Hash, ks: set<Hash>, ls: set<Hash>)
    requires Overtaken(v0, v1, keep, ks) && Overtaken(v1, v2, keep, ls)
    ensures Overtaken(v0, v2, keep, ks + ls)
  {
  }

  ghost predicate CoversFrom(ctx: Context, p: seq<Block>, i: nat) {
    forall k :: i <= k < |p| ==> ctx.Covers(p[k].hash)
  }

  ghost function ForkAt(known: map<Hash, Block>, a: Hash, b: Hash): nat
    requires Linked(known) && a in known && b in known
  {
    CommonLength(Path(known, a), Path(known, b))
  }

  /** Both paths from the last shared block (or the root) upwards are covered. */
  ghost predicate CoversFork(ctx: Context, a: Hash, b: Hash)
    requires Linked(ctx.known) && a in ctx.known && b in ctx.known
  {
    var n := ForkAt(ctx.known, a, b);
    var low := if n == 0 then 0 else n - 1;
    CoversFrom(ctx, Path(ctx.known, a), low) && CoversFrom(ctx, Path(ctx.known, b), low)
  }

  lemma TipsCovered(ctx: Context, a: Hash, b: Hash)
    requires Linked(ctx.known) && a in ctx.known && b in ctx.known
    ensures CoversFork(ctx, a, b) ==> ctx.Covers(a) && ctx.Covers(b)
  {
    assert LinkedAt(ctx.known, a) && LinkedAt(ctx.known, b);
    var p, q := Path(ctx.known, a), Path(ctx.known, b);
    if CoversFork(ctx, a, b) { assert ctx.Covers(p[|p| - 1].hash) && ctx.Covers(q[|q| - 1].hash); }
  }

  function Added(v: View, k: Hash, b: Block): View {
    View(v.blocks[k := b], v.workAt, Touched(v.lru, k))
  }

  /** An access to a cached block. */
  lemma TouchServed(v: View, pins: Pins, ctx: Context, cap: nat, k: Hash)
    requires v.Shape() && k in v.lru
    ensures Served(v, v.(lru := Touched(v.lru, k)), pins, ctx, cap, ctx.Covers(k))
    ensures k != ctx.keep && k in v.blocks ==> Overtaken(v, v.(lru := Touched(v.lru, k)), ctx.keep, {k})
  {
    TouchedFacts(v.lru, k);
    if ctx.Covers(k) && Held(v, pins, ctx, cap) {
      TouchKeepsRecent(v.lru, v.blocks, pins, ctx.keep, ctx.walk, k);
    }
    if k != ctx.keep && ctx.keep in v.lru { TouchOrder(v.lru, k, ctx.keep); }
  }

  /** Caching one more known block, before trimming. */
  lemma AddServed(v: View, pins: Pins, ctx: Context, cap: nat, k: Hash, b: Block)
    requires v.Shape() && k !in v.blocks
    ensures PinsKept(v, Added(v, k, b), pins)
    ensures ctx.Covers(k) && Held(v, pins, ctx, cap) ==> Held(Added(v, k, b), pins, ctx, cap)
  {
    var w := Added(v, k, b);
    forall x | Pinned(v.blocks, pins, x) ensures Pinned(w.blocks, pins, x) { assert x != k; }
    if ctx.Covers(k) && Held(v, pins, ctx, cap) {
      assert k !in ctx.safe;
      TouchKeepsRecent(v.lru, v.blocks, pins, ctx.keep, ctx.walk, k);
      var i: nat :| i < |w.lru| && w.lru[i] == ctx.keep && AheadOk(w.lru, v.blocks, pins, i, ctx.walk);
      assert AheadOk(w.lru, w.blocks, pins, i, ctx.walk);
    }
  }

  /** Trimming to the capacity. */
  lemma TrimServed(v0: View, v: View, pins: Pins, ctx: Context, cap: nat)
    requires Trimmed(v0, v, pins) && |v.lru| <= cap
    requires Recent(v0.lru, v0.blocks, pins, ctx.keep, ctx.walk) && |ctx.walk| + pins.Room() < cap ==>
      Recent(v.lru, v.blocks, pins, ctx.keep, ctx.walk)
    ensures Served(v0, v, pins, ctx, cap, true)
  {
    forall k | Pinned(v0.blocks, pins, k) ensures Pinned(v.blocks, pins, k) { assert k in v.blocks; }
    if Held(v0, pins, ctx, cap) { assert ctx.keep in v.lru; }
  }

  /** Caching a block and trimming: whatever stays behind it is overtaken by it. */
  lemma LoadOvertakes(v0: View, v: View, pins: Pins, keep: Hash, k: Hash, b: Block)
    requires v0.Shape() && k != keep && !Pinned(v0.blocks, pins, keep)
    requires Trimmed(Added(v0, k, b), v, pins) && OrderKept(Added(v0, k, b), v, pins)
    ensures Overtaken(v0, v, keep, {k})
  {
    var w := Added(v0, k, b);
    TouchedFacts(v0.lru, k);
    if keep in v.lru {
      assert keep in w.lru;
      TouchOrder(v0.lru, k, keep);
      forall x | x == k || AheadIn(v0, x, keep) ensures AheadIn(v, x, keep) {
        assert Ahead(w.lru, x, keep) && Ahead(v.lru, x, keep);
      }
    }
  }

  lemma AddAgrees(v: View, known: map<Hash, Block>, k: Hash)
    requires Linked(known) && Agrees(v, known) && k in known
    ensures Agrees(Added(v, k, known[k]), known)
  {
  }

  lemma TrimAgrees(v0: View, v: View, pins: Pins, known: map<Hash, Block>)
    requires Linked(known) && Agrees(v0, known) && Trimmed(v0, v, pins)
    ensures Agrees(v, known)
  {
  }

  lemma WorkStep(known: map<Hash, Block>, k: Hash)
    requires GoodStore(known) && k in known
    ensures known[k].height > 0 ==> known[k].prev in known && known[known[k].prev].height < known[k].height
    ensures Work(Path(known, k)) < U64_LIMIT
    ensures Work(Path(known, k)) ==
      known[k].difficulty + if known[k].height > 0 then Work(Path(known, known[k].prev)) else 0
  {
    assert LinkedAt(known, k);
    var p := Path(known, k);
    assert GoodBlock(known, k);
    GoodPathWork(p);
    if known[k].height > 0 {
      assert p[..|p| - 1] == Path(known, known[k].prev);
    } else {
      assert p[..|p| - 1] == [];
    }
  }

  lemma AddWorkServed(v: View, pins: Pins, ctx: Context, cap: nat, k: Hash, w: nat)
    requires Linked(ctx.known) && Agrees(v, ctx.known) && WorkRight(ctx.known, k, w)
    ensures Agrees(View(v.blocks, v.workAt[k := w], Touched(v.lru, k)), ctx.known)
    ensures PinsKept(v, View(v.blocks, v.workAt[k := w], Touched(v.lru, k)), pins)
  {
  }

  /** Every height within PROTECTED_BACK of the tip is indexed and its block cached. */
  ghost predicate WindowOf(v: View, pins: Pins) {
    forall h: nat :: h <= pins.height <= h + PROTECTED_BACK ==>
      h in pins.byHeight && pins.byHeight[h] in v.blocks && v.blocks[pins.byHeight[h]].height == h
  }

  lemma WindowKept(v0: View, v: View, pins: Pins, known: map<Hash, Block>)
    requires Linked(known) && Agrees(v0, known) && Agrees(v, known)
    requires WindowOf(v0, pins) && PinsKept(v0, v, pins)
    ensures WindowOf(v, pins)
  {
    forall h: nat | h <= pins.height <= h + PROTECTED_BACK
      ensures h in pins.byHeight && pins.byHeight[h] in v.blocks && v.blocks[pins.byHeight[h]].height == h
    {
      assert Pinned(v0.blocks, pins, pins.byHeight[h]);
    }
  }

  /** The lists replace the main chain from height n on. */
  ghost predicate Replaces(d: seq<Block>, c: seq<Block>, n: nat, top: nat) {
    && (forall i :: 0 <= i < |d| ==> d[i].height >= n)
    && (forall i :: 0 <= i < |c| ==> c[i].height == n + i) && n + |c| == top + 1
  }

  ghost predicate AllCachedIn(v: View, c: seq<Block>) {
    forall i :: 0 <= i < |c| ==> c[i].hash in v.blocks && v.blocks[c[i].hash].height == c[i].height
  }

  /** A switch to cached blocks that does not lower the height keeps the recent chain cached. */
  lemma WindowMoves(v: View, pins: Pins, pins': Pins, d: seq<Block>, c: seq<Block>, n: nat)
    requires WindowOf(v, pins) && Replaces(d, c, n, pins'.height) && AllCachedIn(v, c) && n <= pins.height + 1
    requires pins'.byHeight == Indexed(pins.byHeight - Heights(d), c) && pins'.height >= pins.height
    ensures WindowOf(v, pins')
  {
    forall h: nat | h <= pins'.height <= h + PROTECTED_BACK
      ensures h in pins'.byHeight && pins'.byHeight[h] in v.blocks && v.blocks[pins'.byHeight[h]].height == h
    {
      IndexedAt(pins.byHeight - Heights(d), c, n, h);
      if h < n { assert h in pins.byHeight && h !in Heights(d); }
    }
  }

  /** Cached entries stay right when the known blocks grow. */
  lemma AgreesExtend(v: View, known: map<Hash, Block>, known': map<Hash, Block>)
    requires Linked(known) && Linked(known') && Sub(known, known') && Agrees(v, known)
    ensures Agrees(v, known')
  {
    forall k | k in v.workAt ensures WorkRight(known', k, v.workAt[k]) {
      assert WorkRight(known, k, v.workAt[k]);
      PathExtend(known, known', k);
    }
  }

  lemma AgreesInsert(v: View, known: map<Hash, Block>, b: Block, work: nat)
    requires Linked(known) && Agrees(v, known)
    requires b.hash in known && known[b.hash] == b && WorkRight(known, b.hash, work)
    ensures Agrees(Inserted(v, b, work), known)
  {
  }

  lemma AgreesGrow(s: State, b: Block, v: View)
    requires Inv(s) && Joins(s, b) && Agrees(v, s.blocks)
    ensures Linked(WithBlock(s, b)) && Agrees(v, WithBlock(s, b))
  {
    StoreLinked(s, b);
    AgreesExtend(v, s.blocks, WithBlock(s, b));
  }

  lemma AgreesShrink(s: State, b: Block, v0: View, v: View)
    requires Inv(s) && Joins(s, b) && Linked(WithBlock(s, b)) && Agrees(v0, WithBlock(s, b))
    requires v.blocks == v0.blocks - {b.hash} && v.workAt == v0.workAt - {b.hash}
    ensures Agrees(v, s.blocks)
  {
    JoinPaths(s, b);
    forall k | k in v.workAt ensures WorkRight(s.blocks, k, v.workAt[k]) {
      assert WorkRight(WithBlock(s, b), k, v0.workAt[k]);
      assert k in s.blocks;
    }
  }

  function Inserted(v: View, b: Block, work: nat): View {
    View(v.blocks[b.hash := b], v.workAt[b.hash := work], Touched(Touched(v.lru, b.hash), b.hash))
  }

  lemma InsertedFacts(s: State, b: Block, v: View, work: nat)
    requires Inv(s) && Joins(s, b) && Agrees(v, s.blocks) && work == Work(NewPath(s, b))
    ensures GoodStore(WithBlock(s, b)) && Agrees(Inserted(v, b, work), WithBlock(s, b))
    ensures Sub(s.blocks, WithBlock(s, b)) && Agrees(v, WithBlock(s, b))
  {
    JoinPaths(s, b);
    AgreesGrow(s, b, v);
    AgreesInsert(v, WithBlock(s, b), b, work);
  }

  /** The freshly cached block is in front of the recency list. */
  lemma InsertHeld(v: View, pins: Pins, ctx: Context, cap: nat, b: Block, work: nat)
    requires v.Shape() && b.hash !in v.blocks && ctx.keep == b.hash
    ensures PinsKept(v, Inserted(v, b, work), pins)
    ensures |ctx.walk| + pins.Room() < cap && AllPinned(v, pins, ctx.safe) ==> Held(Inserted(v, b, work), pins, ctx, cap)
  {
    var w := Inserted(v, b, work);
    assert w.lru[0] == b.hash && AheadOk(w.lru, w.blocks, pins, 0, ctx.walk);
    forall k | Pinned(v.blocks, pins, k) ensures Pinned(w.blocks, pins, k) { assert k != b.hash; }
  }
}
