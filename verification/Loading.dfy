/** Loading a chain from its store (block.go): what has been read, and the repair of the
    cumulative work. */
module Loading {
  import opened Words
  import opened Seqs
  import opened Blocks
  import opened ChainModel
  import opened Storage
  import opened Cache
  import opened Fork
  import opened Serving

  /** Work of the first n blocks of p. */
  ghost function WorkTo(p: seq<Block>, n: nat): nat
    requires n <= |p|
  {
    if n == 0 then 0 else WorkTo(p, n - 1) + p[n - 1].difficulty
  }

  lemma {:induction false} WorkToIsWork(p: seq<Block>, n: nat)
    requires n <= |p|
    ensures WorkTo(p, n) == Work(p[..n])
  {
    if n > 0 {
      WorkToIsWork(p, n - 1);
      assert p[..n][..n - 1] == p[..n - 1];
    }
  }

  /** Work of p[lo], ..., p[i]. */
  ghost function RelativeWork(p: seq<Block>, lo: nat, i: nat): int
    requires lo <= i + 1 <= |p|
  {
    WorkTo(p, i + 1) - WorkTo(p, lo)
  }

  ghost predicate LoadedAt(v: View, byHeight: map<nat, Hash>, p: seq<Block>, lo: nat, i: nat)
    requires lo <= i < |p|
  {
    && p[i].hash in v.blocks && v.blocks[p[i].hash] == p[i]
    && p[i].hash in v.workAt && v.workAt[p[i].hash] == RelativeWork(p, lo, i)
    && i in byHeight && byHeight[i] == p[i].hash
  }

  ghost predicate LoadedKey(p: seq<Block>, lo: nat, n: nat, k: Hash) {
    exists i :: lo <= i < n <= |p| && p[i].hash == k
  }

  /** The cache and the height index hold exactly p[lo], ..., p[n - 1], with relative work. */
  ghost predicate Loaded(v: View, byHeight: map<nat, Hash>, p: seq<Block>, lo: nat, n: nat) {
    && lo <= n <= |p|
    && (forall i: nat {:trigger LoadedAt(v, byHeight, p, lo, i)} :: lo <= i < n ==> LoadedAt(v, byHeight, p, lo, i))
    && (forall k {:trigger LoadedKey(p, lo, n, k)} :: k in v.blocks || k in v.workAt ==> LoadedKey(p, lo, n, k))
    && (forall h :: h in byHeight ==> lo <= h < n)
  }

  /** The view after one more block. */
  function LoadedUnder(v: View, k: Hash, b: Block, work: nat): View {
    View(v.blocks[k := b], v.workAt[k := work], Touched(v.lru, k))
  }

  function LoadedNext(v: View, b: Block, work: nat): View {
    LoadedUnder(v, b.hash, b, work)
  }

  function ParentWork(v: View, b: Block, n: nat): nat {
    if n > 0 && b.prev in v.workAt then v.workAt[b.prev] else 0
  }

  /** Enters a loaded block and its work relative to the loaded part into the cache; the work of
      a block whose sum overflows is not entered. */
  method LoadEntry(cache: BlockCache, k: Hash, b: Block, h: nat) returns (work: Option<nat>)
    requires cache.Valid()
    modifies cache
    ensures cache.Valid()
    ensures var w := ParentWork(old(cache.view), b, h) + b.difficulty; work == if w < U64_LIMIT then Some(w) else None
    ensures work.Some? ==> cache.view == LoadedUnder(old(cache.view), k, b, work.value)
  {
    ghost var v0 := cache.view;
    cache.AddBlock(k, b);
    var parentWork := ParentWork(cache.view, b, h);
    if b.difficulty > U64_LIMIT - 1 - parentWork { return None; }
    var w := parentWork + b.difficulty;
    cache.SetWork(k, w);
    assert cache.view == View(v0.blocks[k := b], v0.workAt[k := w], Touched(v0.lru, k));
    return Some(w);
  }

  lemma LoadedParentWork(v: View, byHeight: map<nat, Hash>, p: seq<Block>, lo: nat, n: nat)
    requires n < |p| && Loaded(v, byHeight, p, lo, n) && (n > 0 ==> p[n].prev == p[n - 1].hash)
    ensures ParentWork(v, p[n], n) + p[n].difficulty == RelativeWork(p, lo, n)
  {
    if n > lo {
      assert LoadedAt(v, byHeight, p, lo, n - 1);
    } else {
      assert n > 0 ==> !LoadedKey(p, lo, n, p[n].prev);
    }
  }

  lemma LoadStep(v: View, byHeight: map<nat, Hash>, p: seq<Block>, lo: nat, n: nat, work: nat)
    requires n < |p| && Loaded(v, byHeight, p, lo, n) && work == RelativeWork(p, lo, n)
    requires forall i :: 0 <= i < n ==> p[i].hash != p[n].hash
    ensures Loaded(LoadedNext(v, p[n], work), byHeight[n := p[n].hash], p, lo, n + 1)
  {
    var w, bh := LoadedNext(v, p[n], work), byHeight[n := p[n].hash];
    forall i: nat | lo <= i < n + 1 ensures LoadedAt(w, bh, p, lo, i) {
      if i < n { assert LoadedAt(v, byHeight, p, lo, i); }
    }
    forall k | k in w.blocks || k in w.workAt ensures LoadedKey(p, lo, n + 1, k) {
      if k == p[n].hash {
        assert p[n].hash == k;
      } else {
        assert LoadedKey(p, lo, n, k);
      }
    }
  }

  lemma LoadNext(v: View, byHeight: map<nat, Hash>, p: seq<Block>, lo: nat, n: nat)
    requires n < |p| && Loaded(v, byHeight, p, lo, n) && (n > 0 ==> p[n].prev == p[n - 1].hash)
    requires forall i :: 0 <= i < n ==> p[i].hash != p[n].hash
    ensures ParentWork(v, p[n], n) + p[n].difficulty <= WorkTo(p, n + 1)
    ensures Loaded(LoadedNext(v, p[n], ParentWork(v, p[n], n) + p[n].difficulty), byHeight[n := p[n].hash], p, lo, n + 1)
  {
    LoadedParentWork(v, byHeight, p, lo, n);
    LoadStep(v, byHeight, p, lo, n, ParentWork(v, p[n], n) + p[n].difficulty);
  }

  lemma PathNext(bs: map<Hash, Block>, tip: Hash, n: nat)
    requires GoodStore(bs) && tip in bs && n <= bs[tip].height
    ensures var p := Path(bs, tip);
      && p[n].hash in bs && bs[p[n].hash] == p[n] && WorkTo(p, n + 1) < U64_LIMIT
      && (n > 0 ==> p[n].prev == p[n - 1].hash) && forall i :: 0 <= i < n ==> p[i].hash != p[n].hash
  {
    var p := Path(bs, tip);
    PathLinks(bs, tip, n);
    forall i | 0 <= i < n ensures p[i].hash != p[n].hash { DistinctHashes(bs, tip, i, n); }
    WorkBelow(bs, tip, n);
  }

  lemma WorkBelow(bs: map<Hash, Block>, tip: Hash, n: nat)
    requires GoodStore(bs) && tip in bs && n <= bs[tip].height
    ensures WorkTo(Path(bs, tip), n + 1) < U64_LIMIT
  {
    var p := Path(bs, tip);
    assert GoodBlock(bs, tip);
    GoodPrefix(p, n + 1);
    GoodPathWork(p[..n + 1]);
    WorkToIsWork(p, n + 1);
  }

  /** Every loaded block is pinned, so trimming drops none of them. */
  lemma TrimLoaded(good: bool, v0: View, v: View, pins: Pins, p: seq<Block>, lo: nat)
    requires Trimmed(v0, v, pins) && v.Shape() && pins.height <= lo + PROTECTED_BACK
    requires good ==> IsChain(p) && |p| == pins.height + 1 && Loaded(v0, pins.byHeight, p, lo, pins.height + 1)
    ensures good ==> Loaded(v, pins.byHeight, p, lo, pins.height + 1)
  {
    if good {
      forall i: nat | lo <= i < |p| ensures LoadedAt(v, pins.byHeight, p, lo, i) {
        assert LoadedAt(v0, pins.byHeight, p, lo, i) && LinkAt(p, i);
        assert Pinned(v0.blocks, pins, p[i].hash);
      }
    }
  }

  ghost function Offset(m: map<Hash, nat>, offset: nat): map<Hash, nat> {
    map k | k in m :: m[k] + offset
  }

  method OffsetWork(m: map<Hash, nat>, offset: nat) returns (r: Option<map<Hash, nat>>)
    ensures r.Some? <==> forall k :: k in m ==> m[k] + offset < U64_LIMIT
    ensures r.Some? ==> r.value == Offset(m, offset)
  {
    var out, todo := m, m.Keys;
    while todo != {}
      invariant todo <= m.Keys && out.Keys == m.Keys
      invariant forall k :: k in m ==> out[k] == if k in todo then m[k] else m[k] + offset
      invariant forall k :: k in m && k !in todo ==> m[k] + offset < U64_LIMIT
      decreases |todo|
    {
      var k :| k in todo;
      if out[k] + offset >= U64_LIMIT { return None; }
      out, todo := out[k := out[k] + offset], todo - {k};
    }
    return Some(out);
  }

  lemma LoadedOffset(v: View, byHeight: map<nat, Hash>, bs: map<Hash, Block>, tip: Hash, lo: nat)
    requires GoodStore(bs) && tip in bs && lo <= bs[tip].height
    requires Loaded(v, byHeight, Path(bs, tip), lo, bs[tip].height + 1)
    ensures tip in v.workAt && v.workAt[tip] == Work(Path(bs, tip)) - WorkTo(Path(bs, tip), lo)
    ensures forall k :: k in v.workAt ==> v.workAt[k] + WorkTo(Path(bs, tip), lo) < U64_LIMIT
  {
    var p, top := Path(bs, tip), bs[tip].height;
    TipOnPath(bs, tip);
    assert p[..|p|] == p;
    WorkToIsWork(p, |p|);
    assert LoadedAt(v, byHeight, p, lo, top);
    forall k | k in v.workAt ensures v.workAt[k] + WorkTo(p, lo) < U64_LIMIT {
      assert LoadedKey(p, lo, |p|, k);
      var i :| lo <= i < |p| && p[i].hash == k;
      assert LoadedAt(v, byHeight, p, lo, i);
      WorkBelow(bs, tip, i);
    }
  }

  lemma GenesisView(bs: map<Hash, Block>, b: Block, v: View)
    requires Linked(bs) && bs == map[b.hash := b] && b.height == 0 && Work(Path(bs, b.hash)) == b.difficulty
    requires v.blocks == map[b.hash := b] && v.workAt == map[b.hash := b.difficulty]
    ensures Agrees(v, bs) && WindowOf(v, Pins(map[0 := b.hash], 0))
  {
  }

  /** With the offset every loaded work entry is the work from the root. */
  lemma LoadedAgrees(v: View, byHeight: map<nat, Hash>, bs: map<Hash, Block>, tip: Hash, lo: nat, work: map<Hash, nat>)
    requires GoodStore(bs) && tip in bs && lo <= bs[tip].height
    requires Loaded(v, byHeight, Path(bs, tip), lo, bs[tip].height + 1)
    requires work == Offset(v.workAt, WorkTo(Path(bs, tip), lo))
    ensures Agrees(v.(workAt := work), bs)
  {
    var p := Path(bs, tip);
    forall k | k in v.blocks ensures k in bs && bs[k] == v.blocks[k] {
      var i := LoadedBlock(v, byHeight, bs, tip, lo, k);
    }
    forall k | k in work ensures WorkRight(bs, k, work[k]) {
      var i := LoadedBlock(v, byHeight, bs, tip, lo, k);
      PathPrefix(bs, tip, i);
      WorkToIsWork(p, i + 1);
    }
  }

  lemma LoadedBlock(v: View, byHeight: map<nat, Hash>, bs: map<Hash, Block>, tip: Hash, lo: nat, k: Hash) returns (i: nat)
    requires Linked(bs) && tip in bs && Loaded(v, byHeight, Path(bs, tip), lo, bs[tip].height + 1)
    requires k in v.blocks || k in v.workAt
    ensures lo <= i <= bs[tip].height && LoadedAt(v, byHeight, Path(bs, tip), lo, i)
    ensures Path(bs, tip)[i].hash == k && k in bs && bs[k] == Path(bs, tip)[i]
  {
    var p := Path(bs, tip);
    assert LoadedKey(p, lo, |p|, k);
    i :| lo <= i < |p| && p[i].hash == k;
    assert LoadedAt(v, byHeight, p, lo, i);
    PathLinks(bs, tip, i);
  }

  lemma LoadedWindow(v: View, byHeight: map<nat, Hash>, p: seq<Block>, lo: nat, height: nat)
    requires |p| == height + 1 && IsChain(p) && Loaded(v, byHeight, p, lo, height + 1)
    requires if height > PROTECTED_BACK then lo == height - PROTECTED_BACK else lo == 0
    ensures WindowOf(v, Pins(byHeight, height))
  {
    var pins := Pins(byHeight, height);
    forall h: nat | h <= pins.height <= h + PROTECTED_BACK
      ensures h in pins.byHeight && pins.byHeight[h] in v.blocks && v.blocks[pins.byHeight[h]].height == h
    {
      assert LoadedAt(v, byHeight, p, lo, h) && LinkAt(p, h);
    }
  }

  lemma LoadedIndex(v: View, byHeight: map<nat, Hash>, p: seq<Block>, lo: nat)
    requires IsChain(p) && Loaded(v, byHeight, p, lo, |p|)
    ensures Sub(byHeight, HeightMap(p))
  {
    HeightMapAt(p);
    forall h | h in byHeight ensures h in HeightMap(p) && HeightMap(p)[h] == byHeight[h] {
      assert LoadedAt(v, byHeight, p, lo, h);
    }
  }

  lemma LoadedFacts(v: View, byHeight: map<nat, Hash>, bs: map<Hash, Block>, tip: Hash, lo: nat, work: map<Hash, nat>)
    requires GoodStore(bs) && tip in bs && lo <= bs[tip].height
    requires if bs[tip].height > PROTECTED_BACK then lo == bs[tip].height - PROTECTED_BACK else lo == 0
    requires Loaded(v, byHeight, Path(bs, tip), lo, bs[tip].height + 1)
    requires work == Offset(v.workAt, WorkTo(Path(bs, tip), lo))
    ensures Agrees(v.(workAt := work), bs) && WindowOf(v.(workAt := work), Pins(byHeight, bs[tip].height))
    ensures Sub(byHeight, HeightMap(Path(bs, tip)))
  {
    LoadedAgrees(v, byHeight, bs, tip, lo, work);
    PathIsChain(bs, tip);
    LoadedWindow(v, byHeight, Path(bs, tip), lo, bs[tip].height);
    LoadedIndex(v, byHeight, Path(bs, tip), lo);
  }

  lemma MarkedInPlace(m: map<KeyImage, nat>, p: seq<Block>, h: nat)
    requires IsChain(p) && NoDup(ChainImages(p)) && h < |p| && Sub(m, SpentMap(p))
    ensures Sub(Marked(m, p[h].Images(), h), SpentMap(p))
  {
    assert LinkAt(p, h);
    forall x | x in p[h].Images() ensures x in SpentMap(p) && SpentMap(p)[x] == h { SpentMapAt(p, h, x); }
    SubMarks(m, SpentMap(p), p[h].Images(), h);
  }

  lemma {:induction false} SubMarks(m: map<KeyImage, nat>, full: map<KeyImage, nat>, xs: seq<KeyImage>, h: nat)
    requires Sub(m, full) && forall x :: x in xs ==> x in full && full[x] == h
    ensures Sub(Marked(m, xs, h), full)
  {
    if xs != [] { SubMarks(m, full, xs[..|xs| - 1], h); }
  }
}
