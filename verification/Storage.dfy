/** The persistent store (storage.go): block bucket, height index, key-image bucket and tip
    metadata, changed in place by commits that either check out or leave it untouched. */
module Storage {
  import opened Seqs
  import opened Blocks
  import opened ChainModel

  // ---------------------------------------------------------------- what the indexes mean

  /** heights with every block of p entered. */
  ghost function Indexed(heights: map<nat, Hash>, p: seq<Block>): map<nat, Hash> {
    if p == [] then heights else Indexed(heights, p[..|p| - 1])[p[|p| - 1].height := p[|p| - 1].hash]
  }

  /** m with every image of xs recorded as spent at height. */
  ghost function Marked(m: map<KeyImage, nat>, xs: seq<KeyImage>, height: nat): map<KeyImage, nat> {
    if xs == [] then m else Marked(m, xs[..|xs| - 1], height)[xs[|xs| - 1] := height]
  }

  /** m with every image of every block of p recorded. */
  ghost function MarkedChain(m: map<KeyImage, nat>, p: seq<Block>): map<KeyImage, nat> {
    if p == [] then m else Marked(MarkedChain(m, p[..|p| - 1]), p[|p| - 1].Images(), p[|p| - 1].height)
  }

  /** The height index of a block list. */
  ghost function HeightMap(p: seq<Block>): map<nat, Hash> {
    Indexed(map[], p)
  }

  /** The key-image index of a block list: each image with the height that spends it. */
  ghost function SpentMap(p: seq<Block>): map<KeyImage, nat> {
    MarkedChain(map[], p)
  }

  ghost function Heights(p: seq<Block>): set<nat> {
    set b | b in p :: b.height
  }

  /** The blocks of p, filed by hash. */
  ghost function Filed(bs: map<Hash, Block>, p: seq<Block>): map<Hash, Block> {
    if p == [] then bs else Filed(bs, p[..|p| - 1])[p[|p| - 1].hash := p[|p| - 1]]
  }

  lemma {:induction false} SpentMapKeys(p: seq<Block>)
    ensures SpentMap(p).Keys == Elements(ChainImages(p))
  {
    if p != [] {
      SpentMapKeys(p[..|p| - 1]);
      MarkedKeys(SpentMap(p[..|p| - 1]), p[|p| - 1].Images(), p[|p| - 1].height);
    }
  }

  /** Unmarking the images of the disconnected part leaves the index of the kept part.
      This is where the absence of double spends is needed. */
  lemma {:induction false} SpentMapUnmark(c: seq<Block>, d: seq<Block>)
    requires NoDup(ChainImages(c + d))
    ensures SpentMap(c + d) - Elements(ChainImages(d)) == SpentMap(c)
    decreases |d|
  {
    if d == [] {
      assert c + d == c;
      assert SpentMap(c) - Elements(ChainImages(d)) == SpentMap(c);
    } else {
      var p, e, b := c + d, d[..|d| - 1], d[|d| - 1];
      assert p[..|p| - 1] == c + e;
      NoDupConcat(ChainImages(c + e), b.Images());
      SpentMapUnmark(c, e);
      SpentMapKeys(c + e);
      MarkedMinus(SpentMap(c + e), b.Images(), b.height, Elements(ChainImages(e)));
      assert Elements(ChainImages(d)) == Elements(ChainImages(e)) + Elements(b.Images());
    }
  }

  lemma {:induction false} MarkedKeys(m: map<KeyImage, nat>, xs: seq<KeyImage>, h: nat)
    ensures Marked(m, xs, h).Keys == m.Keys + Elements(xs)
  {
    if xs != [] {
      MarkedKeys(m, xs[..|xs| - 1], h);
      assert Elements(xs) == Elements(xs[..|xs| - 1]) + {xs[|xs| - 1]} by {
        assert xs == xs[..|xs| - 1] + [xs[|xs| - 1]];
      }
    }
  }

  lemma {:induction false} MarkedElsewhere(m: map<KeyImage, nat>, xs: seq<KeyImage>, h: nat, x: KeyImage)
    requires x in m && x !in xs
    ensures x in Marked(m, xs, h) && Marked(m, xs, h)[x] == m[x]
  {
    if xs != [] { MarkedElsewhere(m, xs[..|xs| - 1], h, x); }
  }

  lemma MarkedMinus(m: map<KeyImage, nat>, xs: seq<KeyImage>, h: nat, gone: set<KeyImage>)
    requires forall x :: x in xs ==> x !in m
    ensures Marked(m, xs, h) - (gone + Elements(xs)) == m - gone
  {
    MarkedKeys(m, xs, h);
    forall x | x in m ensures Marked(m, xs, h)[x] == m[x] { MarkedElsewhere(m, xs, h, x); }
  }

  lemma {:induction false} MarkedAppend(m: map<KeyImage, nat>, xs: seq<KeyImage>, ys: seq<KeyImage>, h: nat)
    ensures Marked(m, xs + ys, h) == Marked(Marked(m, xs, h), ys, h)
    decreases |ys|
  {
    if ys == [] {
      assert xs + ys == xs;
    } else {
      assert (xs + ys)[..|xs + ys| - 1] == xs + ys[..|ys| - 1];
      MarkedAppend(m, xs, ys[..|ys| - 1], h);
    }
  }

  /** Without that premise the same unmarking would lose a spend: a key image spent both in
      the kept and in the disconnected part is no longer recorded. */
  lemma UnmarkLosesDoubleSpend(c: seq<Block>, d: seq<Block>, x: KeyImage)
    requires x in ChainImages(c) && x in ChainImages(d)
    ensures x !in SpentMap(c + d) - Elements(ChainImages(d)) && x in SpentMap(c)
  {
    SpentMapKeys(c);
  }

  /** The key-image index records each image at the one height that spends it. */
  lemma {:induction false} SpentMapAt(p: seq<Block>, i: nat, x: KeyImage)
    requires NoDup(ChainImages(p)) && i < |p| && x in p[i].Images()
    ensures x in SpentMap(p) && SpentMap(p)[x] == p[i].height
  {
    var e, b := p[..|p| - 1], p[|p| - 1];
    NoDupConcat(ChainImages(e), b.Images());
    if i < |p| - 1 {
      SpentMapAt(e, i, x);
      BlockImagesInChain(e, i, x);
      MarkedElsewhere(SpentMap(e), b.Images(), b.height, x);
    } else {
      MarkedHere(SpentMap(e), b.Images(), b.height, x);
    }
  }

  lemma {:induction false} MarkedHere(m: map<KeyImage, nat>, xs: seq<KeyImage>, h: nat, x: KeyImage)
    requires x in xs
    ensures x in Marked(m, xs, h) && Marked(m, xs, h)[x] == h
  {
    if x != xs[|xs| - 1] {
      assert x in xs[..|xs| - 1];
      MarkedHere(m, xs[..|xs| - 1], h, x);
    }
  }

  lemma MarkedUndo(m: map<KeyImage, nat>, xs: seq<KeyImage>, h: nat)
    requires forall x :: x in xs ==> x !in m
    ensures Marked(m, xs, h) - Elements(xs) == m
  {
    MarkedKeys(m, xs, h);
    forall x | x in m ensures Marked(m, xs, h)[x] == m[x] { MarkedElsewhere(m, xs, h, x); }
  }

  lemma DropLastHeight(c: seq<Block>)
    requires c != [] && IsChain(c)
    ensures HeightMap(c) - {|c| - 1} == HeightMap(c[..|c| - 1])
  {
    IsChainPrefix(c, |c| - 1);
    HeightMapAt(c[..|c| - 1]);
    assert LinkAt(c, |c| - 1);
  }

  /** Removing the last block from the key-image index leaves the index of the chain below it. */
  lemma DropLastImages(c: seq<Block>)
    requires c != [] && NoDup(ChainImages(c))
    ensures SpentMap(c) - Elements(c[|c| - 1].Images()) == SpentMap(c[..|c| - 1])
  {
    var e, b := c[..|c| - 1], c[|c| - 1];
    NoDupConcat(ChainImages(e), b.Images());
    SpentMapKeys(e);
    MarkedUndo(SpentMap(e), b.Images(), b.height);
  }

  lemma {:induction false} HeightMapAt(p: seq<Block>)
    requires IsChain(p)
    ensures forall i :: i in HeightMap(p) <==> 0 <= i < |p|
    ensures forall i :: 0 <= i < |p| ==> HeightMap(p)[i] == p[i].hash
  {
    if p != [] {
      IsChainPrefix(p, |p| - 1);
      HeightMapAt(p[..|p| - 1]);
      assert LinkAt(p, |p| - 1);
    }
  }

  lemma IsChainPrefix(p: seq<Block>, n: nat)
    requires IsChain(p) && n <= |p|
    ensures IsChain(p[..n])
  {
    forall i: nat | i < n ensures LinkAt(p[..n], i) { assert LinkAt(p, i); }
  }

  /** Without the height of its last block, a chain's height index is that of the rest. */
  lemma UnindexTop(p: seq<Block>)
    requires IsChain(p) && p != []
    ensures HeightMap(p) - {p[|p| - 1].height} == HeightMap(p[..|p| - 1])
  {
    IsChainPrefix(p, |p| - 1);
    HeightMapAt(p[..|p| - 1]);
    assert LinkAt(p, |p| - 1);
  }

  lemma {:induction false} HeightMapUnindex(c: seq<Block>, d: seq<Block>)
    requires IsChain(c + d)
    ensures HeightMap(c + d) - Heights(d) == HeightMap(c)
    decreases |d|
  {
    if d == [] {
      assert c + d == c;
      assert HeightMap(c) - Heights(d) == HeightMap(c);
    } else {
      var p, e := c + d, d[..|d| - 1];
      assert p[..|p| - 1] == c + e;
      IsChainPrefix(p, |p| - 1);
      HeightMapUnindex(c, e);
      assert d[..|d|] == d;
      UnindexLast(d, |d| - 1);
      UnindexTop(p);
      assert HeightMap(p) - Heights(d) == HeightMap(p) - {p[|p| - 1].height} - Heights(e);
    }
  }

  /** Entering blocks of heights n, n + 1, ... sets exactly these heights. */
  lemma {:induction false} IndexedAt(heights: map<nat, Hash>, c: seq<Block>, n: nat, h: nat)
    requires forall i :: 0 <= i < |c| ==> c[i].height == n + i
    ensures n <= h < n + |c| ==> h in Indexed(heights, c) && Indexed(heights, c)[h] == c[h - n].hash
    ensures h < n && h in heights ==> h in Indexed(heights, c) && Indexed(heights, c)[h] == heights[h]
  {
    if c != [] { IndexedAt(heights, c[..|c| - 1], n, h); }
  }

  /** Entering d on top of the indexes of c gives the indexes of c + d. */
  lemma {:induction false} IndexAppend(c: seq<Block>, d: seq<Block>)
    ensures Indexed(HeightMap(c), d) == HeightMap(c + d)
    ensures MarkedChain(SpentMap(c), d) == SpentMap(c + d)
    decreases |d|
  {
    if d == [] {
      assert c + d == c;
    } else {
      assert (c + d)[..|c + d| - 1] == c + d[..|d| - 1];
      IndexAppend(c, d[..|d| - 1]);
    }
  }

  /** d lists the blocks of p from the last to the first. */
  ghost predicate Reversed(d: seq<Block>, p: seq<Block>) {
    |d| == |p| && forall i :: 0 <= i < |d| ==> d[i] == p[|p| - 1 - i]
  }

  lemma ReversedSameIndexes(d: seq<Block>, p: seq<Block>)
    requires Reversed(d, p)
    ensures Heights(d) == Heights(p)
    ensures Elements(ChainImages(d)) == Elements(ChainImages(p))
  {
    forall b | b in p ensures b in d { var i :| 0 <= i < |p| && p[i] == b; assert d[|p| - 1 - i] == b; }
    forall x | x in ChainImages(d) ensures x in ChainImages(p) {
      var i := ChainImageHasBlock(d, x);
      BlockImagesInChain(p, |p| - 1 - i, x);
    }
    forall x | x in ChainImages(p) ensures x in ChainImages(d) {
      var i := ChainImageHasBlock(p, x);
      assert d[|p| - 1 - i] == p[i];
      BlockImagesInChain(d, |p| - 1 - i, x);
    }
  }

  /** A reorganisation of the two indexes: dropping the old suffix (listed tip first) and
      entering the new one yields exactly the indexes of the new chain. */
  lemma ReorgIndexes(c: seq<Block>, old_: seq<Block>, d: seq<Block>, new_: seq<Block>)
    requires IsChain(c + old_) && NoDup(ChainImages(c + old_)) && Reversed(d, old_)
    ensures Indexed(HeightMap(c + old_) - Heights(d), new_) == HeightMap(c + new_)
    ensures MarkedChain(SpentMap(c + old_) - Elements(ChainImages(d)), new_) == SpentMap(c + new_)
  {
    ReversedSameIndexes(d, old_);
    HeightMapUnindex(c, old_);
    SpentMapUnmark(c, old_);
    IndexAppend(c, new_);
  }

  lemma UnindexFirst(d: seq<Block>)
    requires d != []
    ensures Heights(d) == Heights(d[1..]) + {d[0].height}
    ensures Elements(ChainImages(d)) == Elements(ChainImages(d[1..])) + Elements(d[0].Images())
  {
    assert d == [d[0]] + d[1..];
    ChainImagesConcat([d[0]], d[1..]);
    assert [d[0]][..0] == [];
    assert ChainImages([d[0]]) == d[0].Images();
  }

  lemma UnindexLast(d: seq<Block>, i: nat)
    requires i < |d|
    ensures Heights(d[..i + 1]) == Heights(d[..i]) + {d[i].height}
    ensures Elements(ChainImages(d[..i + 1])) == Elements(ChainImages(d[..i])) + Elements(d[i].Images())
  {
    assert d[..i + 1] == d[..i] + [d[i]];
    assert d[..i + 1][..i] == d[..i];
  }

  lemma DropStep(heights: map<nat, Hash>, images: map<KeyImage, nat>, d: seq<Block>, i: nat)
    requires i < |d|
    ensures heights - Heights(d[..i]) - {d[i].height} == heights - Heights(d[..i + 1])
    ensures images - Elements(ChainImages(d[..i])) - Elements(d[i].Images()) == images - Elements(ChainImages(d[..i + 1]))
  {
    UnindexLast(d, i);
  }

  // ---------------------------------------------------------------- loops over a block's inputs

  method MarkAll(m: map<KeyImage, nat>, xs: seq<KeyImage>, height: nat) returns (r: map<KeyImage, nat>)
    ensures r == Marked(m, xs, height)
  {
    r := m;
    for j := 0 to |xs|
      invariant r == Marked(m, xs[..j], height)
    {
      assert xs[..j + 1][..j] == xs[..j];
      r := r[xs[j] := height];
    }
    assert xs[..|xs|] == xs;
  }

  method MarkImages(m: map<KeyImage, nat>, b: Block) returns (r: map<KeyImage, nat>)
    ensures r == Marked(m, b.Images(), b.height)
  {
    r := m;
    for i := 0 to |b.txs|
      invariant r == Marked(m, TxImages(b.txs[..i]), b.height)
    {
      assert b.txs[..i + 1][..i] == b.txs[..i];
      MarkedAppend(m, TxImages(b.txs[..i]), b.txs[i].images, b.height);
      r := MarkAll(r, b.txs[i].images, b.height);
    }
    assert b.txs[..|b.txs|] == b.txs;
  }

  method UnmarkImages(m: map<KeyImage, nat>, b: Block) returns (r: map<KeyImage, nat>)
    ensures r == m - Elements(b.Images())
  {
    r := m;
    for i := 0 to |b.txs|
      invariant r == m - Elements(TxImages(b.txs[..i]))
    {
      var tx := b.txs[i];
      assert b.txs[..i + 1][..i] == b.txs[..i];
      for j := 0 to |tx.images|
        invariant r == m - Elements(TxImages(b.txs[..i]) + tx.images[..j])
      {
        r := r - {tx.images[j]};
      }
      assert tx.images[..|tx.images|] == tx.images;
    }
    assert b.txs[..|b.txs|] == b.txs;
  }

  /** Removes the blocks of d from both indexes. */
  method DropBlocks(heights: map<nat, Hash>, images: map<KeyImage, nat>, d: seq<Block>)
    returns (heights': map<nat, Hash>, images': map<KeyImage, nat>)
    ensures heights' == heights - Heights(d)
    ensures images' == images - Elements(ChainImages(d))
  {
    heights', images' := heights, images;
    for i := 0 to |d|
      invariant heights' == heights - Heights(d[..i])
      invariant images' == images - Elements(ChainImages(d[..i]))
    {
      DropStep(heights, images, d, i);
      heights' := heights' - {d[i].height};
      images' := UnmarkImages(images', d[i]);
    }
    assert d[..|d|] == d;
  }

  /** Enters the blocks of c into both indexes. */
  method EnterBlocks(heights: map<nat, Hash>, images: map<KeyImage, nat>, c: seq<Block>)
    returns (heights': map<nat, Hash>, images': map<KeyImage, nat>)
    ensures heights' == Indexed(heights, c)
    ensures images' == MarkedChain(images, c)
  {
    heights', images' := heights, images;
    for i := 0 to |c|
      invariant heights' == Indexed(heights, c[..i])
      invariant images' == MarkedChain(images, c[..i])
    {
      assert c[..i + 1][..i] == c[..i];
      heights' := heights'[c[i].height := c[i].hash];
      images' := MarkImages(images', c[i]);
    }
    assert c[..|c|] == c;
  }

  method FileBlocks(bs: map<Hash, Block>, c: seq<Block>) returns (bs': map<Hash, Block>)
    ensures bs' == Filed(bs, c)
  {
    bs' := bs;
    for i := 0 to |c|
      invariant bs' == Filed(bs, c[..i])
    {
      assert c[..i + 1][..i] == c[..i];
      bs' := bs'[c[i].hash := c[i]];
    }
    assert c[..|c|] == c;
  }

  // ---------------------------------------------------------------- commits

  ghost predicate DisconnectAt(heights: map<nat, Hash>, tipHeight: nat, d: seq<Block>, i: nat)
    requires i < |d|
  {
    && d[i].height == tipHeight - i
    && d[i].height in heights && heights[d[i].height] == d[i].hash
    && (i > 0 ==> d[i - 1].prev == d[i].hash)
  }

  /** The first n blocks to disconnect are the top of the indexed chain, tip first. */
  ghost predicate DisconnectOk(heights: map<nat, Hash>, tipHeight: nat, d: seq<Block>, n: nat)
    requires n <= |d|
  {
    forall i: nat {:trigger DisconnectAt(heights, tipHeight, d, i)} :: i < n ==> DisconnectAt(heights, tipHeight, d, i)
  }

  ghost predicate ConnectAt(base: Hash, baseHeight: int, c: seq<Block>, i: nat)
    requires i < |c|
  {
    c[i].height == baseHeight + 1 + i && c[i].prev == (if i == 0 then base else c[i - 1].hash)
  }

  /** The first n blocks to connect form a hash-linked list on top of base. */
  ghost predicate ConnectOk(base: Hash, baseHeight: int, c: seq<Block>, n: nat)
    requires n <= |c|
  {
    forall i: nat {:trigger ConnectAt(base, baseHeight, c, i)} :: i < n ==> ConnectAt(base, baseHeight, c, i)
  }

  /** d can be taken off the indexed chain and c put on in its place. */
  ghost predicate ReorgFits(s: State, heights: map<nat, Hash>, tipHeight: nat,
                            d: seq<Block>, c: seq<Block>, newTip: Hash, newHeight: nat)
  {
    && c != [] && |d| <= tipHeight + 1
    && newHeight == tipHeight - |d| + |c|
    && DisconnectOk(heights, tipHeight, d, |d|)
    && (d != [] ==> d[|d| - 1].height > 0)
    && var base := if d == [] then s.tip else d[|d| - 1].prev;
    && base in s.blocks
    && ConnectOk(base, tipHeight - |d|, c, |c|)
    && newTip == c[|c| - 1].hash
  }

  class Store {
    var blocks: map<Hash, Block>
    var heights: map<nat, Hash>
    var keyImages: map<KeyImage, nat>
    var found: bool
    var tip: Hash
    var tipHeight: nat
    var tipWork: nat

    constructor ()
      ensures Empty()
    {
      blocks, heights, keyImages, found := map[], map[], map[], false;
      tip, tipHeight, tipWork := 0, 0, 0;
    }

    ghost predicate Empty()
      reads this
    {
      blocks == map[] && heights == map[] && keyImages == map[] && !found
    }

    ghost function Abs(): State
      reads this
    {
      State(blocks, tip)
    }

    /** The stored blocks satisfy consensus and every index is a function of the main chain. */
    ghost predicate Valid()
      reads this
    {
      && found
      && Inv(Abs())
      && tipHeight == Height(Abs())
      && tipWork == Work(Main(Abs()))
      && heights == HeightMap(Main(Abs()))
      && keyImages == SpentMap(Main(Abs()))
    }

    method SaveBlock(b: Block) returns (ok: bool)
      modifies this`blocks
      ensures ok <==> b.height == 0 || b.prev in old(blocks)
      ensures blocks == if ok then old(blocks)[b.hash := b] else old(blocks)
    {
      if b.height > 0 && b.prev !in blocks { return false; }
      blocks := blocks[b.hash := b];
      return true;
    }

    /** Extends the tip by one block, or founds the chain with a block of height 0. */
    method CommitBlock(b: Block, work: nat) returns (ok: bool)
      modifies this
      ensures ok <==>
        && (b.height > 0 ==> b.prev in old(blocks))
        && (if old(found) then b.height == old(tipHeight) + 1 && b.prev == old(tip) else b.height == 0)
      ensures !ok ==> unchanged(this)
      ensures ok ==>
        && found && tip == b.hash && tipHeight == b.height && tipWork == work
        && blocks == old(blocks)[b.hash := b]
        && heights == old(heights)[b.height := b.hash]
        && keyImages == Marked(old(keyImages), b.Images(), b.height)
    {
      if b.height > 0 && b.prev !in blocks { return false; }
      if !found {
        if b.height != 0 { return false; }
      } else {
        if b.height != tipHeight + 1 { return false; }
        if b.prev != tip { return false; }
      }
      blocks := blocks[b.hash := b];
      heights := heights[b.height := b.hash];
      keyImages := MarkImages(keyImages, b);
      found, tip, tipHeight, tipWork := true, b.hash, b.height, work;
      return true;
    }

    method RemoveMainChainBlock(h: nat)
      modifies this`heights
      ensures heights == old(heights) - {h}
    {
      heights := heights - {h};
    }

    /** Clears the spent marks of one block. */
    method UnmarkBlock(b: Block)
      modifies this`keyImages
      ensures keyImages == old(keyImages) - Elements(b.Images())
    {
      keyImages := UnmarkImages(keyImages, b);
    }

    method SetTip(tip: Hash, height: nat, work: nat)
      modifies this`found, this`tip, this`tipHeight, this`tipWork
      ensures found && this.tip == tip && tipHeight == height && tipWork == work
    {
      found, this.tip, tipHeight, tipWork := true, tip, height, work;
    }

    /** What the checks of CommitReorg demand before anything is written. */
    ghost predicate ReorgOk(d: seq<Block>, c: seq<Block>, newTip: Hash, newHeight: nat)
      reads this
    {
      found && ReorgFits(Abs(), heights, tipHeight, d, c, newTip, newHeight)
    }

    method CheckReorg(d: seq<Block>, c: seq<Block>, newTip: Hash, newHeight: nat) returns (ok: bool)
      ensures ok <==> ReorgOk(d, c, newTip, newHeight)
    {
      if c == [] || !found || |d| > tipHeight + 1 { return false; }
      if newHeight != tipHeight - |d| + |c| { return false; }
      var base, baseHeight := tip, tipHeight as int;
      for i := 0 to |d|
        invariant DisconnectOk(heights, tipHeight, d, i)
      {
        ghost var here := DisconnectAt(heights, tipHeight, d, i);
        if d[i].height != tipHeight - i { return false; }
        if d[i].height !in heights || heights[d[i].height] != d[i].hash { return false; }
        if i > 0 && d[i - 1].prev != d[i].hash { return false; }
      }
      if d != [] {
        assert DisconnectAt(heights, tipHeight, d, |d| - 1);
        if d[|d| - 1].height == 0 { return false; }
        base, baseHeight := d[|d| - 1].prev, d[|d| - 1].height - 1;
      }
      assert baseHeight == tipHeight - |d|;
      if base !in blocks { return false; }
      var expected, expectedHeight := base, baseHeight + 1;
      for i := 0 to |c|
        invariant ConnectOk(base, baseHeight, c, i)
        invariant expectedHeight == baseHeight + 1 + i
        invariant expected == if i == 0 then base else c[i - 1].hash
      {
        ghost var here := ConnectAt(base, baseHeight, c, i);
        if c[i].height != expectedHeight { return false; }
        if c[i].prev != expected { return false; }
        expected, expectedHeight := c[i].hash, expectedHeight + 1;
      }
      return newTip == expected;
    }

    /** Replaces the disconnected blocks by the connected ones in every index, or does nothing. */
    method CommitReorg(d: seq<Block>, c: seq<Block>, newTip: Hash, newHeight: nat, newWork: nat) returns (ok: bool)
      modifies this
      ensures ok <==> old(ReorgOk(d, c, newTip, newHeight))
      ensures !ok ==> unchanged(this)
      ensures ok ==>
        && found && tip == newTip && tipHeight == newHeight && tipWork == newWork
        && blocks == Filed(old(blocks), c)
        && heights == Indexed(old(heights) - Heights(d), c)
        && keyImages == MarkedChain(old(keyImages) - Elements(ChainImages(d)), c)
    {
      ok := CheckReorg(d, c, newTip, newHeight);
      if !ok { return; }
      heights, keyImages := DropBlocks(heights, keyImages, d);
      heights, keyImages := EnterBlocks(heights, keyImages, c);
      blocks := FileBlocks(blocks, c);
      tip, tipHeight, tipWork := newTip, newHeight, newWork;
    }
  }
}
