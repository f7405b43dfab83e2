/** Walking back from a block (block.go): the key images and the difficulty window of its branch,
    and the lists of a reorganisation. */
module Branch {
  import opened Seqs
  import opened Blocks
  import opened Lwma
  import opened ChainModel
  import opened Storage
  import opened Fork

  method CheckCoinbase(txs: seq<Tx>) returns (ok: bool)
    ensures ok <==> CoinbaseFirst(txs)
  {
    if txs == [] || !txs[0].IsCoinbase() { return false; }
    for i := 1 to |txs|
      invariant forall j :: 1 <= j < i ==> !txs[j].IsCoinbase()
    {
      if txs[i].IsCoinbase() { return false; }
    }
    return true;
  }

  ghost function LastBlocks(p: seq<Block>, n: nat): seq<Block> {
    if |p| <= n then p else p[|p| - n..]
  }

  lemma LwmaOfLast(p: seq<Block>, w: seq<Block>)
    requires |p| > LWMA_WINDOW && w == LastBlocks(p, LWMA_WINDOW + 1)
    ensures |w| == LWMA_WINDOW + 1 && Lwma.Lwma(w, LWMA_WINDOW) == ExpectedDifficulty(p)
  {
    LwmaShift(w, LWMA_WINDOW, p, |p| - 1);
  }

  lemma SliceBack(p: seq<Block>, i: nat)
    requires 0 < i < |p|
    ensures p[i - 1..] == [p[i - 1]] + p[i..]
  {
  }

  method AddImages(acc: set<KeyImage>, b: Block) returns (r: set<KeyImage>)
    ensures r == acc + Elements(b.Images())
  {
    r := acc;
    for i := 0 to |b.txs|
      invariant r == acc + Elements(TxImages(b.txs[..i]))
    {
      assert b.txs[..i + 1][..i] == b.txs[..i];
      var images := b.txs[i].images;
      for j := 0 to |images|
        invariant r == acc + Elements(TxImages(b.txs[..i])) + Elements(images[..j])
      {
        r := r + {images[j]};
      }
      assert images[..|images|] == images;
    }
    assert b.txs[..|b.txs|] == b.txs;
  }

  /** The path to parent has been peeled back to cur; seg is what was peeled and acc its images. */
  ghost predicate Peeled(bs: map<Hash, Block>, parent: Hash, cur: Hash, seg: seq<Block>, acc: set<KeyImage>)
    requires Linked(bs)
  {
    && acc == Elements(ChainImages(seg)) && (cur in bs <==> parent in bs)
    && (cur in bs ==> Path(bs, parent) == Path(bs, cur) + seg)
  }

  lemma PeelStep(bs: map<Hash, Block>, parent: Hash, cur: Hash, seg: seq<Block>, acc: set<KeyImage>)
    requires Linked(bs) && cur in bs && Peeled(bs, parent, cur, seg, acc)
    ensures var b := bs[cur]; var seg', acc' := [b] + seg, acc + Elements(b.Images());
      && (b.height == 0 ==> Path(bs, parent) == seg' && acc' == Elements(ChainImages(seg')))
      && (b.height > 0 ==> Peeled(bs, parent, b.prev, seg', acc') && bs[b.prev].height < b.height)
  {
    var b := bs[cur];
    assert LinkedAt(bs, cur);
    UnindexFirst([b] + seg);
    assert ([b] + seg)[1..] == seg;
    if b.height > 0 {
      assert Path(bs, cur) + seg == Path(bs, b.prev) + ([b] + seg);
    } else {
      assert Path(bs, cur) == [b];
    }
  }

  lemma ElementsConcat<T>(a: seq<T>, b: seq<T>)
    ensures Elements(a + b) == Elements(a) + Elements(b)
  {
  }

  /** The images of a path that follows the main chain and then leaves it. */
  lemma BranchImages(s: State, pre: seq<Block>, seg: seq<Block>)
    requires Inv(s) && pre <= Main(s)
    ensures Elements(ChainImages(seg)) + Spent(s) == Elements(ChainImages(pre + seg)) + Spent(s)
  {
    var rest := Main(s)[|pre|..];
    assert Main(s) == pre + rest;
    ChainImagesConcat(pre, seg);
    ChainImagesConcat(pre, rest);
    ElementsConcat(ChainImages(pre), ChainImages(seg));
    ElementsConcat(ChainImages(pre), ChainImages(rest));
    assert Spent(s) == Elements(ChainImages(pre)) + Elements(ChainImages(rest));
  }

  lemma NewPathWork(s: State, b: Block)
    requires Inv(s) && Attached(s, b)
    ensures Work(NewPath(s, b)) == Work(ParentPath(s, b)) + b.difficulty
  {
    var q := NewPath(s, b);
    assert q[..|q| - 1] == ParentPath(s, b);
  }

  /** The parent link at height i names the block at height n - 1 exactly when i == n. */
  lemma PrevIs(bs: map<Hash, Block>, k: Hash, n: nat, i: nat)
    requires Linked(bs) && k in bs && 1 <= n <= i <= bs[k].height
    ensures Path(bs, k)[i].prev == Path(bs, k)[n - 1].hash <==> i == n
  {
    PathLinks(bs, k, i);
    DistinctHashes(bs, k, i - 1, n - 1);
  }

  lemma TailBack(c: seq<Block>, p: seq<Block>, n: nat)
    requires 0 < n < |p| && IsTail(c, p, n)
    ensures IsTail([p[n - 1]] + c, p, n - 1)
  {
  }

  lemma TailsOfReorg(s: State, b: Block, d: seq<Block>, c: seq<Block>)
    requires Inv(s) && Joins(s, b) && 1 <= Shared(s, b) < |NewPath(s, b)|
    requires IsReversedTail(d, Main(s), Shared(s, b)) && IsTail(c, NewPath(s, b), Shared(s, b))
    ensures IsReorg(s, b, Shared(s, b), d, c)
  {
    assert c == NewPath(s, b)[Shared(s, b)..];
  }
}
