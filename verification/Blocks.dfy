/** Blocks and transactions as the chain, the mempool and the auditors see them. */
module Blocks {
  import opened Words
  import opened Seqs

  datatype Option<+T> = None | Some(value: T)

  type Hash = nat
  type KeyImage = nat

  /** A transaction reduced to its id and the key images its inputs carry. */
  datatype Tx = Tx(id: Hash, images: seq<KeyImage>) {
    predicate IsCoinbase() { images == [] }
  }

  /** A block carries its own hash. Nothing is assumed about how hashes are computed:
      a block whose hash is already stored is refused as known, so distinct stored
      blocks have distinct hashes without any assumption on the hash function. */
  datatype Block = Block(
    hash: Hash, prev: Hash, height: nat, timestamp: I64, difficulty: U64, txs: seq<Tx>) {
    function Images(): seq<KeyImage> { TxImages(txs) }
  }

  /** All key images of a transaction list, in order. */
  function TxImages(txs: seq<Tx>): seq<KeyImage> {
    if txs == [] then [] else TxImages(txs[..|txs| - 1]) + txs[|txs| - 1].images
  }

  /** All key images of a block list, in order. */
  function ChainImages(p: seq<Block>): seq<KeyImage> {
    if p == [] then [] else ChainImages(p[..|p| - 1]) + p[|p| - 1].Images()
  }

  /** The sum of difficulties of a block list. */
  function Work(p: seq<Block>): nat {
    if p == [] then 0 else Work(p[..|p| - 1]) + p[|p| - 1].difficulty
  }

  lemma {:induction false} ChainImagesConcat(p: seq<Block>, q: seq<Block>)
    ensures ChainImages(p + q) == ChainImages(p) + ChainImages(q)
    decreases |q|
  {
    if q == [] {
      assert p + q == p;
    } else {
      assert (p + q)[..|p + q| - 1] == p + q[..|q| - 1];
      ChainImagesConcat(p, q[..|q| - 1]);
    }
  }

  lemma {:induction false} WorkConcat(p: seq<Block>, q: seq<Block>)
    ensures Work(p + q) == Work(p) + Work(q)
    decreases |q|
  {
    if q == [] {
      assert p + q == p;
    } else {
      assert (p + q)[..|p + q| - 1] == p + q[..|q| - 1];
      WorkConcat(p, q[..|q| - 1]);
    }
  }

  lemma {:induction false} BlockImagesInChain(p: seq<Block>, i: nat, x: KeyImage)
    requires i < |p| && x in p[i].Images()
    ensures x in ChainImages(p)
  {
    if i < |p| - 1 { BlockImagesInChain(p[..|p| - 1], i, x); }
  }

  lemma {:induction false} ChainImageHasBlock(p: seq<Block>, x: KeyImage) returns (i: nat)
    requires x in ChainImages(p)
    ensures i < |p| && x in p[i].Images()
  {
    if x in p[|p| - 1].Images() {
      i := |p| - 1;
    } else {
      i := ChainImageHasBlock(p[..|p| - 1], x);
    }
  }

  lemma {:induction false} TxImagesOfMember(txs: seq<Tx>, i: nat, x: KeyImage)
    requires i < |txs| && x in txs[i].images
    ensures x in TxImages(txs)
  {
    if i < |txs| - 1 { TxImagesOfMember(txs[..|txs| - 1], i, x); }
  }

  lemma {:induction false} ImageHasTx(txs: seq<Tx>, x: KeyImage) returns (i: nat)
    requires x in TxImages(txs)
    ensures i < |txs| && x in txs[i].images
  {
    if x in txs[|txs| - 1].images {
      i := |txs| - 1;
    } else {
      i := ImageHasTx(txs[..|txs| - 1], x);
    }
  }

  /** Exactly the first transaction is a coinbase. */
  ghost predicate CoinbaseFirst(txs: seq<Tx>) {
    txs != [] && txs[0].IsCoinbase() && forall i :: 1 <= i < |txs| ==> !txs[i].IsCoinbase()
  }

  lemma {:induction false} TxImagesSplit(txs: seq<Tx>, i: nat)
    requires i < |txs|
    ensures TxImages(txs) == TxImages(txs[..i]) + txs[i].images + TxImages(txs[i + 1..])
    decreases |txs|
  {
    var last := |txs| - 1;
    if i < last {
      TxImagesSplit(txs[..last], i);
      assert txs[..last][..i] == txs[..i] && txs[..last][i + 1..] == txs[i + 1..last];
      assert txs[i + 1..][..last - i - 1] == txs[i + 1..last];
    }
  }

  /** The coinbase and key-image checks make a block's transaction list duplicate-free. */
  lemma CheckedTxsDistinct(txs: seq<Tx>)
    requires CoinbaseFirst(txs) && NoDup(TxImages(txs))
    ensures NoDup(txs)
  {
    forall i, j | 0 <= i < j < |txs| ensures txs[i] != txs[j] {
      assert !txs[j].IsCoinbase();
      var x := txs[j].images[0];
      TxImagesSplit(txs, j);
      NoDupConcat(TxImages(txs[..j]) + txs[j].images, TxImages(txs[j + 1..]));
      NoDupConcat(TxImages(txs[..j]), txs[j].images);
      if txs[i] == txs[j] { TxImagesOfMember(txs[..j], i, x); }
    }
    NoDupPairs(txs);
  }
}
