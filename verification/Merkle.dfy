/** The Merkle root of a block's transactions (block.go), over an arbitrary hash function. The
    root is the hash of a tree, and two trees with the same hash are equal or exhibit a
    collision: a leaf and an inner node never have the same preimage, because an inner node
    hashes 64 bytes and no transaction is that long (Wire.NeverTwoDigests). */
module Merkle {
  import opened Seqs
  import opened Blocks
  import opened Bytes
  import Wire

  type HashFunction = seq<Byte> -> Bytes32

  function ZeroHash(): Bytes32 { seq(32, _ => 0) }

  // ---------------------------------------------------------------- the root

  function Join(a: Bytes32, b: Bytes32): (s: seq<Byte>)
    ensures |s| == 64 && s[..32] == a && s[32..] == b
  {
    var left: seq<Byte> := a;
    left + b
  }

  /** The list with its last item repeated if its length is odd. */
  function Padded<T>(hs: seq<T>): (ps: seq<T>)
    requires hs != []
    ensures |ps| % 2 == 0 && |hs| <= |ps| <= |hs| + 1
    ensures |ps| / 2 == (|hs| + 1) / 2
  {
    if |hs| % 2 == 1 then hs + [hs[|hs| - 1]] else hs
  }

  /** The next level of digests. */
  function NextHashes(hash: HashFunction, hs: seq<Bytes32>): (next: seq<Bytes32>)
    requires hs != []
    ensures |next| == (|hs| + 1) / 2
  {
    seq((|hs| + 1) / 2, i requires 0 <= i < (|hs| + 1) / 2 => hash(Join(Padded(hs)[2 * i], Padded(hs)[2 * i + 1])))
  }

  function RootHash(hash: HashFunction, hs: seq<Bytes32>): Bytes32
    decreases |hs|
  {
    if hs == [] then ZeroHash() else if |hs| == 1 then hs[0] else RootHash(hash, NextHashes(hash, hs))
  }

  /** Builds the next level pair by pair. */
  method NextLevel(hash: HashFunction, hs: seq<Bytes32>) returns (next: seq<Bytes32>)
    requires |hs| > 1
    ensures next == NextHashes(hash, hs)
  {
    var padded := hs;
    if |hs| % 2 == 1 { padded := hs + [hs[|hs| - 1]]; }
    assert padded == Padded(hs);
    next := [];
    for i := 0 to |padded| / 2
      invariant |next| == i && forall j :: 0 <= j < i ==> next[j] == hash(Join(padded[2 * j], padded[2 * j + 1]))
    {
      next := next + [hash(Join(padded[2 * i], padded[2 * i + 1]))];
    }
  }

  method ComputeRoot(hash: HashFunction, hs: seq<Bytes32>) returns (root: Bytes32)
    ensures root == RootHash(hash, hs)
    ensures hs == [] ==> forall i :: 0 <= i < 32 ==> root[i] == 0
    decreases |hs|
  {
    if hs == [] { return ZeroHash(); }
    if |hs| == 1 { return hs[0]; }
    var next := NextLevel(hash, hs);
    root := ComputeRoot(hash, next);
  }

  // ---------------------------------------------------------------- the tree behind the root

  datatype Tree = Leaf(bytes: seq<Byte>) | Pair(left: Tree, right: Tree)

  ghost function Preimage(hash: HashFunction, t: Tree): seq<Byte> {
    match t
    case Leaf(bytes) => bytes
    case Pair(l, r) => Join(hash(Preimage(hash, l)), hash(Preimage(hash, r)))
  }

  ghost function Digest(hash: HashFunction, t: Tree): Bytes32 { hash(Preimage(hash, t)) }

  ghost function Digests(hash: HashFunction, ts: seq<Tree>): (hs: seq<Bytes32>)
    ensures |hs| == |ts| && forall i :: 0 <= i < |ts| ==> hs[i] == Digest(hash, ts[i])
  {
    seq(|ts|, i requires 0 <= i < |ts| => Digest(hash, ts[i]))
  }

  /** The next level of the tree. */
  ghost function Level(ts: seq<Tree>): (next: seq<Tree>)
    requires ts != []
    ensures |next| == (|ts| + 1) / 2
  {
    seq((|ts| + 1) / 2, i requires 0 <= i < (|ts| + 1) / 2 => Pair(Padded(ts)[2 * i], Padded(ts)[2 * i + 1]))
  }

  ghost function Root(ts: seq<Tree>): Tree
    requires ts != []
    decreases |ts|
  {
    if |ts| == 1 then ts[0] else Root(Level(ts))
  }

  lemma LevelDigests(hash: HashFunction, ts: seq<Tree>)
    requires ts != []
    ensures NextHashes(hash, Digests(hash, ts)) == Digests(hash, Level(ts))
  {
    var hs := Digests(hash, ts);
    forall i | 0 <= i < (|ts| + 1) / 2 ensures NextHashes(hash, hs)[i] == Digests(hash, Level(ts))[i] {
      assert Padded(hs)[2 * i] == Digest(hash, Padded(ts)[2 * i]);
      assert Padded(hs)[2 * i + 1] == Digest(hash, Padded(ts)[2 * i + 1]);
    }
  }

  /** The computed root is the digest of the tree. */
  lemma {:induction false} RootIsDigest(hash: HashFunction, ts: seq<Tree>)
    requires ts != []
    ensures RootHash(hash, Digests(hash, ts)) == Digest(hash, Root(ts))
    decreases |ts|
  {
    if |ts| > 1 {
      LevelDigests(hash, ts);
      RootIsDigest(hash, Level(ts));
    }
  }

  /** No leaf is as long as two digests. */
  ghost predicate Tagged(t: Tree) {
    match t
    case Leaf(bytes) => |bytes| != 64
    case Pair(l, r) => Tagged(l) && Tagged(r)
  }

  ghost predicate Collides(hash: HashFunction, x: seq<Byte>, y: seq<Byte>) {
    x != y && hash(x) == hash(y)
  }

  /** Trees with the same digest are equal, or two of their nodes collide. */
  lemma {:induction false} DigestBinds(hash: HashFunction, s: Tree, t: Tree) returns (x: seq<Byte>, y: seq<Byte>)
    requires Tagged(s) && Tagged(t) && Digest(hash, s) == Digest(hash, t)
    ensures s == t || Collides(hash, x, y)
    decreases s
  {
    x, y := Preimage(hash, s), Preimage(hash, t);
    if x == y && s.Pair? {
      assert t.Pair?;
      var x', y' := DigestBinds(hash, s.left, t.left);
      if Collides(hash, x', y') { return x', y'; }
      x, y := DigestBinds(hash, s.right, t.right);
    }
  }

  // ---------------------------------------------------------------- the root binds the leaves

  ghost function Depth(t: Tree): nat {
    if t.Leaf? then 0 else 1 + Depth(t.left)
  }

  ghost predicate Uniform(ts: seq<Tree>, k: nat) {
    forall i :: 0 <= i < |ts| ==> Depth(ts[i]) == k
  }

  lemma LevelUniform(hs: seq<Tree>, k: nat)
    requires |hs| > 1 && Uniform(hs, k)
    ensures Uniform(Level(hs), k + 1)
  {
    forall i | 0 <= i < |Level(hs)| ensures Depth(Level(hs)[i]) == k + 1 { assert Padded(hs)[2 * i] == hs[2 * i]; }
  }

  lemma {:induction false} RootDepth(hs: seq<Tree>, k: nat)
    requires hs != [] && Uniform(hs, k)
    ensures Depth(Root(hs)) >= k && (|hs| > 1 ==> Depth(Root(hs)) > k)
    decreases |hs|
  {
    if |hs| > 1 {
      LevelUniform(hs, k);
      RootDepth(Level(hs), k + 1);
    }
  }

  lemma LevelDistinct(hs: seq<Tree>)
    requires |hs| > 1 && Pairwise(hs)
    ensures Pairwise(Level(hs))
  {
    forall i, j | 0 <= i < j < |Level(hs)| ensures Level(hs)[i] != Level(hs)[j] {
      assert Padded(hs)[2 * i] == hs[2 * i] && Padded(hs)[2 * j] == hs[2 * j];
    }
  }

  lemma LevelsAgree(a: seq<Tree>, b: seq<Tree>, i: nat)
    requires |a| > 1 && |b| > 1 && Level(a) == Level(b) && i < |Level(a)|
    ensures a[2 * i] == b[2 * i] && Padded(a)[2 * i + 1] == Padded(b)[2 * i + 1]
  {
    assert Level(a)[i] == Pair(Padded(a)[2 * i], Padded(a)[2 * i + 1]);
    assert Level(b)[i] == Pair(Padded(b)[2 * i], Padded(b)[2 * i + 1]);
  }

  /** Without repeated digests a level determines the list below it: only the repeated last
      digest could hide a change of length, and it would be a repetition. */
  lemma LevelInjective(a: seq<Tree>, b: seq<Tree>)
    requires |a| > 1 && |b| > 1 && Pairwise(a) && Pairwise(b) && Level(a) == Level(b)
    ensures a == b
  {
    SameLength(a, b);
    forall j | 0 <= j < |a| ensures a[j] == b[j] { LevelsAgree(a, b, j / 2); }
  }

  lemma SameLength(a: seq<Tree>, b: seq<Tree>)
    requires |a| > 1 && |b| > 1 && Pairwise(a) && Pairwise(b) && Level(a) == Level(b)
    ensures |a| == |b|
  {
    var m := |Level(a)| - 1;
    LevelsAgree(a, b, m);
    assert |b| == 2 * m + 2 ==> b[2 * m] != b[2 * m + 1];
    assert |a| == 2 * m + 2 ==> a[2 * m] != a[2 * m + 1];
  }

  lemma {:induction false} RootInjective(a: seq<Tree>, b: seq<Tree>, k: nat)
    requires a != [] && b != [] && Uniform(a, k) && Uniform(b, k) && Pairwise(a) && Pairwise(b) && Root(a) == Root(b)
    ensures a == b
    decreases |a|
  {
    RootDepth(a, k);
    RootDepth(b, k);
    if |a| > 1 && |b| > 1 {
      LevelUniform(a, k);
      LevelUniform(b, k);
      LevelDistinct(a);
      LevelDistinct(b);
      RootInjective(Level(a), Level(b), k + 1);
      LevelInjective(a, b);
    }
  }

  ghost function PowerOfTwo(k: nat): (n: nat)
    ensures n > 0
  {
    if k == 0 then 1 else 2 * PowerOfTwo(k - 1)
  }

  /** The next level of n pairs. */
  lemma PairsAt(hash: HashFunction, hs: seq<Bytes32>, n: nat)
    requires n > 0 && |hs| == 2 * n
    ensures |NextHashes(hash, hs)| == n
    ensures forall i :: 0 <= i < n ==> NextHashes(hash, hs)[i] == hash(Join(hs[2 * i], hs[2 * i + 1]))
  {
  }

  lemma NextOfHalves(hash: HashFunction, a: seq<Bytes32>, b: seq<Bytes32>, n: nat)
    requires n > 0 && |a| == |b| == 2 * n
    ensures NextHashes(hash, a + b) == NextHashes(hash, a) + NextHashes(hash, b)
    ensures |NextHashes(hash, a)| == |NextHashes(hash, b)| == n
  {
    PairsAt(hash, a, n);
    PairsAt(hash, b, n);
    PairsAt(hash, a + b, 2 * n);
    var whole, parts := NextHashes(hash, a + b), NextHashes(hash, a) + NextHashes(hash, b);
    forall i | 0 <= i < 2 * n ensures whole[i] == parts[i] {
      if i >= n { assert (a + b)[2 * i] == b[2 * (i - n)] && (a + b)[2 * i + 1] == b[2 * (i - n) + 1]; }
    }
  }

  /** Over a power of two of leaves, the root joins the roots of the two halves, left before right. */
  lemma {:induction false} RootOfHalves(hash: HashFunction, a: seq<Bytes32>, b: seq<Bytes32>, k: nat)
    requires |a| == |b| == PowerOfTwo(k)
    ensures RootHash(hash, a + b) == hash(Join(RootHash(hash, a), RootHash(hash, b)))
    decreases k
  {
    if k == 0 {
      assert NextHashes(hash, a + b) == [hash(Join(a[0], b[0]))];
    } else {
      NextOfHalves(hash, a, b, PowerOfTwo(k - 1));
      RootOfHalves(hash, NextHashes(hash, a), NextHashes(hash, b), k - 1);
    }
  }

  /** Over an odd number of leaves above one, the last one counts twice. */
  lemma RootPads(hash: HashFunction, hs: seq<Bytes32>)
    requires |hs| > 1 && |hs| % 2 == 1
    ensures RootHash(hash, hs) == RootHash(hash, hs + [hs[|hs| - 1]])
  {
    var ps := hs + [hs[|hs| - 1]];
    assert Padded(hs) == ps && Padded(ps) == ps;
    assert NextHashes(hash, hs) == NextHashes(hash, ps);
  }

  /** Last-leaf duplication alone lets two lists share a root, whatever the hash function. */
  lemma DuplicationCollides(hash: HashFunction, x: Bytes32, y: Bytes32, z: Bytes32)
    ensures RootHash(hash, [x, y, z]) == RootHash(hash, [x, y, z, z])
  {
    var a, b := [x, y, z], [x, y, z, z];
    assert Padded(a) == b && Padded(b) == b;
    assert NextHashes(hash, a) == NextHashes(hash, b) by {
      forall i | 0 <= i < 2 ensures NextHashes(hash, a)[i] == NextHashes(hash, b)[i] { }
    }
  }

  // ---------------------------------------------------------------- transactions

  ghost function Leaves(txs: seq<Wire.Transaction>): (ts: seq<Tree>)
    ensures |ts| == |txs| && forall i :: 0 <= i < |ts| ==> ts[i] == Leaf(Wire.Encode(txs[i]))
  {
    seq(|txs|, i requires 0 <= i < |txs| => Leaf(Wire.Encode(txs[i])))
  }

  /** The root of a transaction list: an id is the hash of the wire form. */
  ghost function TxRoot(hash: HashFunction, txs: seq<Wire.Transaction>): Bytes32 {
    RootHash(hash, Digests(hash, Leaves(txs)))
  }

  ghost predicate AllFit(txs: seq<Wire.Transaction>) {
    forall i :: 0 <= i < |txs| ==> Wire.Fits(Wire.FORMAT, txs[i])
  }

  lemma LeavesDistinct(txs: seq<Wire.Transaction>)
    requires AllFit(txs) && Pairwise(txs)
    ensures Pairwise(Leaves(txs)) && Uniform(Leaves(txs), 0)
  {
    forall i, j | 0 <= i < j < |txs| ensures Leaves(txs)[i] != Leaves(txs)[j] {
      if Wire.Encode(txs[i]) == Wire.Encode(txs[j]) { Wire.EncodeInjective(txs[i], txs[j]); }
    }
  }

  ghost predicate AllTagged(ts: seq<Tree>) {
    forall i :: 0 <= i < |ts| ==> Tagged(ts[i])
  }

  lemma {:induction false} RootTagged(ts: seq<Tree>)
    requires ts != [] && AllTagged(ts)
    ensures Tagged(Root(ts))
    decreases |ts|
  {
    if |ts| > 1 {
      assert AllTagged(Padded(ts));
      forall i | 0 <= i < |Level(ts)| ensures Tagged(Level(ts)[i]) { assert 2 * i + 1 < |Padded(ts)|; }
      RootTagged(Level(ts));
    }
  }

  lemma LeavesTagged(txs: seq<Wire.Transaction>)
    ensures AllTagged(Leaves(txs))
  {
    forall i | 0 <= i < |txs| ensures Tagged(Leaves(txs)[i]) { Wire.NeverTwoDigests(txs[i]); }
  }

  /** What equal roots of two lists show: the lists are equal, two preimages collide, or some
      preimage hashes to the root of the empty list. */
  datatype Finding = Same | Collision(x: seq<Byte>, y: seq<Byte>) | HashesToZero(x: seq<Byte>)

  ghost predicate Shown(hash: HashFunction, a: seq<Wire.Transaction>, b: seq<Wire.Transaction>, f: Finding) {
    match f
    case Same => a == b
    case Collision(x, y) => Collides(hash, x, y)
    case HashesToZero(x) => hash(x) == ZeroHash() && (a == [] <==> b != [])
  }

  /** The root binds the transactions, for any hash function: from two duplicate-free lists with
      the same root, either the lists are equal or a collision is found. */
  lemma RootBindsTransactions(hash: HashFunction, a: seq<Wire.Transaction>, b: seq<Wire.Transaction>) returns (f: Finding)
    requires AllFit(a) && AllFit(b) && NoDup(a) && NoDup(b)
    requires TxRoot(hash, a) == TxRoot(hash, b)
    ensures Shown(hash, a, b, f)
  {
    if a != [] { RootIsDigest(hash, Leaves(a)); }
    if b != [] { RootIsDigest(hash, Leaves(b)); }
    if a == [] && b == [] { return Same; }
    if b == [] { return HashesToZero(Preimage(hash, Root(Leaves(a)))); }
    if a == [] { return HashesToZero(Preimage(hash, Root(Leaves(b)))); }
    LeavesTagged(a);
    LeavesTagged(b);
    RootTagged(Leaves(a));
    RootTagged(Leaves(b));
    var x, y := DigestBinds(hash, Root(Leaves(a)), Root(Leaves(b)));
    if Collides(hash, x, y) { return Collision(x, y); }
    TreesBind(a, b);
    return Same;
  }

  lemma TreesBind(a: seq<Wire.Transaction>, b: seq<Wire.Transaction>)
    requires AllFit(a) && AllFit(b) && NoDup(a) && NoDup(b) && a != [] && b != []
    requires Root(Leaves(a)) == Root(Leaves(b))
    ensures a == b
  {
    NoDupPairs(a);
    NoDupPairs(b);
    LeavesDistinct(a);
    LeavesDistinct(b);
    RootInjective(Leaves(a), Leaves(b), 0);
    forall i | 0 <= i < |a| ensures a[i] == b[i] {
      assert Leaves(a)[i] == Leaves(b)[i];
      Wire.EncodeInjective(a[i], b[i]);
    }
  }

  // ---------------------------------------------------------------- accepted blocks

  /** A wire transaction as the chain sees it: its id and its key images, as numbers. */
  ghost function AsTx(tx: Wire.Transaction): Tx {
    Tx(FromLe(Wire.Encode(tx)), seq(|tx.inputs|, i requires 0 <= i < |tx.inputs| => FromLe(tx.inputs[i].keyImage)))
  }

  ghost function AsTxs(txs: seq<Wire.Transaction>): (r: seq<Tx>)
    ensures |r| == |txs| && forall i :: 0 <= i < |r| ==> r[i] == AsTx(txs[i])
  {
    seq(|txs|, i requires 0 <= i < |txs| => AsTx(txs[i]))
  }

  const MAX_BLOCK_SIZE: nat := 0x10_0000

  /** The sizes of the transactions, as block validation adds them up. */
  ghost function TxSizes(txs: seq<Wire.Transaction>): nat {
    if txs == [] then 0 else TxSizes(txs[..|txs| - 1]) + Wire.Room(txs[|txs| - 1])
  }

  ghost predicate FullRings(tx: Wire.Transaction) {
    forall i :: i in tx.inputs ==> |i.ringMembers| == |i.ringCommitments| == Wire.RING_SIZE
  }

  /** What block validation checks of the transactions: coinbase, key images, ring sizes and
      the size of the block. */
  ghost predicate Checked(txs: seq<Wire.Transaction>) {
    && CoinbaseFirst(AsTxs(txs)) && NoDup(TxImages(AsTxs(txs)))
    && (forall i :: 0 <= i < |txs| ==> FullRings(txs[i])) && TxSizes(txs) <= MAX_BLOCK_SIZE
  }

  lemma CheckedDistinct(txs: seq<Wire.Transaction>)
    requires Checked(txs)
    ensures NoDup(txs)
  {
    CheckedTxsDistinct(AsTxs(txs));
    NoDupPairs(AsTxs(txs));
    forall i, j | 0 <= i < j < |txs| ensures txs[i] != txs[j] { assert AsTxs(txs)[i] != AsTxs(txs)[j]; }
    NoDupPairs(txs);
  }

  lemma {:induction false} OneSize(txs: seq<Wire.Transaction>, i: nat)
    requires i < |txs|
    ensures Wire.Room(txs[i]) <= TxSizes(txs)
  {
    if i < |txs| - 1 { OneSize(txs[..|txs| - 1], i); }
  }

  lemma CheckedFit(txs: seq<Wire.Transaction>)
    requires Checked(txs)
    ensures AllFit(txs)
  {
    forall i | 0 <= i < |txs| ensures Wire.Fits(Wire.FORMAT, txs[i]) {
      assert FullRings(txs[i]);
      OneSize(txs, i);
      Wire.RoomIsLength(txs[i]);
      Wire.ShortFits(txs[i]);
    }
  }

  /** Two accepted blocks that carry the same root carry the same transactions, or exhibit a
      collision of the hash function. */
  lemma RootBindsCheckedBlocks(hash: HashFunction, a: seq<Wire.Transaction>, b: seq<Wire.Transaction>) returns (x: seq<Byte>, y: seq<Byte>)
    requires Checked(a) && Checked(b) && TxRoot(hash, a) == TxRoot(hash, b)
    ensures a == b || Collides(hash, x, y)
  {
    CheckedDistinct(a);
    CheckedDistinct(b);
    CheckedFit(a);
    CheckedFit(b);
    var f := RootBindsTransactions(hash, a, b);
    if f.Collision? { x, y := f.x, f.y; } else { x, y := [], []; }
  }
}
