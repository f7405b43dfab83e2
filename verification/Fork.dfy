/** A reorganisation seen from the model: the fork point of two paths, the blocks to
    disconnect and to connect, and what committing them does to the store. */
module Fork {
  import opened Seqs
  import opened Blocks
  import opened Median
  import opened ChainModel
  import opened Storage

  ghost predicate Sub<K, V>(a: map<K, V>, b: map<K, V>) {
    forall k :: k in a ==> k in b && b[k] == a[k]
  }

  /** Two paths carry the same hash at height i exactly when i is below the fork. */
  lemma SameHashIffShared(bs: map<Hash, Block>, a: Hash, b: Hash, i: nat)
    requires Linked(bs) && a in bs && b in bs && i <= bs[a].height && i <= bs[b].height
    ensures Path(bs, a)[i].hash == Path(bs, b)[i].hash <==> i < CommonLength(Path(bs, a), Path(bs, b))
  {
    var p, q := Path(bs, a), Path(bs, b);
    var n := CommonLength(p, q);
    if p[i].hash == q[i].hash {
      PathsAgreeBelow(bs, a, b, i);
      CommonAtLeast(p, q, i + 1);
    }
    assert forall k :: 0 <= k < n ==> p[k] == p[..n][k] && q[k] == q[..n][k];
  }

  lemma PathLinks(bs: map<Hash, Block>, k: Hash, i: nat)
    requires Linked(bs) && k in bs && i <= bs[k].height
    ensures var p := Path(bs, k); p[i].height == i && p[i].hash in bs && bs[p[i].hash] == p[i]
    ensures var p := Path(bs, k); i > 0 ==> p[i].prev == p[i - 1].hash && p[i].prev in bs && bs[p[i].prev] == p[i - 1]
  {
    PathIsChain(bs, k);
    assert LinkAt(Path(bs, k), i);
  }

  lemma TipOnPath(bs: map<Hash, Block>, k: Hash)
    requires Linked(bs) && k in bs
    ensures Path(bs, k)[bs[k].height].hash == k
  {
    assert LinkedAt(bs, k);
  }

  lemma DistinctHashes(bs: map<Hash, Block>, k: Hash, i: nat, j: nat)
    requires Linked(bs) && k in bs && i <= bs[k].height && j <= bs[k].height
    ensures Path(bs, k)[i].hash == Path(bs, k)[j].hash <==> i == j
  {
    PathLinks(bs, k, i);
    PathLinks(bs, k, j);
  }

  // ---------------------------------------------------------------- the lists of a reorganisation

  /** How many blocks the switch to b connects. */
  ghost function BranchLength(s: State, b: Block): int
    requires Inv(s) && Attached(s, b)
  {
    |NewPath(s, b)| - Shared(s, b)
  }

  ghost predicate IsReversedTail(d: seq<Block>, p: seq<Block>, n: nat) {
    |d| == |p| - n && forall i :: 0 <= i < |d| ==> d[i] == p[|p| - 1 - i]
  }

  /** The hashes of p[lo], ..., p[hi - 1]. */
  ghost function HashesIn(p: seq<Block>, lo: nat, hi: nat): set<Hash>
    requires hi <= |p|
  {
    set i | lo <= i < hi :: p[i].hash
  }

  lemma HashesGrow(p: seq<Block>, lo: nat, hi: nat)
    requires lo < hi <= |p|
    ensures HashesIn(p, lo, hi) == HashesIn(p, lo + 1, hi) + {p[lo].hash}
  {
  }

  /** A path has as many hashes as heights. */
  lemma {:induction false} HashCount(bs: map<Hash, Block>, tip: Hash, lo: nat, hi: nat)
    requires Linked(bs) && tip in bs && lo <= hi <= |Path(bs, tip)|
    ensures |HashesIn(Path(bs, tip), lo, hi)| == hi - lo
    decreases hi - lo
  {
    var p := Path(bs, tip);
    if lo < hi {
      HashCount(bs, tip, lo + 1, hi);
      HashesGrow(p, lo, hi);
      forall j | lo < j < hi ensures p[j].hash != p[lo].hash { DistinctHashes(bs, tip, j, lo); }
    }
  }

  /** d (tip first) and c are the blocks above the fork at n shared blocks. */
  ghost predicate IsReorg(s: State, b: Block, n: nat, d: seq<Block>, c: seq<Block>)
    requires Inv(s) && Attached(s, b)
  {
    && 1 <= n <= |Main(s)| && n < |NewPath(s, b)|
    && Main(s)[..n] == NewPath(s, b)[..n]
    && Reversed(d, Main(s)[n..])
    && c == NewPath(s, b)[n..]
  }

  /** A new path is a hash-linked list of stored blocks that ends with b. */
  ghost predicate EndsWith(bs: map<Hash, Block>, q: seq<Block>, b: Block) {
    q != [] && q[|q| - 1] == b && IsChain(q) && AllStored(bs, q[..|q| - 1])
  }

  lemma NewPathEnds(s: State, b: Block)
    requires Inv(s) && Joins(s, b)
    ensures EndsWith(s.blocks, NewPath(s, b), b) && b.height == |NewPath(s, b)| - 1
  {
    JoinPaths(s, b);
    PathIsChain(WithBlock(s, b), b.hash);
    var q := NewPath(s, b);
    assert q[..|q| - 1] == ParentPath(s, b);
    if b.height > 0 { PathIsChain(s.blocks, b.prev); }
  }

  lemma DisconnectPasses(p: seq<Block>, n: nat, d: seq<Block>)
    requires IsChain(p) && 1 <= n <= |p| && Reversed(d, p[n..])
    ensures DisconnectOk(HeightMap(p), |p| - 1, d, |d|)
    ensures d != [] ==> d[|d| - 1].height == n && d[|d| - 1].prev == p[n - 1].hash
  {
    HeightMapAt(p);
    var top := |p| - 1;
    forall i: nat | i < |d| ensures DisconnectAt(HeightMap(p), top, d, i) {
      assert d[i] == p[|p| - 1 - i] && LinkAt(p, |p| - 1 - i);
      if i > 0 { assert d[i - 1] == p[|p| - i] && LinkAt(p, |p| - i); }
    }
    if d != [] { assert d[|d| - 1] == p[n] && LinkAt(p, n); }
  }

  lemma ConnectPasses(q: seq<Block>, n: nat)
    requires IsChain(q) && 1 <= n < |q|
    ensures ConnectOk(q[n - 1].hash, n - 1, q[n..], |q| - n)
  {
    var base, low, c := q[n - 1].hash, n - 1, q[n..];
    forall i: nat | i < |c| ensures ConnectAt(base, low, c, i) { assert LinkAt(q, n + i); }
  }

  lemma ReorgChecks(p: seq<Block>, q: seq<Block>, n: nat, d: seq<Block>, c: seq<Block>)
    requires IsChain(p) && IsChain(q) && 1 <= n <= |p| && n < |q| && p[..n] == q[..n]
    requires Reversed(d, p[n..]) && c == q[n..]
    ensures |d| == |p| - n && |c| == |q| - n && c[|c| - 1] == q[|q| - 1]
    ensures DisconnectOk(HeightMap(p), |p| - 1, d, |d|) && ConnectOk(p[n - 1].hash, n - 1, c, |c|)
    ensures d != [] ==> d[|d| - 1].height > 0 && d[|d| - 1].prev == p[n - 1].hash
  {
    DisconnectPasses(p, n, d);
    ConnectPasses(q, n);
    SharedBase(p, q, n);
  }

  lemma ReorgFitsPaths(s: State, p: seq<Block>, q: seq<Block>, n: nat, d: seq<Block>, c: seq<Block>)
    requires IsChain(p) && IsChain(q) && 1 <= n <= |p| && n < |q| && p[..n] == q[..n]
    requires Reversed(d, p[n..]) && c == q[n..]
    requires p[n - 1].hash in s.blocks && (n == |p| ==> p[n - 1].hash == s.tip)
    ensures ReorgFits(s, HeightMap(p), |p| - 1, d, c, q[|q| - 1].hash, |q| - 1)
  {
    ReorgChecks(p, q, n, d, c);
  }

  lemma ForkEnds(s: State, b: Block, n: nat)
    requires Inv(s) && Joins(s, b) && 1 <= n <= |Main(s)|
    ensures IsChain(Main(s)) && IsChain(NewPath(s, b)) && |Main(s)| - 1 == Height(s)
    ensures var q := NewPath(s, b); q != [] && q[|q| - 1] == b && b.height == |q| - 1
    ensures Main(s)[n - 1].hash in s.blocks && (n == |Main(s)| ==> Main(s)[n - 1].hash == s.tip)
  {
    PathIsChain(s.blocks, s.tip);
    NewPathEnds(s, b);
    PathLinks(s.blocks, s.tip, n - 1);
    TipOnPath(s.blocks, s.tip);
  }

  /** The checks of CommitReorg pass on the lists of a reorganisation. */
  lemma ReorgPasses(s: State, b: Block, n: nat, d: seq<Block>, c: seq<Block>)
    requires Inv(s) && Joins(s, b) && IsReorg(s, b, n, d, c)
    ensures ReorgFits(s, HeightMap(Main(s)), Height(s), d, c, b.hash, b.height)
  {
    ForkEnds(s, b, n);
    ReorgFitsPaths(s, Main(s), NewPath(s, b), n, d, c);
  }

  lemma SharedBase(p: seq<Block>, q: seq<Block>, n: nat)
    requires 1 <= n <= |p| && n <= |q| && p[..n] == q[..n]
    ensures p[n - 1] == q[n - 1]
  {
    assert p[..n][n - 1] == q[..n][n - 1];
  }

  lemma {:induction false} FiledKnown(bs: map<Hash, Block>, c: seq<Block>)
    requires forall i :: 0 <= i < |c| ==> c[i].hash in bs && bs[c[i].hash] == c[i]
    ensures Filed(bs, c) == bs
  {
    if c != [] { FiledKnown(bs, c[..|c| - 1]); }
  }

  /** Committing the lists of a reorganisation replaces the suffix after the fork by the new
      branch, in the block set and in both indexes. */
  lemma ReorgCommits(s: State, b: Block, n: nat, d: seq<Block>, c: seq<Block>)
    requires Inv(s) && Joins(s, b) && IsReorg(s, b, n, d, c)
    ensures Filed(s.blocks, c) == WithBlock(s, b)
    ensures Indexed(HeightMap(Main(s)) - Heights(d), c) == HeightMap(NewPath(s, b))
    ensures MarkedChain(SpentMap(Main(s)) - Elements(ChainImages(d)), c) == SpentMap(NewPath(s, b))
  {
    var p, q := Main(s), NewPath(s, b);
    assert p == p[..n] + p[n..];
    assert q == p[..n] + c;
    PathIsChain(s.blocks, s.tip);
    MainGood(s);
    GoodPathNoDup(p);
    ReorgIndexes(p[..n], p[n..], d, c);
    NewPathEnds(s, b);
    FiledSuffix(s.blocks, q, b, n);
  }

  lemma FiledSuffix(bs: map<Hash, Block>, q: seq<Block>, b: Block, n: nat)
    requires EndsWith(bs, q, b) && n < |q|
    ensures Filed(bs, q[n..]) == bs[b.hash := b]
  {
    var c := q[n..];
    var e := c[..|c| - 1];
    assert forall i :: 0 <= i < |e| ==> e[i] == q[..|q| - 1][n + i];
    FiledKnown(bs, e);
  }

  /** The new block itself is never shared. */
  lemma ForkBelowNew(s: State, b: Block)
    requires Inv(s) && Joins(s, b)
    ensures Shared(s, b) < |NewPath(s, b)|
  {
    var p, q, n := Main(s), NewPath(s, b), Shared(s, b);
    PathIsChain(s.blocks, s.tip);
    if n > 0 { assert p[n - 1] == p[..n][n - 1] == q[..n][n - 1] == q[n - 1]; }
    assert n > 0 ==> q[n - 1].hash in s.blocks;
    assert q[|q| - 1] == b;
  }

  lemma ForkBlock(s: State, b: Block)
    requires Inv(s) && Joins(s, b) && Shared(s, b) >= 1
    ensures Main(s)[Shared(s, b) - 1] == NewPath(s, b)[Shared(s, b) - 1]
    ensures Main(s)[Shared(s, b) - 1].height == Shared(s, b) - 1
  {
    var n := Shared(s, b);
    PathLinks(s.blocks, s.tip, n - 1);
    SharedBase(Main(s), NewPath(s, b), n);
  }

  lemma ExtensionIsReorg(s: State, b: Block)
    requires Inv(s) && Joins(s, b) && b.height > 0 && b.prev == s.tip
    ensures IsReorg(s, b, |Main(s)|, [], [b])
    ensures FinalityAllows(s, b)
  {
    var p := Main(s);
    assert NewPath(s, b) == p + [b];
    assert p[..|p|] == p;
    CommonAtLeast(p, p + [b], |p|);
  }

  /** CommitReorg as one step of the model. */
  method CommitFork(store: Store, d: seq<Block>, c: seq<Block>, b: Block, work: nat, ghost n: nat) returns (ok: bool)
    requires store.Valid() && Joins(store.Abs(), b) && work == Work(NewPath(store.Abs(), b))
    requires store.ReorgOk(d, c, b.hash, b.height) ==> IsReorg(store.Abs(), b, n, d, c)
    modifies store
    ensures ok <==> old(store.ReorgOk(d, c, b.hash, b.height))
    ensures !ok ==> unchanged(store)
    ensures ok ==> store.Valid() && store.Abs() == State(WithBlock(old(store.Abs()), b), b.hash)
    ensures ok ==> store.tipHeight == b.height && store.tipWork == work
    ensures ok ==> store.heights == Indexed(old(store.heights) - Heights(d), c)
    ensures ok ==> store.keyImages == MarkedChain(old(store.keyImages) - Elements(ChainImages(d)), c)
  {
    ghost var s := store.Abs();
    ok := store.CommitReorg(d, c, b.hash, b.height, work);
    if ok {
      ReorgCommits(s, b, n, d, c);
      JoinPaths(s, b);
    }
  }

  // ---------------------------------------------------------------- partial indexes

  lemma {:induction false} SubIndexed(m: map<nat, Hash>, full: map<nat, Hash>, c: seq<Block>)
    requires Sub(m, full)
    ensures Sub(Indexed(m, c), Indexed(full, c))
  {
    if c != [] { SubIndexed(m, full, c[..|c| - 1]); }
  }

  lemma {:induction false} SubMarked(m: map<KeyImage, nat>, full: map<KeyImage, nat>, xs: seq<KeyImage>, h: nat)
    requires Sub(m, full)
    ensures Sub(Marked(m, xs, h), Marked(full, xs, h))
  {
    if xs != [] { SubMarked(m, full, xs[..|xs| - 1], h); }
  }

  lemma {:induction false} SubMarkedChain(m: map<KeyImage, nat>, full: map<KeyImage, nat>, c: seq<Block>)
    requires Sub(m, full)
    ensures Sub(MarkedChain(m, c), MarkedChain(full, c))
  {
    if c != [] {
      SubMarkedChain(m, full, c[..|c| - 1]);
      SubMarked(MarkedChain(m, c[..|c| - 1]), MarkedChain(full, c[..|c| - 1]), c[|c| - 1].Images(), c[|c| - 1].height);
    }
  }

  // ---------------------------------------------------------------- the time rule

  lemma WindowStamp(p: seq<Block>, i: nat) returns (j: nat)
    requires i < |MedianWindow(p)|
    ensures j < |p| && MedianWindow(p)[i] == p[j].timestamp
  {
    j := if |p| <= MEDIAN_WINDOW then i else |p| - MEDIAN_WINDOW + i;
  }

  /** On a good path the median never exceeds the last timestamp, so the parent rule implies
      the median rule. */
  lemma MedianImplied(p: seq<Block>)
    requires GoodPath(p) && p != []
    ensures MedianOf(MedianWindow(p)) <= p[|p| - 1].timestamp
  {
    var w := MedianWindow(p);
    MedianMember(w);
    var i :| 0 <= i < |w| && w[i] == MedianOf(w);
    var j := WindowStamp(p, i);
    if j < |p| - 1 { GoodPathTimes(p, j, |p| - 1); }
  }
}
