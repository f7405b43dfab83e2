/** How the daemon finds the blocks a reorganisation took off and put on the main chain
    (daemon.go, collectReorgDiffBlocks), by walking parent hashes from both tips. */
module Reorg {
  import opened Seqs
  import opened Blocks
  import opened ChainModel
  import opened Fork

  const MAX_WALK: nat := 1000

  /** The first walk: the top of the new path, newest first, and the set of hashes seen. It
      ends at the old tip, at height 0 or after MAX_WALK blocks. */
  ghost predicate NewWalk(q: seq<Block>, oldTip: Hash, reversed: seq<Block>, lo: nat) {
    && lo < |q| && |reversed| <= MAX_WALK && |reversed| <= |q|
    && (forall i :: 0 <= i < |reversed| ==> reversed[i] == q[|q| - 1 - i])
    && (forall k :: lo < k < |q| ==> q[k].hash != oldTip)
    && (if q[lo].hash == oldTip then |reversed| == |q| - 1 - lo < MAX_WALK
        else |reversed| == |q| - lo && (lo == 0 || |reversed| == MAX_WALK))
  }

  method WalkNew(bs: map<Hash, Block>, oldTip: Hash, newTip: Hash) returns (reversed: seq<Block>, seen: set<Hash>, ghost lo: nat)
    requires Linked(bs) && newTip in bs
    ensures NewWalk(Path(bs, newTip), oldTip, reversed, lo)
    ensures seen == HashesIn(Path(bs, newTip), lo, |Path(bs, newTip)|)
  {
    ghost var q := Path(bs, newTip);
    var hash, going := newTip, true;
    reversed, seen := [], {};
    ghost var k: nat := |q| - 1;
    TipOnPath(bs, newTip);
    while going
      invariant 0 <= k < |q| && |reversed| <= MAX_WALK
      invariant going ==> |reversed| == |q| - 1 - k < MAX_WALK && hash == q[k].hash && seen == HashesIn(q, k + 1, |q|)
      invariant !going ==> NewWalk(q, oldTip, reversed, k) && seen == HashesIn(q, k, |q|)
      invariant forall i :: 0 <= i < |reversed| ==> reversed[i] == q[|q| - 1 - i]
      invariant forall j :: k < j < |q| ==> q[j].hash != oldTip
      decreases going, k
    {
      PathLinks(bs, newTip, k);
      seen := seen + {hash};
      assert seen == HashesIn(q, k, |q|);
      if hash == oldTip {
        going := false;
      } else {
        var block := bs[hash];
        reversed := reversed + [block];
        if block.height == 0 || |reversed| >= MAX_WALK {
          going := false;
        } else {
          hash := block.prev;
          k := k - 1;
        }
      }
    }
    lo := k;
  }

  /** Which heights of the old path the first walk has seen. */
  lemma SeenIffShared(bs: map<Hash, Block>, oldTip: Hash, newTip: Hash, lo: nat, i: nat)
    requires Linked(bs) && oldTip in bs && newTip in bs && lo <= bs[newTip].height && i <= bs[oldTip].height
    ensures var p, q := Path(bs, oldTip), Path(bs, newTip);
      p[i].hash in HashesIn(q, lo, |q|) <==> lo <= i < CommonLength(p, q)
  {
    var p, q := Path(bs, oldTip), Path(bs, newTip);
    PathLinks(bs, oldTip, i);
    if i < |q| { SameHashIffShared(bs, oldTip, newTip, i); }
    if p[i].hash in HashesIn(q, lo, |q|) {
      var j :| lo <= j < |q| && q[j].hash == p[i].hash;
      PathLinks(bs, newTip, j);
    }
  }

  /** The walk finds the fork exactly when the new branch is shorter than MAX_WALK. */
  lemma ForkSeen(bs: map<Hash, Block>, oldTip: Hash, newTip: Hash, reversed: seq<Block>, lo: nat)
    requires Linked(bs) && oldTip in bs && newTip in bs && NewWalk(Path(bs, newTip), oldTip, reversed, lo)
    ensures var n := CommonLength(Path(bs, oldTip), Path(bs, newTip));
      n >= 1 ==> (lo <= n - 1 <==> |Path(bs, newTip)| - n < MAX_WALK)
    ensures var n := CommonLength(Path(bs, oldTip), Path(bs, newTip));
      n >= 1 && lo <= n - 1 ==> |Path(bs, newTip)| - n <= |reversed|
  {
    var p, q := Path(bs, oldTip), Path(bs, newTip);
    var n := CommonLength(p, q);
    PathLinks(bs, newTip, lo);
    PathLinks(bs, oldTip, |p| - 1);
    if q[lo].hash == oldTip { SameHashIffShared(bs, oldTip, newTip, lo); }
  }

  ghost predicate AncestorAt(p: seq<Block>, ancestors: map<Hash, Block>, j: nat)
    requires j < |p|
  {
    p[j].hash in ancestors && ancestors[p[j].hash] == p[j]
  }

  /** The ancestors collected so far are exactly the blocks of p above height k. */
  ghost predicate OldWalk(p: seq<Block>, ancestors: map<Hash, Block>, k: int) {
    && -1 <= k < |p|
    && (forall j: nat {:trigger AncestorAt(p, ancestors, j)} :: k < j < |p| ==> AncestorAt(p, ancestors, j))
    && ancestors.Keys == HashesIn(p, k + 1, |p|)
  }

  lemma OldWalkStep(bs: map<Hash, Block>, tip: Hash, ancestors: map<Hash, Block>, k: nat)
    requires Linked(bs) && tip in bs && k <= bs[tip].height && OldWalk(Path(bs, tip), ancestors, k)
    ensures OldWalk(Path(bs, tip), ancestors[Path(bs, tip)[k].hash := Path(bs, tip)[k]], k - 1)
  {
    var p := Path(bs, tip);
    var next := ancestors[p[k].hash := p[k]];
    forall j: nat | k - 1 < j < |p| ensures AncestorAt(p, next, j) {
      if j > k { assert AncestorAt(p, ancestors, j); DistinctHashes(bs, tip, j, k); }
    }
    HashesGrow(p, k, |p|);
  }

  /** How many ancestors have been collected. */
  method Count(ancestors: map<Hash, Block>, ghost bs: map<Hash, Block>, ghost tip: Hash, ghost k: int) returns (n: nat)
    requires Linked(bs) && tip in bs && OldWalk(Path(bs, tip), ancestors, k)
    ensures n == |Path(bs, tip)| - 1 - k
  {
    n := |ancestors.Keys|;
    HashCount(bs, tip, k + 1, |Path(bs, tip)|);
  }

  ghost predicate Reaches(p: seq<Block>, q: seq<Block>, lo: nat) {
    var n := CommonLength(p, q);
    n >= 1 && lo <= n - 1 && |p| - n < MAX_WALK
  }

  /** One step of the second walk: a hash already seen is the fork, anything else is recorded. */
  lemma OldStep(bs: map<Hash, Block>, oldTip: Hash, newTip: Hash, ancestors: map<Hash, Block>, lo: nat, k: nat)
    requires Linked(bs) && oldTip in bs && newTip in bs && lo <= bs[newTip].height
    requires OldWalk(Path(bs, oldTip), ancestors, k) && |Path(bs, oldTip)| - 1 - k < MAX_WALK
    requires var n := CommonLength(Path(bs, oldTip), Path(bs, newTip)); lo <= n - 1 ==> n - 1 <= k
    ensures var p := Path(bs, oldTip); var b := p[k];
      b.height == k && b.hash in bs && bs[b.hash] == b && (k > 0 ==> b.prev == p[k - 1].hash)
    ensures var p, q := Path(bs, oldTip), Path(bs, newTip); var n := CommonLength(p, q); var b := p[k];
      if b.hash in HashesIn(q, lo, |q|) then k == n - 1 && Reaches(p, q, lo)
      else OldWalk(p, ancestors[b.hash := b], k - 1) && if k == 0 || |p| - k >= MAX_WALK then !Reaches(p, q, lo) else lo <= n - 1 ==> n <= k
  {
    PathLinks(bs, oldTip, k);
    SeenIffShared(bs, oldTip, newTip, lo, k);
    OldWalkStep(bs, oldTip, ancestors, k);
  }

  /** The second walk: down the old path to the first hash seen, or None. */
  method WalkOld(bs: map<Hash, Block>, oldTip: Hash, seen: set<Hash>, ghost newTip: Hash, ghost lo: nat)
    returns (r: Option<Hash>, ancestors: map<Hash, Block>)
    requires Linked(bs) && oldTip in bs && newTip in bs && lo <= bs[newTip].height
    requires seen == HashesIn(Path(bs, newTip), lo, |Path(bs, newTip)|)
    ensures var p, q := Path(bs, oldTip), Path(bs, newTip); var n := CommonLength(p, q);
      && (r.Some? <==> Reaches(p, q, lo))
      && (r.Some? ==> r.value == p[n - 1].hash && OldWalk(p, ancestors, n - 1))
  {
    ghost var p, q := Path(bs, oldTip), Path(bs, newTip);
    ghost var n := CommonLength(p, q);
    var hash := oldTip;
    ancestors := map[];
    ghost var k: nat := |p| - 1;
    TipOnPath(bs, oldTip);
    while true
      invariant 0 <= k < |p| && hash == p[k].hash && OldWalk(p, ancestors, k) && |p| - 1 - k < MAX_WALK
      invariant lo <= n - 1 ==> n - 1 <= k
      decreases k
    {
      OldStep(bs, oldTip, newTip, ancestors, lo, k);
      if hash in seen { return Some(hash), ancestors; }
      ancestors := ancestors[hash := bs[hash]];
      var count := Count(ancestors, bs, oldTip, k - 1);
      if bs[hash].height == 0 || count >= MAX_WALK { return None, ancestors; }
      hash := bs[hash].prev;
      k := k - 1;
    }
  }

  /** The part of the first walk above the fork, lowest first. */
  method ConnectList(reversed: seq<Block>, ancestor: Hash, ghost q: seq<Block>, ghost n: nat) returns (c: seq<Block>)
    requires 1 <= n <= |q| && |q| - n <= |reversed| <= |q|
    requires forall i :: 0 <= i < |reversed| ==> reversed[i] == q[|q| - 1 - i]
    requires forall k :: 0 <= k < |q| ==> (q[k].hash == ancestor <==> k == n - 1)
    ensures IsTail(c, q, n)
  {
    var i := 0;
    while i < |reversed| && reversed[i].hash != ancestor
      invariant 0 <= i <= |q| - n
    {
      i := i + 1;
    }
    c := [];
    while i > 0
      invariant 0 <= i <= |q| - n && |c| == |q| - n - i
      invariant forall j :: 0 <= j < |c| ==> c[j] == q[n + j]
    {
      i := i - 1;
      c := c + [reversed[i]];
    }
  }

  /** The old path above the fork, tip first. */
  method DisconnectList(bs: map<Hash, Block>, oldTip: Hash, ancestor: Hash, ancestors: map<Hash, Block>, ghost n: nat)
    returns (d: seq<Block>)
    requires Linked(bs) && oldTip in bs && 1 <= n <= bs[oldTip].height + 1
    requires ancestor == Path(bs, oldTip)[n - 1].hash
    requires OldWalk(Path(bs, oldTip), ancestors, n - 1)
    ensures IsReversedTail(d, Path(bs, oldTip), n)
  {
    ghost var p := Path(bs, oldTip);
    var hash := oldTip;
    ghost var k: nat := |p| - 1;
    d := [];
    TipOnPath(bs, oldTip);
    DistinctHashes(bs, oldTip, k, n - 1);
    while hash != ancestor
      invariant n - 1 <= k < |p| && hash == p[k].hash && (hash == ancestor <==> k == n - 1)
      invariant IsReversedTail(d, p, k + 1)
      decreases k
    {
      PathLinks(bs, oldTip, k);
      DistinctHashes(bs, oldTip, k - 1, n - 1);
      assert AncestorAt(p, ancestors, k);
      var block := ancestors[hash];
      d := d + [block];
      hash := block.prev;
      k := k - 1;
    }
  }

  lemma ForkHash(bs: map<Hash, Block>, oldTip: Hash, newTip: Hash, n: nat, k: nat)
    requires Linked(bs) && oldTip in bs && newTip in bs && k <= bs[newTip].height
    requires 1 <= n == CommonLength(Path(bs, oldTip), Path(bs, newTip))
    ensures Path(bs, newTip)[k].hash == Path(bs, oldTip)[n - 1].hash <==> k == n - 1
  {
    SameHashIffShared(bs, oldTip, newTip, n - 1);
    DistinctHashes(bs, newTip, k, n - 1);
  }

  /** The blocks taken off and put on, exactly, whenever both branches are shorter than
      1000 blocks above the fork; two empty lists in every other case. */
  method CollectReorgDiff(bs: map<Hash, Block>, oldTip: Hash, newTip: Hash) returns (d: seq<Block>, c: seq<Block>)
    requires Linked(bs) && oldTip in bs && newTip in bs
    ensures var p, q := Path(bs, oldTip), Path(bs, newTip); var n := CommonLength(p, q);
      if n >= 1 && |q| - n < 1000 && |p| - n < 1000 then IsReversedTail(d, p, n) && IsTail(c, q, n)
      else d == [] && c == []
  {
    ghost var p, q := Path(bs, oldTip), Path(bs, newTip);
    ghost var n := CommonLength(p, q);
    var reversed, seen;
    ghost var lo;
    reversed, seen, lo := WalkNew(bs, oldTip, newTip);
    ForkSeen(bs, oldTip, newTip, reversed, lo);
    var ancestor, ancestors := WalkOld(bs, oldTip, seen, newTip, lo);
    if ancestor.None? { return [], []; }
    d := DisconnectList(bs, oldTip, ancestor.value, ancestors, n);
    forall k | 0 <= k < |q| ensures q[k].hash == ancestor.value <==> k == n - 1 { ForkHash(bs, oldTip, newTip, n, k); }
    c := ConnectList(reversed, ancestor.value, q, n);
  }
}
