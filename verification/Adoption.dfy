/** When a heavier block becomes the tip: what fork choice does with it, and whether the walk to
    the fork fits the cache. */
module Adoption {
  import opened Seqs
  import opened Blocks
  import opened ChainModel
  import opened Storage
  import opened Cache
  import opened Fork
  import opened Serving

  /** What a reorganisation commits. */
  datatype Plan = Plan(disconnect: seq<Block>, connect: seq<Block>, work: nat)

  ghost predicate PlanFor(plan: Plan, ctx: Context, a: Hash, b: Hash)
    requires Linked(ctx.known) && a in ctx.known && b in ctx.known
  {
    var n := ForkAt(ctx.known, a, b);
    && IsReversedTail(plan.disconnect, Path(ctx.known, a), n)
    && IsTail(plan.connect, Path(ctx.known, b), n)
    && plan.work == Work(Path(ctx.known, b))
  }

  ghost predicate WithinFinality(n: nat, height: nat) {
    n >= 1 && n - 1 + MAX_REORG_DEPTH >= height
  }

  datatype Outcome = Refused | OnSide | OnMain

  /** What fork choice does with a new block, apart from its admissibility. */
  ghost predicate Chosen(s: State, b: Block, r: Outcome, s': State)
    requires Inv(s) && Attached(s, b)
  {
    match r
    case Refused => s' == s
    case OnSide => Work(NewPath(s, b)) <= Work(Main(s)) && s' == State(WithBlock(s, b), s.tip)
    case OnMain => Work(NewPath(s, b)) > Work(Main(s)) && FinalityAllows(s, b) && s' == State(WithBlock(s, b), b.hash)
  }

  ghost function StepOf(r: Outcome, b: Block): Event {
    match r
    case Refused => Refuse
    case OnSide => Side(b)
    case OnMain => Adopt(b)
  }

  lemma {:induction false} HashesCard(p: seq<Block>, lo: nat, hi: nat)
    requires lo <= hi <= |p|
    ensures |HashesIn(p, lo, hi)| <= hi - lo
    decreases hi
  {
    if lo < hi {
      HashesCard(p, lo, hi - 1);
      assert HashesIn(p, lo, hi) == HashesIn(p, lo, hi - 1) + {p[hi - 1].hash};
    }
  }

  // ---------------------------------------------------------------- whether the walk fits

  /** How many blocks a switch to b disconnects and connects. */
  ghost function ForkSize(s: State, b: Block): nat
    requires Inv(s) && Attached(s, b)
  {
    |Main(s)| + |NewPath(s, b)| - 2 * Shared(s, b)
  }

  /** How many recent main-chain blocks the cache pins. */
  ghost function PinRoom(s: State): nat
    requires Inv(s)
  {
    Pins(map[], Height(s)).Room()
  }

  /** The branch, with the new block, fits the cache beside the pinned blocks. */
  ghost predicate BranchFits(s: State, b: Block, cap: nat)
    requires Inv(s) && Attached(s, b)
  {
    BranchLength(s, b) + PinRoom(s) <= cap
  }

  /** With the recent main chain cached, the heavier blocks that become the tip are exactly these. */
  ghost predicate Adoptable(s: State, b: Block, cap: nat)
    requires Inv(s) && Attached(s, b)
  {
    FinalityAllows(s, b) && BranchFits(s, b, cap)
  }

  lemma AdoptableIs(s: State, b: Block, cap: nat)
    requires Inv(s) && Attached(s, b)
    ensures Adoptable(s, b, cap) <==>
      && Shared(s, b) >= 1 && |Main(s)| - Shared(s, b) <= 100
      && |NewPath(s, b)| - Shared(s, b) + (if |Main(s)| < 101 then |Main(s)| else 101) <= cap
  {
    FinalityIs(s, b);
  }

  /** Whatever is cached, a heavier block becomes the tip if both branches fit the cache beside
      the pinned blocks. */
  ghost predicate Reachable(s: State, b: Block, cap: nat)
    requires Inv(s) && Attached(s, b)
  {
    FinalityAllows(s, b) && ForkSize(s, b) + PinRoom(s) < cap
  }

  lemma UnionCard<T>(a: set<T>, b: set<T>)
    ensures |a + b| <= |a| + |b|
  {
    assert a + b == a + (b - a);
    CardMonotone(b - a, b);
  }

  /** The hashes that a switch between two paths may look up: those of both branches, the
      disconnected one counted as pinned if `windowed`. */
  ghost function WalkContext(known: map<Hash, Block>, p: seq<Block>, q: seq<Block>, n: nat, windowed: bool): Context
    requires 1 <= n <= |p| && n < |q|
  {
    var main, branch := HashesIn(p, n - 1, |p|), HashesIn(q, n, |q| - 1);
    Context(known, q[|q| - 1].hash, if windowed then branch else main + branch, if windowed then main else {})
  }

  lemma WalkFacts(known: map<Hash, Block>, p: seq<Block>, q: seq<Block>, n: nat, windowed: bool)
    requires 1 <= n <= |p| && n < |q| && p[n - 1] == q[n - 1]
    ensures var ctx := WalkContext(known, p, q, n, windowed);
      && CoversFrom(ctx, p, n - 1) && CoversFrom(ctx, q, n - 1)
      && |ctx.walk| <= if windowed then |q| - n - 1 else |p| + |q| - 2 * n
  {
    var ctx := WalkContext(known, p, q, n, windowed);
    HashesCard(p, n - 1, |p|);
    HashesCard(q, n, |q| - 1);
    UnionCard(HashesIn(p, n - 1, |p|), HashesIn(q, n, |q| - 1));
    forall k | n - 1 <= k < |p| ensures ctx.Covers(p[k].hash) { assert p[k].hash in HashesIn(p, n - 1, |p|); }
    forall k | n - 1 <= k < |q| ensures ctx.Covers(q[k].hash) {
      if k == n - 1 { assert p[k].hash in HashesIn(p, n - 1, |p|); }
    }
  }

  lemma SwitchCovers(s: State, b: Block, windowed: bool) returns (ctx: Context)
    requires Inv(s) && Joins(s, b) && Shared(s, b) >= 1
    ensures ctx.known == WithBlock(s, b) && ctx.keep == b.hash && GoodStore(ctx.known) && CoversFork(ctx, s.tip, b.hash)
    ensures |ctx.walk| <= if windowed then |NewPath(s, b)| - Shared(s, b) - 1 else ForkSize(s, b)
    ensures ctx.safe == if windowed then HashesIn(Main(s), Shared(s, b) - 1, |Main(s)|) else {}
  {
    var p, q, n := Main(s), NewPath(s, b), Shared(s, b);
    ForkBelowNew(s, b);
    JoinPaths(s, b);
    ForkBlock(s, b);
    ctx := WalkContext(WithBlock(s, b), p, q, n, windowed);
    WalkFacts(WithBlock(s, b), p, q, n, windowed);
  }

  lemma TwoPaths(s: State, b: Block, known: map<Hash, Block>)
    requires Inv(s) && Joins(s, b) && known == WithBlock(s, b)
    ensures Linked(known) && s.tip in known && b.hash in known
    ensures Path(known, s.tip) == Main(s) && Path(known, b.hash) == NewPath(s, b)
  {
    JoinPaths(s, b);
  }

  /** The last shared block, in terms of the blocks known once b is. */
  lemma ForkPoint(s: State, b: Block, known: map<Hash, Block>)
    requires Inv(s) && Joins(s, b) && known == WithBlock(s, b)
    ensures Linked(known) && s.tip in known && b.hash in known && Path(known, s.tip) == Main(s)
    ensures var n, p, q := ForkAt(known, s.tip, b.hash), Path(known, s.tip), Path(known, b.hash);
      n >= 1 ==> n < |q| && p[n - 1].height == n - 1 <= Height(s) && p[n - 1].hash == q[n - 1].hash
  {
    TwoPaths(s, b, known);
    ForkBelowNew(s, b);
    if Shared(s, b) >= 1 { ForkBlock(s, b); }
  }

  /** Extending the tip always fits. */
  lemma ExtensionFits(s: State, b: Block, cap: nat)
    requires Inv(s) && Joins(s, b) && b.height > 0 && b.prev == s.tip && cap >= PROTECTED_BACK + MIN_SLACK
    ensures Adoptable(s, b, cap) && Reachable(s, b, cap)
  {
    var p := Main(s);
    assert NewPath(s, b) == p + [b];
    assert p[..|p|] == p;
    CommonAtLeast(p, p + [b], |p|);
  }

  lemma ChainTails(p: seq<Block>, q: seq<Block>, n: nat, d: seq<Block>, c: seq<Block>)
    requires IsChain(p) && IsChain(q) && n <= |p| && n < |q| && Reversed(d, p[n..]) && c == q[n..]
    ensures Replaces(d, c, n, |q| - 1)
  {
    forall i | 0 <= i < |d| ensures d[i].height >= n {
      assert d[i] == p[|p| - 1 - i];
      assert LinkAt(p, |p| - 1 - i);
    }
    forall i | 0 <= i < |c| ensures c[i].height == n + i { assert LinkAt(q, n + i); }
  }

  /** The lists of a reorganisation replace the heights from the fork up. */
  lemma ReorgReplaces(s: State, b: Block, n: nat, d: seq<Block>, c: seq<Block>)
    requires Inv(s) && Joins(s, b) && IsReorg(s, b, n, d, c)
    ensures Replaces(d, c, n, b.height) && n <= Height(s) + 1
    ensures forall i :: 0 <= i < |c| ==> c[i] == NewPath(s, b)[n + i] && c[i].hash in WithBlock(s, b) && WithBlock(s, b)[c[i].hash] == c[i]
  {
    var bs := WithBlock(s, b);
    PathIsChain(s.blocks, s.tip);
    TwoPaths(s, b, bs);
    PathIsChain(bs, b.hash);
    ChainTails(Main(s), Path(bs, b.hash), n, d, c);
  }

  /** The blocks of q from n on are cached. */
  ghost predicate BranchCached(v: View, q: seq<Block>, n: nat) {
    forall j :: n <= j < |q| ==> q[j].hash in v.blocks
  }

  lemma ExtensionCached(s: State, b: Block, v: View)
    requires Inv(s) && Attached(s, b) && b.height > 0 && b.prev == s.tip && b.hash in v.blocks
    ensures BranchCached(v, NewPath(s, b), |Main(s)|)
  {
    assert NewPath(s, b) == Main(s) + [b];
  }

  /** The branch that a child of the old tip completes after a truncation. Finality never stands in
      its way; whether the chain heals is a matter of what the cache holds. */
  lemma HealingBranch(s: State, keep: nat, s1: State, b: Block, cap: nat)
    requires Inv(s) && Next(s, Truncate(keep), s1) && Inv(s1)
    requires b.height > 0 && b.prev == s.tip && Attached(s1, b) && b.hash !in s.blocks
    ensures NewPath(s1, b) == Main(s) + [b] && Main(s1) == Main(s)[..keep + 1]
    ensures Shared(s1, b) == keep + 1 && BranchLength(s1, b) == Height(s) - keep + 1 && FinalityAllows(s1, b)
    ensures Adoptable(s1, b, cap) <==> Height(s) - keep + 1 + PinRoom(s1) <= cap
    ensures Reachable(s1, b, cap) <==> Height(s) - keep + 1 + PinRoom(s1) < cap
  {
    NextInv(s, Truncate(keep), s1);
    var p, q := Main(s1), NewPath(s1, b);
    assert q == Main(s) + [b];
    assert p[..keep + 1] == q[..keep + 1];
    CommonAtLeast(p, q, keep + 1);
  }

  // ---------------------------------------------------------------- a branch that does not fit

  /** If keep is cached, everything in ks has been used after it. */
  ghost predicate Crowded(v: View, keep: Hash, ks: set<Hash>) {
    keep in v.lru ==> forall x :: x in ks ==> AheadIn(v, x, keep)
  }

  /** Looking up the next block down the path to tip. */
  lemma PathOvertakes(known: map<Hash, Block>, tip: Hash, i: nat, v0: View, v1: View, v2: View)
    requires Linked(known) && tip in known && i < known[tip].height
    requires Overtaken(v0, v1, tip, HashesIn(Path(known, tip), i + 1, known[tip].height))
    requires Path(known, tip)[i].hash != tip ==> Overtaken(v1, v2, tip, {Path(known, tip)[i].hash})
    ensures Overtaken(v0, v2, tip, HashesIn(Path(known, tip), i, known[tip].height))
  {
    var q := Path(known, tip);
    TipOnPath(known, tip);
    DistinctHashes(known, tip, i, known[tip].height);
    HashesGrow(q, i, known[tip].height);
    OvertakenTrans(v0, v1, v2, tip, HashesIn(q, i + 1, known[tip].height), {q[i].hash});
  }

  ghost predicate IndexesPath(pins: Pins, p: seq<Block>) {
    forall h :: h in pins.byHeight ==> h < |p| && pins.byHeight[h] == p[h].hash
  }

  /** The in-memory height index names blocks of the path to tip. */
  ghost predicate Indexes(pins: Pins, known: map<Hash, Block>, tip: Hash)
    requires Linked(known) && tip in known
  {
    IndexesPath(pins, Path(known, tip))
  }

  /** No block of q from n on is a block of p. */
  ghost predicate Apart(p: seq<Block>, q: seq<Block>, n: nat) {
    forall i, j :: 0 <= i < |p| && n <= j < |q| ==> p[i].hash != q[j].hash
  }

  lemma BranchApart(known: map<Hash, Block>, tip: Hash, keep: Hash)
    requires Linked(known) && tip in known && keep in known
    ensures Apart(Path(known, tip), Path(known, keep), ForkAt(known, tip, keep))
  {
    var p, q, n := Path(known, tip), Path(known, keep), ForkAt(known, tip, keep);
    forall i, j | 0 <= i < |p| && n <= j < |q| ensures p[i].hash != q[j].hash {
      PathLinks(known, tip, i);
      PathLinks(known, keep, j);
      if p[i].hash == q[j].hash { SameHashIffShared(known, tip, keep, j); }
    }
  }

  /** A branch that has been used after its last block is cached as long as that block is. */
  lemma BranchStays(v: View, keep: Hash, q: seq<Block>, n: nat)
    requires v.Shape() && n < |q| && keep == q[|q| - 1].hash && keep in v.lru && Crowded(v, keep, HashesIn(q, n, |q| - 1))
    ensures keep in v.blocks ==> BranchCached(v, q, n)
    ensures forall j :: n <= j < |q| ==> q[j].hash in v.lru
  {
    forall j | n <= j < |q| - 1 ensures q[j].hash in v.blocks && q[j].hash in v.lru {
      assert q[j].hash in HashesIn(q, n, |q| - 1);
      assert AheadIn(v, q[j].hash, keep);
    }
  }

  /** The pinned blocks and the branch are cached, if its last block still is. */
  lemma AllCached(v: View, pins: Pins, p: seq<Block>, q: seq<Block>, n: nat)
    requires v.Shape() && WindowOf(v, pins) && n < |q| && q[|q| - 1].hash in v.lru
    requires Crowded(v, q[|q| - 1].hash, HashesIn(q, n, |q| - 1))
    requires IndexesPath(pins, p)
    ensures pins.height < |p|
    ensures forall i :: pins.Low() <= i <= pins.height ==> p[i].hash in v.lru
    ensures forall j :: n <= j < |q| ==> q[j].hash in v.lru
  {
    assert pins.height in pins.byHeight;
    forall h: nat | pins.Low() <= h <= pins.height ensures p[h].hash in v.lru {
      assert h in pins.byHeight && pins.byHeight[h] in v.blocks;
    }
    BranchStays(v, q[|q| - 1].hash, q, n);
  }

  lemma TogetherFit(lru: seq<Hash>, p: seq<Block>, q: seq<Block>, n: nat, lo: nat, hi: nat)
    requires NoDup(lru) && Apart(p, q, n) && n <= |q| && lo <= hi <= |p|
    requires forall i :: lo <= i < hi ==> p[i].hash in lru
    requires forall j :: n <= j < |q| ==> q[j].hash in lru
    ensures |HashesIn(p, lo, hi)| + |HashesIn(q, n, |q|)| <= |lru|
  {
    var pinned, branch, all := HashesIn(p, lo, hi), HashesIn(q, n, |q|), set k | k in lru;
    assert pinned !! branch;
    CardMonotone(pinned + branch, all);
    NoDupCard(lru);
  }

  /** A stretch of the main chain and the branch, all cached, are no more than the cache holds. */
  lemma PathsFit(lru: seq<Hash>, known: map<Hash, Block>, tip: Hash, keep: Hash, lo: nat, hi: nat)
    requires Linked(known) && tip in known && keep in known && NoDup(lru) && lo <= hi <= |Path(known, tip)|
    requires forall i :: lo <= i < hi ==> Path(known, tip)[i].hash in lru
    requires forall j :: ForkAt(known, tip, keep) <= j < |Path(known, keep)| ==> Path(known, keep)[j].hash in lru
    ensures (hi - lo) + (|Path(known, keep)| - ForkAt(known, tip, keep)) <= |lru|
  {
    var p, q, n := Path(known, tip), Path(known, keep), ForkAt(known, tip, keep);
    BranchApart(known, tip, keep);
    TogetherFit(lru, p, q, n, lo, hi);
    HashCount(known, keep, n, |q|);
    HashCount(known, tip, lo, hi);
  }

  /** Whatever else is cached, a branch longer than the cache has pushed its last block out. */
  lemma TooLong(v: View, known: map<Hash, Block>, tip: Hash, keep: Hash, cap: nat)
    requires Linked(known) && tip in known && keep in known && v.Shape() && |v.lru| <= cap
    requires var q, n := Path(known, keep), ForkAt(known, tip, keep);
      n < |q| && Crowded(v, keep, HashesIn(q, n, |q| - 1)) && |q| - n > cap
    ensures keep !in v.lru
  {
    if keep in v.lru {
      TipOnPath(known, keep);
      BranchStays(v, keep, Path(known, keep), ForkAt(known, tip, keep));
      PathsFit(v.lru, known, tip, keep, 0, 0);
    }
  }

  /** Pinned blocks, branch and new tip together are more than the cache holds, so the new tip,
      used least recently of the unpinned ones, is gone. */
  lemma TooMany(v: View, pins: Pins, known: map<Hash, Block>, tip: Hash, keep: Hash, cap: nat)
    requires Linked(known) && tip in known && keep in known && v.Shape() && |v.lru| <= cap
    requires WindowOf(v, pins) && Indexes(pins, known, tip)
    requires var q, n := Path(known, keep), ForkAt(known, tip, keep);
      n < |q| && Crowded(v, keep, HashesIn(q, n, |q| - 1)) && |q| - n + pins.Room() > cap
    ensures keep !in v.lru
  {
    if keep in v.lru {
      TipOnPath(known, keep);
      AllCached(v, pins, Path(known, tip), Path(known, keep), ForkAt(known, tip, keep));
      PathsFit(v.lru, known, tip, keep, pins.Low(), pins.height + 1);
    }
  }

  lemma WindowLeaves(v0: View, v: View, pins: Pins, known: map<Hash, Block>, tip: Hash, keep: Hash, cap: nat)
    requires Linked(known) && tip in known && keep in known && v.Shape() && Agrees(v0, known) && Agrees(v, known)
    requires PinsKept(v0, v, pins) && Indexes(pins, known, tip) && WindowOf(v0, pins) && |v.lru| <= cap
    requires var q, n := Path(known, keep), ForkAt(known, tip, keep);
      n < |q| && Crowded(v, keep, HashesIn(q, n, |q| - 1)) && |q| - n + pins.Room() > cap
    ensures keep !in v.lru
  {
    WindowKept(v0, v, pins, known);
    TooMany(v, pins, known, tip, keep, cap);
  }

  lemma BranchLeft(v: View, known: map<Hash, Block>, keep: Hash, n: nat)
    requires Linked(known) && keep in known && v.Shape() && keep in v.lru && keep in v.blocks
    requires var q := Path(known, keep); n < |q| && Crowded(v, keep, HashesIn(q, n, |q| - 1))
    ensures BranchCached(v, Path(known, keep), n)
  {
    TipOnPath(known, keep);
    BranchStays(v, keep, Path(known, keep), n);
  }

  /** What the walk down the branch leaves in the cache. */
  lemma WalkLeaves(v0: View, v: View, pins: Pins, known: map<Hash, Block>, tip: Hash, keep: Hash, cap: nat)
    requires Linked(known) && tip in known && keep in known && v.Shape() && Agrees(v0, known) && Agrees(v, known)
    requires PinsKept(v0, v, pins) && Indexes(pins, known, tip)
    requires var q, n := Path(known, keep), ForkAt(known, tip, keep); n < |q| && Crowded(v, keep, HashesIn(q, n, |q| - 1))
    ensures |v.lru| <= cap && |Path(known, keep)| - ForkAt(known, tip, keep) > cap ==> keep !in v.lru
    ensures WindowOf(v0, pins) && |v.lru| <= cap && |Path(known, keep)| - ForkAt(known, tip, keep) + pins.Room() > cap ==> keep !in v.lru
    ensures keep in v.lru && keep in v.blocks ==> BranchCached(v, Path(known, keep), ForkAt(known, tip, keep))
  {
    var size := |Path(known, keep)| - ForkAt(known, tip, keep);
    if |v.lru| <= cap && size > cap { TooLong(v, known, tip, keep, cap); }
    if WindowOf(v0, pins) && |v.lru| <= cap && size + pins.Room() > cap { WindowLeaves(v0, v, pins, known, tip, keep, cap); }
    if keep in v.lru && keep in v.blocks { BranchLeft(v, known, keep, ForkAt(known, tip, keep)); }
  }
}
