/** The abstract chain: the set of stored blocks and the tip. Every consensus property of
    the node is stated here; class Chain (Chain.dfy) is proved to take exactly these steps. */
module ChainModel {
  import opened Words
  import opened Seqs
  import opened Blocks
  import opened Lwma

  const MAX_REORG_DEPTH := 100

  // ---------------------------------------------------------------- stored blocks and paths

  ghost predicate LinkedAt(bs: map<Hash, Block>, h: Hash)
    requires h in bs
  {
    bs[h].hash == h &&
    (bs[h].height > 0 ==> bs[h].prev in bs && bs[bs[h].prev].height + 1 == bs[h].height)
  }

  /** Every stored block is filed under its hash and has its parent stored one height below. */
  ghost predicate Linked(bs: map<Hash, Block>) {
    forall h {:trigger LinkedAt(bs, h)} :: h in bs ==> LinkedAt(bs, h)
  }

  ghost predicate LinkAt(p: seq<Block>, i: nat)
    requires i < |p|
  {
    p[i].height == i && (i > 0 ==> p[i].prev == p[i - 1].hash)
  }

  /** A hash-linked list starting at height 0. */
  ghost predicate IsChain(p: seq<Block>) {
    forall i: nat {:trigger LinkAt(p, i)} :: i < |p| ==> LinkAt(p, i)
  }

  ghost predicate AllStored(bs: map<Hash, Block>, p: seq<Block>) {
    forall i :: 0 <= i < |p| ==> p[i].hash in bs && bs[p[i].hash] == p[i]
  }

  /** The blocks from height 0 up to the stored block h. */
  ghost function Path(bs: map<Hash, Block>, h: Hash): (p: seq<Block>)
    requires Linked(bs) && h in bs
    ensures |p| == bs[h].height + 1 && p[|p| - 1] == bs[h]
    decreases bs[h].height
  {
    assert LinkedAt(bs, h);
    if bs[h].height == 0 then [bs[h]] else Path(bs, bs[h].prev) + [bs[h]]
  }

  /** A path is a hash-linked list of stored blocks. */
  lemma {:induction false} PathIsChain(bs: map<Hash, Block>, h: Hash)
    requires Linked(bs) && h in bs
    ensures IsChain(Path(bs, h)) && AllStored(bs, Path(bs, h))
    decreases bs[h].height
  {
    var p := Path(bs, h);
    assert LinkedAt(bs, h);
    if bs[h].height > 0 {
      var q := Path(bs, bs[h].prev);
      assert p == q + [bs[h]];
      PathIsChain(bs, bs[h].prev);
      assert q[|q| - 1].hash == bs[h].prev by { assert LinkedAt(bs, bs[h].prev); }
      forall i: nat | i < |p| ensures LinkAt(p, i) { if i < |q| { assert LinkAt(q, i); } }
    }
  }

  lemma {:induction false} PathPrefix(bs: map<Hash, Block>, h: Hash, i: nat)
    requires Linked(bs) && h in bs && i <= bs[h].height
    ensures Path(bs, h)[i].hash in bs
    ensures Path(bs, Path(bs, h)[i].hash) == Path(bs, h)[..i + 1]
    decreases bs[h].height
  {
    var p := Path(bs, h);
    assert LinkedAt(bs, h);
    if i == bs[h].height {
      assert p[..i + 1] == p;
    } else {
      var q := Path(bs, bs[h].prev);
      assert p == q + [bs[h]];
      assert p[..i + 1] == q[..i + 1] && p[i] == q[i];
      PathPrefix(bs, bs[h].prev, i);
    }
  }

  /** Paths do not change when another block is stored. */
  lemma {:induction false} PathExtend(bs: map<Hash, Block>, bs': map<Hash, Block>, h: Hash)
    requires Linked(bs) && Linked(bs') && h in bs
    requires forall k :: k in bs ==> k in bs' && bs'[k] == bs[k]
    ensures Path(bs', h) == Path(bs, h)
    decreases bs[h].height
  {
    assert LinkedAt(bs, h);
    if bs[h].height > 0 { PathExtend(bs, bs', bs[h].prev); }
  }

  /** A hash-linked list of stored blocks is the path to its last block. */
  lemma {:induction false} PathUnique(bs: map<Hash, Block>, p: seq<Block>)
    requires Linked(bs) && p != [] && IsChain(p) && AllStored(bs, p)
    ensures Path(bs, p[|p| - 1].hash) == p
  {
    var h := p[|p| - 1].hash;
    assert LinkedAt(bs, h) && LinkAt(p, |p| - 1);
    if |p| > 1 {
      var q := p[..|p| - 1];
      assert p == q + [p[|p| - 1]];
      assert forall i: nat :: i < |q| ==> LinkAt(p, i) ==> LinkAt(q, i);
      PathUnique(bs, q);
    }
  }

  /** Two paths that agree at one height agree at every height below it. */
  lemma PathsAgreeBelow(bs: map<Hash, Block>, a: Hash, b: Hash, i: nat)
    requires Linked(bs) && a in bs && b in bs
    requires i <= bs[a].height && i <= bs[b].height
    requires Path(bs, a)[i].hash == Path(bs, b)[i].hash
    ensures Path(bs, a)[..i + 1] == Path(bs, b)[..i + 1]
  {
    PathPrefix(bs, a, i);
    PathPrefix(bs, b, i);
  }

  // ---------------------------------------------------------------- consensus rules on a path

  /** Block b obeys the rules on top of the path q: coinbase placement, the difficulty and
      time rules, and no key image spent twice. */
  ghost predicate FollowsRules(q: seq<Block>, b: Block) {
    && (q != [] ==> b.difficulty == ExpectedDifficulty(q) && q[|q| - 1].timestamp < b.timestamp && CoinbaseFirst(b.txs))
    && b.difficulty >= MIN_DIFFICULTY
    && NoDup(b.Images()) && Disjoint(b.Images(), ChainImages(q))
  }

  /** ... and the cumulative work still fits 64 bits. */
  ghost predicate MayFollow(q: seq<Block>, b: Block) {
    FollowsRules(q, b) && Work(q) + b.difficulty < U64_LIMIT
  }

  ghost predicate RulesAt(p: seq<Block>, i: nat)
    requires i < |p|
  {
    MayFollow(p[..i], p[i])
  }

  /** Every block of the path follows the ones before it by the rules. */
  ghost predicate GoodPath(p: seq<Block>) {
    forall i: nat {:trigger RulesAt(p, i)} :: i < |p| ==> RulesAt(p, i)
  }

  /** The stored block h and all its ancestors follow the rules. */
  ghost predicate GoodBlock(bs: map<Hash, Block>, h: Hash)
    requires Linked(bs) && h in bs
  {
    GoodPath(Path(bs, h))
  }

  ghost predicate GoodStore(bs: map<Hash, Block>) {
    Linked(bs) && forall h {:trigger GoodBlock(bs, h)} :: h in bs ==> GoodBlock(bs, h)
  }

  lemma GoodPrefix(p: seq<Block>, n: nat)
    requires GoodPath(p) && n <= |p|
    ensures GoodPath(p[..n])
  {
    forall i: nat | i < n ensures RulesAt(p[..n], i) {
      assert RulesAt(p, i);
      assert p[..n][..i] == p[..i];
    }
  }

  lemma GoodExtend(q: seq<Block>, b: Block)
    requires GoodPath(q) && MayFollow(q, b)
    ensures GoodPath(q + [b])
  {
    var p := q + [b];
    forall i: nat | i < |p| ensures RulesAt(p, i) {
      assert p[..i] == q[..i];
      if i < |q| { assert RulesAt(q, i); } else { assert p[..i] == q; }
    }
  }

  /** The rules hold at every height of a good path. */
  lemma GoodAt(p: seq<Block>, i: nat)
    requires GoodPath(p) && i < |p|
    ensures MayFollow(p[..i], p[i])
  {
    assert RulesAt(p, i);
  }

  /** No key image occurs twice on a good path. */
  lemma {:induction false} GoodPathNoDup(p: seq<Block>)
    requires GoodPath(p)
    ensures NoDup(ChainImages(p))
  {
    if p != [] {
      GoodPrefix(p, |p| - 1);
      GoodPathNoDup(p[..|p| - 1]);
      GoodAt(p, |p| - 1);
      NoDupConcat(ChainImages(p[..|p| - 1]), p[|p| - 1].Images());
    }
  }

  /** Timestamps strictly increase along a good path. */
  lemma {:induction false} GoodPathTimes(p: seq<Block>, i: nat, j: nat)
    requires GoodPath(p) && i < j < |p|
    ensures p[i].timestamp < p[j].timestamp
  {
    GoodAt(p, j);
    if i < j - 1 { GoodPathTimes(p, i, j - 1); }
  }

  lemma GoodPathWork(p: seq<Block>)
    requires GoodPath(p)
    ensures Work(p) < U64_LIMIT
  {
    if p != [] { GoodAt(p, |p| - 1); }
  }

  // ---------------------------------------------------------------- states and steps

  datatype State = State(blocks: map<Hash, Block>, tip: Hash)

  ghost predicate Inv(s: State) {
    GoodStore(s.blocks) && s.tip in s.blocks
  }

  /** The main chain, genesis first. */
  ghost function Main(s: State): seq<Block>
    requires Inv(s)
  {
    Path(s.blocks, s.tip)
  }

  ghost function Height(s: State): nat
    requires Inv(s)
  {
    s.blocks[s.tip].height
  }

  lemma MainGood(s: State)
    requires Inv(s)
    ensures GoodPath(Main(s))
  {
    assert GoodBlock(s.blocks, s.tip);
  }

  /** The key images spent on the main chain. */
  ghost function Spent(s: State): set<KeyImage>
    requires Inv(s)
  {
    set x | x in ChainImages(Main(s))
  }

  /** What a block of height 0 must look like. */
  predicate Bare(b: Block) {
    b.txs == [] && b.difficulty == MIN_DIFFICULTY
  }

  /** The block has a stored parent one height below, or is a bare block of height 0. */
  ghost predicate Attached(s: State, b: Block) {
    if b.height == 0 then Bare(b)
    else b.prev in s.blocks && b.height == s.blocks[b.prev].height + 1
  }

  /** The path to the parent of b; empty for a block of height 0. */
  ghost function ParentPath(s: State, b: Block): seq<Block>
    requires Inv(s) && Attached(s, b)
  {
    if b.height == 0 then [] else Path(s.blocks, b.prev)
  }

  /** What validation demands of a new block. A key image is refused when the block's own
      branch spends it, and also when the current main chain does. */
  ghost predicate Validated(s: State, b: Block)
    requires Inv(s)
  {
    && Attached(s, b)
    && FollowsRules(ParentPath(s, b), b)
    && Disjoint(b.Images(), ChainImages(Main(s)))
  }

  ghost predicate Admissible(s: State, b: Block)
    requires Inv(s)
  {
    b.hash !in s.blocks && Validated(s, b) && Work(ParentPath(s, b)) + b.difficulty < U64_LIMIT
  }

  /** Some block of p spends x. */
  ghost predicate SpentOn(p: seq<Block>, x: KeyImage) {
    exists k :: 0 <= k < |p| && x in p[k].Images()
  }

  lemma SpentOnIs(p: seq<Block>, x: KeyImage)
    ensures x in ChainImages(p) <==> SpentOn(p, x)
  {
    if x in ChainImages(p) {
      var k := ChainImageHasBlock(p, x);
      assert x in p[k].Images();
    }
    if k :| 0 <= k < |p| && x in p[k].Images() { BlockImagesInChain(p, k, x); }
  }

  /** Block b may follow the path q on top of the main chain p. */
  ghost predicate InOrderAfter(p: seq<Block>, q: seq<Block>, b: Block)
    requires q != []
  {
    && b.difficulty == ExpectedDifficulty(q) && b.timestamp > q[|q| - 1].timestamp && Work(q) + b.difficulty < U64_LIMIT
    && b.txs != [] && (forall i :: 0 <= i < |b.txs| ==> (b.txs[i].images == [] <==> i == 0))
    && Pairwise(b.Images()) && (forall x :: x in b.Images() ==> !SpentOn(q, x) && !SpentOn(p, x))
  }

  lemma FollowsInOrder(p: seq<Block>, q: seq<Block>, b: Block)
    requires q != []
    ensures InOrderAfter(p, q, b) <==>
      FollowsRules(q, b) && Disjoint(b.Images(), ChainImages(p)) && Work(q) + b.difficulty < U64_LIMIT
  {
    NoDupPairs(b.Images());
    forall x ensures (x in ChainImages(q) <==> SpentOn(q, x)) && (x in ChainImages(p) <==> SpentOn(p, x)) {
      SpentOnIs(q, x);
      SpentOnIs(p, x);
    }
    assert ExpectedDifficulty(q) >= MIN_DIFFICULTY;
  }

  /** Which blocks are admissible, rule by rule. */
  lemma AdmissibleExactly(s: State, b: Block)
    requires Inv(s)
    ensures Admissible(s, b) <==>
      && b.hash !in s.blocks
      && if b.height == 0 then b.txs == [] && b.difficulty == 4
         else b.prev in s.blocks && b.height == s.blocks[b.prev].height + 1 && InOrderAfter(Main(s), Path(s.blocks, b.prev), b)
  {
    if b.height > 0 && b.prev in s.blocks { FollowsInOrder(Main(s), Path(s.blocks, b.prev), b); }
    if b.height == 0 && b.txs == [] { assert b.Images() == []; }
  }

  /** The path the block would complete. */
  ghost function NewPath(s: State, b: Block): (q: seq<Block>)
    requires Inv(s) && Attached(s, b)
  {
    ParentPath(s, b) + [b]
  }

  ghost function WithBlock(s: State, b: Block): map<Hash, Block> {
    s.blocks[b.hash := b]
  }

  /** The block is new, its parent is stored, and storing it keeps every path good. */
  ghost predicate Joins(s: State, b: Block)
    requires Inv(s)
  {
    b.hash !in s.blocks && Attached(s, b) && GoodStore(WithBlock(s, b))
  }

  lemma StoreLinked(s: State, b: Block)
    requires Inv(s) && b.hash !in s.blocks && Attached(s, b)
    ensures Linked(WithBlock(s, b))
  {
    var bs' := WithBlock(s, b);
    forall h | h in bs' ensures LinkedAt(bs', h) {
      if h != b.hash { assert LinkedAt(s.blocks, h); }
    }
  }

  /** Storing a new block changes no path and adds exactly one. */
  lemma JoinPaths(s: State, b: Block)
    requires Inv(s) && b.hash !in s.blocks && Attached(s, b)
    ensures Linked(WithBlock(s, b))
    ensures Path(WithBlock(s, b), b.hash) == NewPath(s, b)
    ensures forall h :: h in s.blocks ==> Path(WithBlock(s, b), h) == Path(s.blocks, h)
  {
    var bs' := WithBlock(s, b);
    StoreLinked(s, b);
    forall h | h in s.blocks ensures Path(bs', h) == Path(s.blocks, h) { PathExtend(s.blocks, bs', h); }
  }

  lemma JoinKeepsTip(s: State, b: Block)
    requires Inv(s) && Joins(s, b)
    ensures Inv(State(WithBlock(s, b), s.tip)) && Main(State(WithBlock(s, b), s.tip)) == Main(s)
  {
    JoinPaths(s, b);
  }

  lemma AdmissiblePathGood(s: State, b: Block)
    requires Inv(s) && Admissible(s, b)
    ensures GoodPath(NewPath(s, b))
  {
    assert b.height > 0 ==> GoodBlock(s.blocks, b.prev);
    GoodExtend(ParentPath(s, b), b);
  }

  /** Storing an admissible block keeps every stored path good and adds exactly one path. */
  lemma AdmitGood(s: State, b: Block)
    requires Inv(s) && Admissible(s, b)
    ensures Joins(s, b)
    ensures Path(WithBlock(s, b), b.hash) == NewPath(s, b)
    ensures forall h :: h in s.blocks ==> Path(WithBlock(s, b), h) == Path(s.blocks, h)
  {
    var bs' := WithBlock(s, b);
    JoinPaths(s, b);
    AdmissiblePathGood(s, b);
    forall h | h in bs' ensures GoodBlock(bs', h) { assert h in s.blocks ==> GoodBlock(s.blocks, h); }
  }

  /** A chain of one bare block satisfies the invariant, and its tip is the heaviest block. */
  lemma FoundedInv(g: Block)
    requires g.height == 0 && Bare(g)
    ensures var s := State(map[g.hash := g], g.hash);
      && Inv(s) && Main(s) == [g] && Height(s) == 0 && Heaviest(s)
  {
    var s := State(map[g.hash := g], g.hash);
    assert forall h :: h in s.blocks ==> LinkedAt(s.blocks, h);
    assert Path(s.blocks, g.hash) == [g];
    assert [g][..0] == [] && g.Images() == [];
    GoodExtend([], g);
    assert [] + [g] == [g];
    assert forall h :: h in s.blocks ==> GoodBlock(s.blocks, h);
  }

  datatype Event = Refuse | Side(b: Block) | Adopt(b: Block) | Truncate(keep: nat)

  /** How many blocks the main chain and the candidate path share. */
  ghost function Shared(s: State, b: Block): nat
    requires Inv(s) && Attached(s, b)
  {
    CommonLength(Main(s), NewPath(s, b))
  }

  ghost predicate FinalityAllows(s: State, b: Block)
    requires Inv(s) && Attached(s, b)
  {
    Shared(s, b) >= 1 && Shared(s, b) - 1 + MAX_REORG_DEPTH >= Height(s)
  }

  /** Finality in numbers: at most 100 blocks may come off. */
  lemma FinalityIs(s: State, b: Block)
    requires Inv(s) && Attached(s, b)
    ensures FinalityAllows(s, b) <==> Shared(s, b) >= 1 && |Main(s)| - Shared(s, b) <= 100
  {
  }

  /** The steps of the chain. */
  ghost predicate Next(s: State, e: Event, s': State)
    requires Inv(s)
  {
    match e
    case Refuse => s' == s
    case Side(b) =>
      Admissible(s, b) && Work(NewPath(s, b)) <= Work(Main(s)) && s' == State(WithBlock(s, b), s.tip)
    case Adopt(b) =>
      && Admissible(s, b) && Work(NewPath(s, b)) > Work(Main(s)) && FinalityAllows(s, b)
      && s' == State(WithBlock(s, b), b.hash)
    case Truncate(k) => k < Height(s) && s' == s.(tip := Main(s)[k].hash)
  }

  /** Every step keeps the invariant, and says what the new main chain is. */
  lemma NextInv(s: State, e: Event, s': State)
    requires Inv(s) && Next(s, e, s')
    ensures Inv(s')
    ensures Main(s') == match e
      case Refuse => Main(s)
      case Side(b) => Main(s)
      case Adopt(b) => NewPath(s, b)
      case Truncate(k) => Main(s)[..k + 1]
  {
    match e
    case Refuse =>
    case Side(b) => AdmitGood(s, b);
    case Adopt(b) => AdmitGood(s, b);
    case Truncate(k) => PathPrefix(s.blocks, s.tip, k);
  }

  // ---------------------------------------------------------------- runs

  ghost predicate StepAt(ss: seq<State>, es: seq<Event>, i: nat)
    requires i < |es| && |ss| == |es| + 1
  {
    Inv(ss[i]) ==> Next(ss[i], es[i], ss[i + 1])
  }

  /** A run: a good first state, and steps from there on. That the other states are good is
      for RunInv to show. */
  ghost predicate Run(ss: seq<State>, es: seq<Event>) {
    && |ss| == |es| + 1 && Inv(ss[0])
    && forall i: nat {:trigger StepAt(ss, es, i)} :: i < |es| ==> StepAt(ss, es, i)
  }

  lemma {:induction false} RunInv(ss: seq<State>, es: seq<Event>, i: nat)
    requires Run(ss, es) && i < |ss|
    ensures Inv(ss[i])
  {
    if i > 0 {
      RunInv(ss, es, i - 1);
      assert StepAt(ss, es, i - 1);
      NextInv(ss[i - 1], es[i - 1], ss[i]);
    }
  }

  /** No branch ever spends a key image twice, on any run, for any stored block. */
  lemma NoDoubleSpendOnAnyRun(ss: seq<State>, es: seq<Event>, i: nat, h: Hash)
    requires Run(ss, es) && i < |ss| && h in ss[i].blocks
    ensures Inv(ss[i]) && NoDup(ChainImages(Path(ss[i].blocks, h)))
  {
    RunInv(ss, es, i);
    assert GoodBlock(ss[i].blocks, h);
    GoodPathNoDup(Path(ss[i].blocks, h));
  }

  ghost predicate Truncation(e: Event) { e.Truncate? }

  /** No stored block is heavier than the tip. */
  ghost predicate Heaviest(s: State)
    requires Inv(s)
  {
    forall h {:trigger Path(s.blocks, h)} :: h in s.blocks ==> Work(Path(s.blocks, h)) <= Work(Main(s))
  }

  lemma NextHeaviest(s: State, e: Event, s': State)
    requires Inv(s) && Next(s, e, s') && !e.Truncate? && Heaviest(s)
    ensures Inv(s') && Heaviest(s')
    ensures s'.tip != s.tip ==> Work(Main(s')) > Work(Main(s))
    ensures s'.tip == s.tip ==> Main(s') == Main(s)
  {
    NextInv(s, e, s');
    if !e.Refuse? {
      AdmitGood(s, e.b);
      forall h | h in s'.blocks ensures Work(Path(s'.blocks, h)) <= Work(Main(s')) {
        if h == e.b.hash {
          assert Path(s'.blocks, h) == NewPath(s, e.b);
        } else {
          assert Path(s'.blocks, h) == Path(s.blocks, h);
        }
      }
    }
  }

  /** On every run without truncation the tip is the heaviest stored block, work never
      falls, and it strictly rises whenever the tip changes. */
  lemma {:induction false} HeaviestOnRuns(ss: seq<State>, es: seq<Event>, i: nat, j: nat)
    requires Run(ss, es) && i <= j < |ss|
    requires Heaviest(ss[0])
    requires forall k :: 0 <= k < |es| ==> !Truncation(es[k])
    ensures Inv(ss[i]) && Inv(ss[j]) && Heaviest(ss[i]) && Heaviest(ss[j])
    ensures Work(Main(ss[i])) <= Work(Main(ss[j]))
    ensures ss[i].tip != ss[j].tip ==> Work(Main(ss[i])) < Work(Main(ss[j]))
    decreases j
  {
    if j > 0 {
      assert !Truncation(es[j - 1]);
      HeaviestOnRuns(ss, es, if i < j then i else i - 1, j - 1);
      assert StepAt(ss, es, j - 1);
      NextHeaviest(ss[j - 1], es[j - 1], ss[j]);
    }
  }

  // ---------------------------------------------------------------- finality

  ghost predicate IsFinalized(s: State, h: nat)
    requires Inv(s)
  {
    h <= Height(s) && Height(s) - h >= MAX_REORG_DEPTH
  }

  lemma ShallowFork(s: State, e: Event, s': State)
    requires Inv(s) && Next(s, e, s') && !e.Truncate?
    ensures Inv(s') && |Main(s)| - CommonLength(Main(s), Main(s')) <= MAX_REORG_DEPTH
  {
    NextInv(s, e, s');
    if !e.Adopt? { CommonAtLeast(Main(s), Main(s), |Main(s)|); }
  }

  lemma CommonAt<T>(p: seq<T>, q: seq<T>, i: nat)
    requires i < CommonLength(p, q)
    ensures i < |q| && q[i] == p[i]
  {
    var n := CommonLength(p, q);
    assert p[..n][i] == q[..n][i];
  }

  /** One step disconnects at most MAX_REORG_DEPTH blocks and no finalised block. */
  lemma FinalityStep(s: State, e: Event, s': State)
    requires Inv(s) && Next(s, e, s') && !e.Truncate?
    ensures Inv(s')
    ensures |Main(s)| - CommonLength(Main(s), Main(s')) <= MAX_REORG_DEPTH
    ensures forall h: nat :: IsFinalized(s, h) ==> h < |Main(s')| && Main(s')[h] == Main(s)[h]
  {
    ShallowFork(s, e, s');
    forall h: nat | IsFinalized(s, h) ensures h < |Main(s')| && Main(s')[h] == Main(s)[h] { CommonAt(Main(s), Main(s'), h); }
  }

  ghost predicate NeverFalls(ss: seq<State>) {
    forall k :: 0 < k < |ss| && Inv(ss[k - 1]) && Inv(ss[k]) ==> Height(ss[k - 1]) <= Height(ss[k])
  }

  /** A finalised block stays for ever on every run whose tip height never falls. */
  lemma {:induction false} FinalityOnRuns(ss: seq<State>, es: seq<Event>, h: nat, j: nat)
    requires Run(ss, es) && j < |ss|
    requires forall k :: 0 <= k < |es| ==> !Truncation(es[k])
    requires NeverFalls(ss) && IsFinalized(ss[0], h)
    ensures Inv(ss[j]) && IsFinalized(ss[j], h) && Main(ss[j])[h] == Main(ss[0])[h]
  {
    if j > 0 {
      assert !Truncation(es[j - 1]);
      FinalityOnRuns(ss, es, h, j - 1);
      assert StepAt(ss, es, j - 1);
      FinalityStep(ss[j - 1], es[j - 1], ss[j]);
    }
  }

  // ---------------------------------------------------------------- truncation

  /** Truncation forgets no block: every removed block is afterwards refused as already
      known, and the first block on top of the old tip that the chain adopts brings the
      whole removed part back. */
  lemma TruncationHeals(s: State, keep: nat, s1: State, b: Block, s2: State)
    requires Inv(s) && Next(s, Truncate(keep), s1)
    requires b.height > 0 && b.prev == s.tip
    requires Inv(s1) && Next(s1, Adopt(b), s2)
    ensures forall x: Block :: x in Main(s) ==> !Admissible(s1, x)
    ensures Inv(s2) && Main(s2) == Main(s) + [b]
  {
    NextInv(s1, Adopt(b), s2);
    PathIsChain(s.blocks, s.tip);
    assert ParentPath(s1, b) == Main(s);
  }
}
