/** A heavier branch that finality allows and the cache does not: two branches of equal
    difficulty from the same bare block, reached step by step from it. */
module Crowding {
  import opened Seqs
  import opened Blocks
  import opened Lwma
  import opened ChainModel
  import opened Cache
  import opened Adoption

  const TALLEST: nat := 1_000_000
  const IMAGE: KeyImage := 7

  /** The one transaction with an input, in the first block of the first branch. */
  const SPENDER: Tx := Tx(0, [IMAGE])

  /** Hashes beyond TALLEST lie on the second branch; both start at hash 0. */
  function HashAt(side: bool, i: nat): Hash {
    if i > 0 && side then TALLEST + i else i
  }

  /** The block of height i on one of the branches, mined on target at the minimum difficulty. */
  function BlockAt(side: bool, i: nat): Block
    requires i <= TALLEST
  {
    Block(HashAt(side, i), if i == 0 then 0 else HashAt(side, i - 1), i, 300 * i, MIN_DIFFICULTY,
          if i == 0 then [] else if i == 1 && !side then [Tx(i, []), SPENDER] else [Tx(i, [])])
  }

  function Line(side: bool, n: nat): (p: seq<Block>)
    requires n <= TALLEST + 1
    ensures |p| == n
  {
    seq(n, i requires 0 <= i < n => BlockAt(side, i))
  }

  lemma LineStep(side: bool, n: nat)
    requires n <= TALLEST
    ensures Line(side, n + 1) == Line(side, n) + [BlockAt(side, n)]
    ensures Line(side, n + 1)[..n] == Line(side, n)
  {
  }

  lemma ImagesAt(side: bool, i: nat)
    requires i <= TALLEST
    ensures BlockAt(side, i).Images() == if i == 1 && !side then [IMAGE] else []
  {
    if i > 0 {
      assert [Tx(i, [])][..0] == [] && TxImages([Tx(i, [])]) == TxImages([]) + [];
      assert [Tx(i, []), SPENDER][..1] == [Tx(i, [])];
    }
  }

  lemma {:induction false} LineSums(side: bool, n: nat)
    requires n <= TALLEST + 1
    ensures ChainImages(Line(side, n)) == (if n >= 2 && !side then [IMAGE] else []) && Work(Line(side, n)) == 4 * n
  {
    if n > 0 {
      LineSums(side, n - 1);
      LineStep(side, n - 1);
      ImagesAt(side, n - 1);
    }
  }

  /** Sixty on-target blocks of the minimum difficulty repeat it. */
  lemma OnTarget(w: seq<Block>)
    requires |w| == LWMA_WINDOW + 1
    requires forall i :: 1 <= i <= LWMA_WINDOW ==> Gap(w, i) == 300
    requires forall i :: 1 <= i <= LWMA_WINDOW ==> w[i].difficulty == MIN_DIFFICULTY
    ensures Lwma.Lwma(w, LWMA_WINDOW) == MIN_DIFFICULTY
  {
    DifficultySumConstant(w, LWMA_WINDOW, MIN_DIFFICULTY);
    RetargetBounds(w);
  }

  lemma GapAt(side: bool, n: nat, w: seq<Block>, i: nat)
    requires LWMA_WINDOW < n <= TALLEST && 1 <= i <= LWMA_WINDOW && w == Line(side, n)[n - LWMA_WINDOW - 1..]
    ensures Gap(w, i) == 300
  {
    assert w[i] == BlockAt(side, n - LWMA_WINDOW - 1 + i) && w[i - 1] == BlockAt(side, n - LWMA_WINDOW - 2 + i);
  }

  lemma LastWindow(p: seq<Block>, w: seq<Block>)
    requires |p| > LWMA_WINDOW && w == p[|p| - LWMA_WINDOW - 1..]
    ensures Lwma.Lwma(p, |p| - 1) == Lwma.Lwma(w, LWMA_WINDOW)
  {
    var base := |p| - LWMA_WINDOW - 1;
    assert forall j :: base <= j <= |p| - 1 ==> p[j] == w[j - base];
    LwmaShift(p, |p| - 1, w, LWMA_WINDOW);
  }

  lemma LineDifficulty(side: bool, n: nat)
    requires 1 <= n <= TALLEST
    ensures ExpectedDifficulty(Line(side, n)) == MIN_DIFFICULTY
  {
    if n > LWMA_WINDOW {
      var w := Line(side, n)[n - LWMA_WINDOW - 1..];
      LastWindow(Line(side, n), w);
      forall i: nat | 1 <= i <= LWMA_WINDOW ensures Gap(w, i) == 300 { GapAt(side, n, w, i); }
      OnTarget(w);
    }
  }

  lemma OwnImages(side: bool, n: nat)
    requires 1 <= n <= TALLEST
    ensures NoDup(BlockAt(side, n).Images()) && Disjoint(BlockAt(side, n).Images(), ChainImages(Line(side, n)))
  {
    ImagesAt(side, n);
    LineSums(side, n);
  }

  lemma CoinbaseAt(side: bool, n: nat)
    requires 1 <= n <= TALLEST
    ensures CoinbaseFirst(BlockAt(side, n).txs)
  {
  }

  lemma LineFollows(side: bool, n: nat)
    requires 1 <= n <= TALLEST
    ensures MayFollow(Line(side, n), BlockAt(side, n))
  {
    OwnImages(side, n);
    CoinbaseAt(side, n);
    LineSums(side, n);
    LineDifficulty(side, n);
    assert Line(side, n)[n - 1] == BlockAt(side, n - 1);
  }

  /** The first branch up to height n and the second up to height m are stored. */
  ghost function Stored(n: nat, m: nat): map<Hash, Block>
    requires n <= TALLEST && m <= TALLEST
  {
    if m > 0 then Stored(n, m - 1)[HashAt(true, m) := BlockAt(true, m)]
    else if n > 0 then Stored(n - 1, 0)[HashAt(false, n) := BlockAt(false, n)]
    else map[0 := BlockAt(false, 0)]
  }

  ghost function Forked(n: nat, m: nat): State
    requires n <= TALLEST && m <= TALLEST
  {
    State(Stored(n, m), HashAt(false, n))
  }

  lemma {:induction false} StoredHashes(n: nat, m: nat)
    requires n <= TALLEST && m <= TALLEST
    ensures forall h :: h in Stored(n, m) ==> h <= n || TALLEST < h <= TALLEST + m
    ensures HashAt(true, m) in Stored(n, m) && Stored(n, m)[HashAt(true, m)] == BlockAt(true, m)
  {
    if m > 0 { StoredHashes(n, m - 1); } else if n > 0 { StoredHashes(n - 1, 0); }
  }

  /** What is known of the state with branches of heights n and m. */
  ghost predicate Laid(n: nat, m: nat)
    requires n <= TALLEST && m <= TALLEST
  {
    var s := Forked(n, m);
    && Inv(s) && Main(s) == Line(false, n + 1)
    && HashAt(true, m) in s.blocks && Path(s.blocks, HashAt(true, m)) == Line(true, m + 1)
  }

  lemma FreshImages(side: bool, i: nat, n: nat)
    requires 1 <= i <= TALLEST && n <= TALLEST + 1 && (side || i != 1 || n == 1)
    ensures Disjoint(BlockAt(side, i).Images(), ChainImages(Line(false, n)))
  {
    ImagesAt(side, i);
    LineSums(false, n);
  }

  /** The next block of a branch is admissible wherever its parent is stored and it is not. */
  lemma NextAdmissible(s: State, side: bool, i: nat, n: nat)
    requires 1 <= i <= TALLEST && 1 <= n <= TALLEST + 1 && (side || i != 1 || n == 1)
    requires Inv(s) && Main(s) == Line(false, n) && BlockAt(side, i).hash !in s.blocks
    requires Attached(s, BlockAt(side, i)) && ParentPath(s, BlockAt(side, i)) == Line(side, i)
    ensures Admissible(s, BlockAt(side, i)) && NewPath(s, BlockAt(side, i)) == Line(side, i + 1)
    ensures Work(NewPath(s, BlockAt(side, i))) == 4 * (i + 1) && Work(Main(s)) == 4 * n
  {
    MayJoin(s, side, i, n);
    LineStep(side, i);
    LineSums(side, i + 1);
    LineSums(false, n);
  }

  lemma MayJoin(s: State, side: bool, i: nat, n: nat)
    requires 1 <= i <= TALLEST && 1 <= n <= TALLEST + 1 && (side || i != 1 || n == 1)
    requires Inv(s) && Main(s) == Line(false, n) && BlockAt(side, i).hash !in s.blocks
    requires Attached(s, BlockAt(side, i)) && ParentPath(s, BlockAt(side, i)) == Line(side, i)
    ensures Admissible(s, BlockAt(side, i))
  {
    LineFollows(side, i);
    FreshImages(side, i, n);
  }

  /** The bottom block is its own path throughout. */
  lemma RootKept(n: nat)
    requires n <= TALLEST && Linked(Stored(n, 0))
    ensures 0 in Stored(n, 0) && Path(Stored(n, 0), 0) == Line(true, 1)
  {
    StoredHashes(n, 0);
    LineStep(true, 0);
  }

  lemma MainAttached(n: nat)
    requires 1 <= n <= TALLEST && Laid(n - 1, 0)
    ensures var s, b := Forked(n - 1, 0), BlockAt(false, n);
      b.hash !in s.blocks && Attached(s, b) && ParentPath(s, b) == Main(s)
  {
    var s := Forked(n - 1, 0);
    StoredHashes(n - 1, 0);
    assert Main(s)[n - 1] == s.blocks[s.tip];
  }

  lemma MainJoins(n: nat)
    requires 1 <= n <= TALLEST && Laid(n - 1, 0)
    ensures var s, b := Forked(n - 1, 0), BlockAt(false, n);
      && Admissible(s, b) && ParentPath(s, b) == Main(s) && NewPath(s, b) == Line(false, n + 1)
      && Work(NewPath(s, b)) > Work(Main(s))
  {
    MainAttached(n);
    NextAdmissible(Forked(n - 1, 0), false, n, n);
  }

  lemma GrowMain(n: nat)
    requires 1 <= n <= TALLEST && Laid(n - 1, 0)
    ensures Laid(n, 0) && Next(Forked(n - 1, 0), Adopt(BlockAt(false, n)), Forked(n, 0))
  {
    MainStep(n);
    NextInv(Forked(n - 1, 0), Adopt(BlockAt(false, n)), Forked(n, 0));
    MainJoins(n);
    RootKept(n);
  }

  lemma MainStep(n: nat)
    requires 1 <= n <= TALLEST && Laid(n - 1, 0)
    ensures Next(Forked(n - 1, 0), Adopt(BlockAt(false, n)), Forked(n, 0))
  {
    var s, b := Forked(n - 1, 0), BlockAt(false, n);
    MainJoins(n);
    AdmitGood(s, b);
    ExtensionFits(s, b, PROTECTED_BACK + MIN_SLACK);
  }

  lemma SideAttached(n: nat, m: nat)
    requires n <= TALLEST && 1 <= m <= TALLEST && Laid(n, m - 1)
    ensures var s, b := Forked(n, m - 1), BlockAt(true, m);
      b.hash !in s.blocks && Attached(s, b) && ParentPath(s, b) == Line(true, m)
  {
    StoredHashes(n, m - 1);
  }

  lemma SideJoins(n: nat, m: nat)
    requires n <= TALLEST && 1 <= m <= TALLEST && Laid(n, m - 1)
    ensures var s, b := Forked(n, m - 1), BlockAt(true, m);
      Admissible(s, b) && NewPath(s, b) == Line(true, m + 1) && Work(NewPath(s, b)) == 4 * (m + 1) && Work(Main(s)) == 4 * (n + 1)
  {
    SideAttached(n, m);
    NextAdmissible(Forked(n, m - 1), true, m, n + 1);
  }

  lemma GrowSide(n: nat, m: nat)
    requires 1 <= m <= n <= TALLEST && Laid(n, m - 1)
    ensures Laid(n, m) && Next(Forked(n, m - 1), Side(BlockAt(true, m)), Forked(n, m))
  {
    var s, b := Forked(n, m - 1), BlockAt(true, m);
    SideJoins(n, m);
    AdmitGood(s, b);
    NextInv(s, Side(b), Forked(n, m));
  }

  /** A run from the bottom block alone to s. */
  ghost predicate RunTo(ss: seq<State>, es: seq<Event>, s: State) {
    Run(ss, es) && ss[0] == Forked(0, 0) && ss[|ss| - 1] == s
  }

  lemma RunOn(ss: seq<State>, es: seq<Event>, s: State, e: Event, s': State) returns (ss': seq<State>, es': seq<Event>)
    requires RunTo(ss, es, s) && Inv(s) && Next(s, e, s')
    ensures RunTo(ss', es', s') && |ss'| == |ss| + 1 && ss'[|ss|] == s' && ss'[|ss| - 1] == s && es'[|es|] == e
  {
    ss', es' := ss + [s'], es + [e];
    forall i: nat | i < |es'| ensures StepAt(ss', es', i) {
      if i < |es| { StepKept(ss, es, i, ss', es'); } else { assert ss'[i] == s && ss'[i + 1] == s'; }
    }
  }

  lemma StepKept(ss: seq<State>, es: seq<Event>, i: nat, ss': seq<State>, es': seq<Event>)
    requires Run(ss, es) && i < |es| && |ss'| == |es'| + 1 && i < |es'|
    requires ss'[i] == ss[i] && ss'[i + 1] == ss[i + 1] && es'[i] == es[i]
    ensures StepAt(ss', es', i)
  {
    assert StepAt(ss, es, i);
  }

  /** The state with branches of heights n and m is reached by steps of the chain. */
  lemma {:induction false} ForkedReached(n: nat, m: nat) returns (ss: seq<State>, es: seq<Event>)
    requires m <= n <= TALLEST
    ensures Laid(n, m) && RunTo(ss, es, Forked(n, m))
  {
    if m > 0 {
      ss, es := ForkedReached(n, m - 1);
      GrowSide(n, m);
      ss, es := RunOn(ss, es, Forked(n, m - 1), Side(BlockAt(true, m)), Forked(n, m));
    } else if n > 0 {
      ss, es := ForkedReached(n - 1, 0);
      GrowMain(n);
      ss, es := RunOn(ss, es, Forked(n - 1, 0), Adopt(BlockAt(false, n)), Forked(n, 0));
    } else {
      FoundedInv(BlockAt(false, 0));
      ss, es := [Forked(0, 0)], [];
    }
  }

  lemma ForkAtBottom(n: nat)
    requires 1 <= n < TALLEST
    ensures CommonLength(Line(false, n + 1), Line(true, n + 2)) == 1
  {
    var p, q := Line(false, n + 1), Line(true, n + 2);
    assert p[..1] == q[..1];
    CommonAtLeast(p, q, 1);
    assert p[1] != q[1];
  }

  lemma ForkedTips(n: nat)
    requires 1 <= n < TALLEST && Laid(n, n) && Attached(Forked(n, n), BlockAt(true, n + 1))
    requires NewPath(Forked(n, n), BlockAt(true, n + 1)) == Line(true, n + 2)
    ensures Shared(Forked(n, n), BlockAt(true, n + 1)) == 1 && Height(Forked(n, n)) == n
  {
    ForkAtBottom(n);
    assert |Main(Forked(n, n))| == n + 1;
  }

  lemma ForkedCrowded(n: nat, cap: nat)
    requires 1 <= n <= MAX_REORG_DEPTH && cap < 2 * (n + 1) && Laid(n, n) && Attached(Forked(n, n), BlockAt(true, n + 1))
    requires NewPath(Forked(n, n), BlockAt(true, n + 1)) == Line(true, n + 2)
    ensures var s, b := Forked(n, n), BlockAt(true, n + 1);
      FinalityAllows(s, b) && Height(s) == n && !BranchFits(s, b, cap) && !Adoptable(s, b, cap)
  {
    ForkedTips(n);
    assert |Line(true, n + 2)| == n + 2;
  }

  /** A heavier block that finality allows and that does not fit: it is one block higher than
      the tip, on a branch from the bottom, and the cache holds fewer than two times n + 1
      blocks. Cache sizes from 164 to 201 are permitted, and n = 100 makes them all too small. */
  lemma HeavierYetCrowded(n: nat, cap: nat) returns (ss: seq<State>, es: seq<Event>, s: State, b: Block)
    requires 1 <= n <= MAX_REORG_DEPTH && cap < 2 * (n + 1)
    ensures Run(ss, es) && |ss[0].blocks| == 1 && ss[|ss| - 1] == s
    ensures
      && Inv(s) && Admissible(s, b) && Work(NewPath(s, b)) > Work(Main(s)) && FinalityAllows(s, b)
      && Height(s) == n && !BranchFits(s, b, cap) && !Adoptable(s, b, cap)
  {
    ss, es := ForkedReached(n, n);
    s, b := Forked(n, n), BlockAt(true, n + 1);
    SideJoins(n, n + 1);
    ForkedCrowded(n, cap);
  }

  /** With room for 202 blocks, no branch that outgrows the main chain by at most one block is
      refused for want of room; only branches of lower difficulty can be longer. */
  lemma SteadyBranchFits(s: State, b: Block, cap: nat)
    requires Inv(s) && Attached(s, b) && FinalityAllows(s, b)
    requires |NewPath(s, b)| <= |Main(s)| + 1 && cap >= 2 * (MAX_REORG_DEPTH + 1)
    ensures Adoptable(s, b, cap)
  {
  }
}
