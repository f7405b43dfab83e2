/** The two chain auditors (block.go). They look at main-chain blocks by height only, so they
    are modelled over what the height lookup returns: one entry per height, missing or not. */
module Audit {
  import opened Words
  import opened Seqs
  import opened Blocks
  import opened Lwma
  import opened Median
  import opened ChainModel
  import opened Fork

  datatype Kind =
    | Missing
    | CheckpointMissing
    | PrevHashMismatch(claimed: Hash, actual: Hash)
    | DifficultyMismatch(stated: U64, expected: U64)
    | NotAfterMedian(timestamp: int, median: int)
    | BlockTime(gap: int)
    | ShortForLwma
    | ShortForMedian

  datatype Violation = Violation(height: nat, kind: Kind)

  // ---------------------------------------------------------------- what an audit should report

  ghost function ExpectedAt(p: seq<Block>, h: nat): U64
    requires 1 <= h < |p|
  {
    if h - 1 < LWMA_WINDOW then MIN_DIFFICULTY else Lwma.Lwma(p, h - 1)
  }

  /** How many timestamps the median at height h is taken over. */
  function MedianCount(h: nat): (n: nat)
    ensures n <= h && (h > 0 ==> n > 0)
  {
    if h < MEDIAN_WINDOW then h else MEDIAN_WINDOW
  }

  /** The timestamps below height h that the median is taken over. */
  ghost function StampsBelow(p: seq<Block>, h: nat): (s: seq<int>)
    requires 1 <= h <= |p|
    ensures |s| == MedianCount(h)
  {
    seq(MedianCount(h), i requires 0 <= i < MedianCount(h) => p[h - MedianCount(h) + i].timestamp)
  }

  function Reported(bad: bool, h: nat, kind: Kind): seq<Violation> {
    if bad then [Violation(h, kind)] else []
  }

  /** What is wrong with block b at height h, given its parent, the difficulty it should have,
      the median it should exceed and the time since its parent. */
  ghost function Findings(b: Block, prev: Block, h: nat, expected: U64, median: int, gap: int): seq<Violation> {
    Reported(b.prev != prev.hash, h, PrevHashMismatch(b.prev, prev.hash))
    + Reported(b.difficulty != expected, h, DifficultyMismatch(b.difficulty, expected))
    + Reported(b.timestamp <= median, h, NotAfterMedian(b.timestamp, median))
    + Reported(gap < 1, h, BlockTime(gap))
  }

  /** The violations at one height of a complete block list. */
  ghost function ViolationsAt(p: seq<Block>, h: nat): seq<Violation>
    requires 1 <= h < |p|
  {
    Findings(p[h], p[h - 1], h, ExpectedAt(p, h), MedianOf(StampsBelow(p, h)), Gap(p, h))
  }

  // Reports are collected per height first: a proof about many heights then never looks
  // inside one height's report.

  ghost predicate ReportAt(rs: seq<seq<Violation>>, p: seq<Block>, h: nat)
    requires 1 <= h < |p| == |rs|
  {
    rs[h] == ViolationsAt(p, h)
  }

  /** rs[h] are the violations of p at height h. */
  ghost predicate AreReports(rs: seq<seq<Violation>>, p: seq<Block>) {
    |rs| == |p| && forall h: nat {:trigger ReportAt(rs, p, h)} :: 1 <= h < |p| ==> ReportAt(rs, p, h)
  }

  ghost function Reports(p: seq<Block>): (rs: seq<seq<Violation>>)
    ensures AreReports(rs, p)
  {
    seq(|p|, h requires 0 <= h < |p| => if h >= 1 then ViolationsAt(p, h) else [])
  }

  /** The reports for heights from..end-1, in order. */
  ghost function Joined(rs: seq<seq<Violation>>, from: nat, end: nat): seq<Violation>
    requires end <= |rs|
    decreases end
  {
    if end <= from then [] else Joined(rs, from, end - 1) + rs[end - 1]
  }

  /** The violations of p from height `from` up. */
  ghost function Violations(p: seq<Block>, from: nat): seq<Violation> {
    Joined(Reports(p), from, |p|)
  }

  // ---------------------------------------------------------------- auditors and validator agree

  lemma ExpectedIsConsensus(p: seq<Block>, h: nat)
    requires 1 <= h < |p|
    ensures ExpectedAt(p, h) == ExpectedDifficulty(p[..h])
  {
    if h - 1 >= LWMA_WINDOW { LwmaShift(p, h - 1, p[..h], h - 1); }
  }

  lemma StampsAreWindow(p: seq<Block>, h: nat)
    requires 1 <= h <= |p|
    ensures StampsBelow(p, h) == MedianWindow(p[..h])
  {
  }

  /** Block h came at least a second after its parent, as the 64-bit subtraction sees it. */
  ghost predicate GapOk(p: seq<Block>, h: nat)
    requires 1 <= h < |p|
  {
    Gap(p, h) >= 1
  }

  /** The timestamps of block h and its parent are less than 2^63 apart. */
  ghost predicate GapFits(p: seq<Block>, h: nat)
    requires 1 <= h < |p|
  {
    p[h].timestamp - p[h - 1].timestamp < 0x8000_0000_0000_0000
  }

  lemma GapPositive(p: seq<Block>, h: nat)
    requires 1 <= h < |p| && p[h - 1].timestamp < p[h].timestamp
    ensures GapOk(p, h) <==> GapFits(p, h)
  {
  }

  lemma DifficultyClean(p: seq<Block>, h: nat)
    requires GoodPath(p) && 1 <= h < |p|
    ensures p[h].difficulty == ExpectedAt(p, h) && p[h - 1].timestamp < p[h].timestamp
  {
    GoodAt(p, h);
    ExpectedIsConsensus(p, h);
  }

  lemma MedianClean(p: seq<Block>, h: nat)
    requires GoodPath(p) && 1 <= h < |p|
    ensures MedianOf(StampsBelow(p, h)) < p[h].timestamp
  {
    DifficultyClean(p, h);
    GoodPrefix(p, h);
    StampsAreWindow(p, h);
    MedianImplied(p[..h]);
  }

  /** At a height of a chain that block processing has built, only the gap can be reported. */
  lemma CleanAt(p: seq<Block>, h: nat)
    requires GoodPath(p) && IsChain(p) && 1 <= h < |p|
    ensures ViolationsAt(p, h) == [] <==> GapOk(p, h)
  {
    DifficultyClean(p, h);
    MedianClean(p, h);
    assert LinkAt(p, h);
  }

  lemma CleanReport(rs: seq<seq<Violation>>, p: seq<Block>, h: nat)
    requires GoodPath(p) && IsChain(p) && AreReports(rs, p) && 1 <= h < |p|
    ensures rs[h] == [] <==> GapFits(p, h)
  {
    assert ReportAt(rs, p, h);
    CleanAt(p, h);
    DifficultyClean(p, h);
    GapPositive(p, h);
  }

  lemma {:induction false} JoinedEmpty(rs: seq<seq<Violation>>, from: nat, end: nat)
    requires end <= |rs|
    ensures Joined(rs, from, end) == [] <==> forall h :: from <= h < end ==> rs[h] == []
    decreases end
  {
    if end > from {
      JoinedEmpty(rs, from, end - 1);
      var init, last := Joined(rs, from, end - 1), rs[end - 1];
      assert init + last == [] <==> init == [] && last == [];
    }
  }

  /** A chain that block processing has built is reported clean exactly when no two
      consecutive timestamps are 2^63 seconds or more apart. */
  lemma AuditorAgrees(p: seq<Block>)
    requires GoodPath(p) && IsChain(p)
    ensures Violations(p, 1) == [] <==> forall h: nat {:trigger GapFits(p, h)} :: 1 <= h < |p| ==> GapFits(p, h)
  {
    JoinedEmpty(Reports(p), 1, |p|);
    forall h: nat | 1 <= h < |p| ensures Reports(p)[h] == [] <==> GapFits(p, h) { CleanReport(Reports(p), p, h); }
  }

  lemma CleanWhenPositive(p: seq<Block>)
    requires GoodPath(p) && IsChain(p) && p != [] && p[0].timestamp >= 0
    ensures Violations(p, 1) == []
  {
    forall h: nat | 1 <= h < |p| ensures GapFits(p, h) {
      if h > 1 { GoodPathTimes(p, 0, h - 1); }
    }
    AuditorAgrees(p);
  }

  /** In particular when the first timestamp is not negative, as every genesis timestamp is. */
  lemma BuiltChainIsClean(s: State)
    requires Inv(s) && Main(s)[0].timestamp >= 0
    ensures Violations(Main(s), 1) == []
  {
    MainGood(s);
    PathIsChain(s.blocks, s.tip);
    CleanWhenPositive(Main(s));
  }

  // ---------------------------------------------------------------- what is reported on any chain

  /** Block h of p is linked, as difficult as consensus demands, later than the median of the
      blocks below it and at least a second later than its parent. */
  ghost predicate InOrder(p: seq<Block>, h: nat)
    requires 1 <= h < |p|
  {
    && p[h].prev == p[h - 1].hash
    && p[h].difficulty == ExpectedDifficulty(p[..h])
    && p[h].timestamp > MedianOf(MedianWindow(p[..h]))
    && Gap(p, h) >= 1
  }

  /** What is wrong with block h of p, with the values it has and should have. */
  ghost predicate Faulty(p: seq<Block>, h: nat, kind: Kind)
    requires 1 <= h < |p|
  {
    match kind
    case PrevHashMismatch(claimed, actual) => claimed == p[h].prev && actual == p[h - 1].hash && claimed != actual
    case DifficultyMismatch(stated, expected) =>
      stated == p[h].difficulty && expected == ExpectedDifficulty(p[..h]) && stated != expected
    case NotAfterMedian(timestamp, median) =>
      timestamp == p[h].timestamp && median == MedianOf(MedianWindow(p[..h])) && timestamp <= median
    case BlockTime(gap) => gap == Gap(p, h) && gap < 1
    case _ => false
  }

  /** The same, for given values of what it should have. */
  ghost predicate FaultIn(b: Block, prev: Block, expected: U64, median: int, gap: int, kind: Kind) {
    match kind
    case PrevHashMismatch(c, a) => c == b.prev && a == prev.hash && c != a
    case DifficultyMismatch(s, e) => s == b.difficulty && e == expected && s != e
    case NotAfterMedian(t, m) => t == b.timestamp && m == median && t <= m
    case BlockTime(g) => g == gap && g < 1
    case _ => false
  }

  lemma FaultyIsFaultIn(p: seq<Block>, h: nat, kind: Kind)
    requires 1 <= h < |p|
    ensures Faulty(p, h, kind) <==> FaultIn(p[h], p[h - 1], ExpectedDifficulty(p[..h]), MedianOf(MedianWindow(p[..h])), Gap(p, h), kind)
  {
  }

  /** The order of the reports at one height. */
  function Rank(kind: Kind): nat {
    match kind
    case PrevHashMismatch(_, _) => 0
    case DifficultyMismatch(_, _) => 1
    case NotAfterMedian(_, _) => 2
    case BlockTime(_) => 3
    case _ => 4
  }

  ghost predicate Before(v: Violation, w: Violation) {
    v.height < w.height || (v.height == w.height && Rank(v.kind) < Rank(w.kind))
  }

  ghost predicate InSequence(vs: seq<Violation>) {
    forall i, j :: 0 <= i < j < |vs| ==> Before(vs[i], vs[j])
  }

  lemma SequenceConcat(a: seq<Violation>, b: seq<Violation>)
    requires InSequence(a) && InSequence(b) && forall v, w :: v in a && w in b ==> Before(v, w)
    ensures InSequence(a + b)
  {
  }

  /** One more kind of fault at the same height, after the earlier ones. */
  lemma ReportedNext(vs: seq<Violation>, bad: bool, h: nat, kind: Kind)
    requires InSequence(vs) && forall v :: v in vs ==> v.height == h && Rank(v.kind) < Rank(kind)
    ensures InSequence(vs + Reported(bad, h, kind))
    ensures forall v :: v in vs + Reported(bad, h, kind) <==> v in vs || (bad && v == Violation(h, kind))
  {
    SequenceConcat(vs, Reported(bad, h, kind));
  }

  lemma FindingsInSequence(b: Block, prev: Block, h: nat, expected: U64, median: int, gap: int)
    ensures InSequence(Findings(b, prev, h, expected, median, gap))
    ensures forall v :: v in Findings(b, prev, h, expected, median, gap) <==>
      v.height == h && FaultIn(b, prev, expected, median, gap, v.kind)
  {
    var one := Reported(b.prev != prev.hash, h, PrevHashMismatch(b.prev, prev.hash));
    var two := one + Reported(b.difficulty != expected, h, DifficultyMismatch(b.difficulty, expected));
    var three := two + Reported(b.timestamp <= median, h, NotAfterMedian(b.timestamp, median));
    ReportedNext(one, b.difficulty != expected, h, DifficultyMismatch(b.difficulty, expected));
    ReportedNext(two, b.timestamp <= median, h, NotAfterMedian(b.timestamp, median));
    ReportedNext(three, gap < 1, h, BlockTime(gap));
  }

  lemma FindingsOf(p: seq<Block>, h: nat)
    requires 1 <= h < |p|
    ensures ViolationsAt(p, h) == Findings(p[h], p[h - 1], h, ExpectedDifficulty(p[..h]), MedianOf(MedianWindow(p[..h])), Gap(p, h))
  {
    ExpectedIsConsensus(p, h);
    StampsAreWindow(p, h);
  }

  /** The report at a height lists exactly what is wrong there, each fault once and in order. */
  lemma FaultsAt(p: seq<Block>, h: nat)
    requires 1 <= h < |p|
    ensures forall v :: v in ViolationsAt(p, h) <==> v.height == h && Faulty(p, h, v.kind)
    ensures InSequence(ViolationsAt(p, h))
  {
    FindingsOf(p, h);
    FindingsInSequence(p[h], p[h - 1], h, ExpectedDifficulty(p[..h]), MedianOf(MedianWindow(p[..h])), Gap(p, h));
    forall v ensures v in ViolationsAt(p, h) <==> v.height == h && Faulty(p, h, v.kind) { FaultyIsFaultIn(p, h, v.kind); }
  }

  /** Nothing is reported at a height exactly when the block there is in order. */
  lemma CleanIffInOrder(p: seq<Block>, h: nat)
    requires 1 <= h < |p|
    ensures ViolationsAt(p, h) == [] <==> InOrder(p, h)
  {
    FindingsOf(p, h);
  }

  /** The gap is positive exactly when block h is later than its parent by less than 2^63 seconds,
      or earlier by more than 2^63, where the subtraction wraps. */
  lemma GapExactly(p: seq<Block>, h: nat)
    requires 1 <= h < |p|
    ensures var later := p[h].timestamp - p[h - 1].timestamp;
      Gap(p, h) >= 1 <==> 1 <= later < 0x8000_0000_0000_0000 || later < -0x8000_0000_0000_0000
  {
  }

  lemma {:induction false} JoinedMember(rs: seq<seq<Violation>>, from: nat, end: nat, v: Violation)
    requires end <= |rs|
    ensures v in Joined(rs, from, end) <==> exists h :: from <= h < end && v in rs[h]
    decreases end
  {
    if end > from {
      JoinedMember(rs, from, end - 1, v);
      if v in rs[end - 1] { assert from <= end - 1 < end; }
    }
  }

  ghost predicate FaultAbove(p: seq<Block>, from: nat, v: Violation) {
    1 <= from <= v.height < |p| && Faulty(p, v.height, v.kind)
  }

  lemma AuditMember(p: seq<Block>, from: nat, v: Violation)
    requires 1 <= from
    ensures v in Violations(p, from) <==> FaultAbove(p, from, v)
  {
    var rs := Reports(p);
    JoinedMember(rs, from, |p|, v);
    forall h | from <= h < |p| ensures v in rs[h] <==> v.height == h && Faulty(p, h, v.kind) {
      assert ReportAt(rs, p, h);
      FaultsAt(p, h);
    }
    if FaultAbove(p, from, v) { assert v in rs[v.height]; }
  }

  /** Each report is in sequence and about its own height. */
  ghost predicate Tidy(rs: seq<seq<Violation>>, h: nat)
    requires h < |rs|
  {
    InSequence(rs[h]) && forall v :: v in rs[h] ==> v.height == h
  }

  lemma {:induction false} JoinedInSequence(rs: seq<seq<Violation>>, from: nat, end: nat)
    requires 1 <= from && end <= |rs| && forall h: nat {:trigger Tidy(rs, h)} :: 1 <= h < |rs| ==> Tidy(rs, h)
    ensures InSequence(Joined(rs, from, end))
    decreases end
  {
    if end > from {
      var init, last := Joined(rs, from, end - 1), rs[end - 1];
      JoinedInSequence(rs, from, end - 1);
      assert Tidy(rs, end - 1);
      forall v, w | v in init && w in last ensures Before(v, w) {
        JoinedMember(rs, from, end - 1, v);
        var h :| from <= h < end - 1 && v in rs[h];
        assert Tidy(rs, h);
      }
      SequenceConcat(init, last);
    }
  }

  lemma ReportTidy(p: seq<Block>, h: nat)
    requires 1 <= h < |p|
    ensures Tidy(Reports(p), h)
  {
    assert ReportAt(Reports(p), p, h);
    FaultsAt(p, h);
  }

  /** vs lists every fault of p from height `from` up, each once, by height and kind. */
  ghost predicate Lists(vs: seq<Violation>, p: seq<Block>, from: nat) {
    InSequence(vs) && forall v {:trigger v in vs} {:trigger FaultAbove(p, from, v)} :: v in vs <==> FaultAbove(p, from, v)
  }

  ghost predicate AllInOrder(p: seq<Block>, from: nat) {
    forall h: nat {:trigger InOrder(p, h)} :: 1 <= from <= h < |p| ==> InOrder(p, h)
  }

  /** The audit lists exactly the faults, and nothing exactly when every block is in order. */
  lemma AuditExactly(p: seq<Block>, from: nat)
    requires 1 <= from
    ensures Lists(Violations(p, from), p, from)
    ensures Violations(p, from) == [] <==> AllInOrder(p, from)
  {
    forall h: nat | 1 <= h < |p| ensures Tidy(Reports(p), h) { ReportTidy(p, h); }
    JoinedInSequence(Reports(p), from, |p|);
    forall v ensures v in Violations(p, from) <==> FaultAbove(p, from, v) { AuditMember(p, from, v); }
    JoinedEmpty(Reports(p), from, |p|);
    forall h: nat | from <= h < |p| ensures Reports(p)[h] == [] <==> InOrder(p, h) {
      assert ReportAt(Reports(p), p, h);
      CleanIffInOrder(p, h);
    }
  }

  // ---------------------------------------------------------------- the full audit

  /** What the height lookup found, when it found everything. */
  ghost predicate IsComplete(found: seq<Option<Block>>, from: nat) {
    forall h :: from <= h < |found| ==> found[h].Some?
  }

  ghost predicate FirstMissing(found: seq<Option<Block>>, from: nat, h: nat) {
    from <= h < |found| && found[h].None? && forall i :: from <= i < h ==> found[i].Some?
  }

  /** w holds the blocks from height lo up. */
  ghost predicate IsWindow(w: seq<Block>, found: seq<Option<Block>>, lo: nat) {
    lo + |w| == |found| && forall i :: 0 <= i < |w| ==> found[lo + i] == Some(w[i])
  }

  /** Loads the blocks from height lo up, or names the first one missing. */
  method LoadBlocks(found: seq<Option<Block>>, lo: nat) returns (w: seq<Block>, missing: Option<nat>)
    requires lo <= |found|
    ensures missing.None? ==> IsWindow(w, found, lo)
    ensures missing.Some? ==> FirstMissing(found, lo, missing.value)
  {
    w, missing := [], None;
    var h := lo;
    while h < |found| && missing.None?
      invariant lo <= h <= |found|
      invariant |w| == h - lo && forall i :: 0 <= i < |w| ==> found[lo + i] == Some(w[i])
      invariant missing.Some? ==> FirstMissing(found, lo, missing.value)
      decreases |found| - h, missing.None?
    {
      if found[h].None? {
        forall i | lo <= i < h ensures found[i].Some? { assert found[lo + (i - lo)] == Some(w[i - lo]); }
        missing := Some(h);
      } else {
        w := w + [found[h].value];
        h := h + 1;
      }
    }
  }

  lemma WindowComplete(w: seq<Block>, found: seq<Option<Block>>, lo: nat)
    requires IsWindow(w, found, lo)
    ensures IsComplete(found, lo)
  {
    forall h | lo <= h < |found| ensures found[h].Some? { assert found[lo + (h - lo)] == Some(w[h - lo]); }
  }

  /** The checks at one height. */
  method CheckAt(p: seq<Block>, h: nat, ghost rs: seq<seq<Violation>>) returns (vs: seq<Violation>)
    requires 1 <= h < |p| && AreReports(rs, p)
    ensures vs == rs[h]
  {
    var expected := ExpectedBelow(p, h);
    var median := MedianBelow(p, h);
    vs := Collect(p[h], p[h - 1], h, expected, median, Gap(p, h));
    assert ReportAt(rs, p, h);
  }

  method ExpectedBelow(p: seq<Block>, h: nat) returns (expected: U64)
    requires 1 <= h < |p|
    ensures expected == ExpectedAt(p, h)
  {
    if h - 1 < LWMA_WINDOW { return MIN_DIFFICULTY; }
    expected := WindowDifficulty(p, h - 1);
  }

  method MedianBelow(p: seq<Block>, h: nat) returns (median: int)
    requires 1 <= h < |p|
    ensures median == MedianOf(StampsBelow(p, h))
  {
    var n := MedianCount(h);
    var stamps := seq(n, i requires 0 <= i < n => p[h - n + i].timestamp);
    assert stamps == StampsBelow(p, h);
    median := Median.Compute(stamps);
  }

  method Collect(b: Block, prev: Block, h: nat, expected: U64, median: int, gap: int) returns (vs: seq<Violation>)
    ensures vs == Findings(b, prev, h, expected, median, gap)
  {
    vs := [];
    if b.prev != prev.hash { vs := vs + [Violation(h, PrevHashMismatch(b.prev, prev.hash))]; }
    if b.difficulty != expected { vs := vs + [Violation(h, DifficultyMismatch(b.difficulty, expected))]; }
    if b.timestamp <= median { vs := vs + [Violation(h, NotAfterMedian(b.timestamp, median))]; }
    if gap < 1 { vs := vs + [Violation(h, BlockTime(gap))]; }
  }

  /** Audits the whole chain; `found` has one entry per height up to the tip. */
  method VerifyChain(found: seq<Option<Block>>) returns (vs: seq<Violation>, ghost p: seq<Block>)
    requires found != []
    ensures |found| == 1 ==> vs == []
    ensures |found| > 1 && IsComplete(found, 0) ==> IsWindow(p, found, 0) && vs == Violations(p, 1)
    ensures |found| > 1 && IsComplete(found, 0) ==> Lists(vs, p, 1) && (vs == [] <==> AllInOrder(p, 1))
    ensures |found| > 1 && !IsComplete(found, 0) ==>
      |vs| == 1 && vs[0].kind == Missing && FirstMissing(found, 0, vs[0].height)
  {
    if |found| == 1 { return [], []; }
    var blocks, missing := LoadBlocks(found, 0);
    if missing.Some? { return [Violation(missing.value, Missing)], []; }
    WindowComplete(blocks, found, 0);
    p := blocks;
    vs := AuditAll(blocks, Reports(blocks));
    AuditExactly(blocks, 1);
  }

  method AuditAll(p: seq<Block>, ghost rs: seq<seq<Violation>>) returns (vs: seq<Violation>)
    requires p != [] && AreReports(rs, p)
    ensures vs == Joined(rs, 1, |p|)
  {
    vs := [];
    for h := 1 to |p|
      invariant vs == Joined(rs, 1, h)
    {
      var more := CheckAt(p, h, rs);
      vs := vs + more;
    }
  }

  // ---------------------------------------------------------------- the audit above a checkpoint

  function Get(w: seq<Block>, lo: nat, h: int): Option<Block> {
    if lo <= h < lo + |w| then Some(w[h - lo]) else None
  }

  /** The rule once more, over a part of the chain that may not reach back far enough. */
  method LwmaFrom(w: seq<Block>, lo: nat, parent: nat, ghost p: seq<Block>) returns (r: Option<U64>)
    requires IsTail(w, p, lo) && LWMA_WINDOW <= parent < |p|
    ensures r == if lo + LWMA_WINDOW <= parent then Some(Lwma.Lwma(p, parent)) else None
  {
    var base, weighted, difficultySum := parent - LWMA_WINDOW, 0, 0;
    for i := 1 to LWMA_WINDOW + 1
      invariant i > 1 ==> lo <= base
      invariant weighted == WeightedSum(p, base, i - 1)
      invariant difficultySum == WrapU64(DifficultySum(p, base, i - 1))
    {
      var cur, prev := Get(w, lo, base + i), Get(w, lo, base + i - 1);
      if cur.None? || prev.None? { return None; }
      var term := WeightedTerm(i, WrapI64(cur.value.timestamp - prev.value.timestamp));
      weighted := weighted + term;
      WrapU64Add(DifficultySum(p, base, i - 1), p[base + i].difficulty);
      difficultySum := WrapU64(difficultySum + cur.value.difficulty);
    }
    var d := CloseWindow(weighted, difficultySum, p, parent);
    r := Some(d);
  }

  method MedianFrom(w: seq<Block>, lo: nat, h: nat, ghost p: seq<Block>) returns (r: Option<int>)
    requires IsTail(w, p, lo) && 1 <= h < |p|
    ensures r == if lo + MedianCount(h) <= h then Some(MedianOf(StampsBelow(p, h))) else None
  {
    var n := MedianCount(h);
    var stamps: seq<int> := [];
    for i := 0 to n
      invariant i > 0 ==> lo + n <= h
      invariant |stamps| == i && forall j :: 0 <= j < i ==> stamps[j] == p[h - n + j].timestamp
    {
      var b := Get(w, lo, h - n + i);
      if b.None? { return None; }
      stamps := stamps + [b.value.timestamp];
    }
    assert stamps == StampsBelow(p, h);
    var median := Median.Compute(stamps);
    r := Some(median);
  }

  /** Why the audit above a checkpoint would stop at height h with blocks from lo up. */
  function Shortage(lo: nat, h: nat): Option<Kind> {
    if lo >= h then Some(Missing)
    else if h - 1 >= LWMA_WINDOW && lo + LWMA_WINDOW > h - 1 then Some(ShortForLwma)
    else if lo + MedianCount(h) > h then Some(ShortForMedian)
    else None
  }

  datatype Checked = Stopped(kind: Kind) | Done(vs: seq<Violation>)

  method CheckFrom(w: seq<Block>, lo: nat, h: nat, ghost p: seq<Block>, ghost rs: seq<seq<Violation>>) returns (r: Checked)
    requires IsTail(w, p, lo) && 1 <= h < |p| && AreReports(rs, p)
    ensures r == if Shortage(lo, h).Some? then Stopped(Shortage(lo, h).value) else Done(rs[h])
  {
    var b, prev := Get(w, lo, h), Get(w, lo, h - 1);
    if b.None? || prev.None? { return Stopped(Missing); }
    var expected := DifficultyFrom(w, lo, h, p);
    if expected.None? { return Stopped(ShortForLwma); }
    var median := MedianFrom(w, lo, h, p);
    if median.None? { return Stopped(ShortForMedian); }
    var gap := WrapI64(b.value.timestamp - prev.value.timestamp);
    var vs := Collect(b.value, prev.value, h, expected.value, median.value, gap);
    assert ReportAt(rs, p, h);
    r := Done(vs);
  }

  /** The difficulty block h should have, if the window is there. */
  method DifficultyFrom(w: seq<Block>, lo: nat, h: nat, ghost p: seq<Block>) returns (r: Option<U64>)
    requires IsTail(w, p, lo) && 1 <= h < |p|
    ensures r == if h - 1 >= LWMA_WINDOW && lo + LWMA_WINDOW > h - 1 then None else Some(ExpectedAt(p, h))
  {
    if h - 1 < LWMA_WINDOW {
      r := Some(MIN_DIFFICULTY);
    } else {
      r := LwmaFrom(w, lo, h - 1, p);
    }
  }

  /** The blocks from lo up reach back far enough for heights start..end-1. */
  ghost predicate Suffices(lo: nat, start: nat, end: nat) {
    forall h: nat {:trigger Shortage(lo, h)} :: start <= h < end ==> Shortage(lo, h).None?
  }

  /** The first height from start on at which the blocks from lo up do not reach back far enough. */
  ghost predicate FirstShort(lo: nat, start: nat, h: nat) {
    start <= h && Shortage(lo, h).Some? && Suffices(lo, start, h)
  }

  /** Audits heights from start up with the blocks from lo up. */
  method AuditTail(w: seq<Block>, lo: nat, start: nat, ghost p: seq<Block>, ghost rs: seq<seq<Violation>>)
    returns (vs: seq<Violation>)
    requires IsTail(w, p, lo) && 1 <= start <= |p| && AreReports(rs, p)
    ensures Suffices(lo, start, |p|) ==> vs == Joined(rs, start, |p|)
    ensures forall h: nat :: h < |p| && FirstShort(lo, start, h) ==> vs == [Violation(h, Shortage(lo, h).value)]
  {
    vs := [];
    for h := start to lo + |w|
      invariant Suffices(lo, start, h)
      invariant vs == Joined(rs, start, h)
    {
      var r := CheckFrom(w, lo, h, p, rs);
      if r.Stopped? { return [Violation(h, r.kind)]; }
      vs := vs + r.vs;
    }
  }

  /** Where loading starts for an audit from height start on. */
  function LoadStart(start: nat): nat {
    if start > LWMA_WINDOW + 1 then start - (LWMA_WINDOW + 1) else 0
  }

  /** That is always far enough back. */
  lemma HistorySuffices(start: nat, end: nat)
    requires 1 <= start
    ensures Suffices(LoadStart(start), start, end)
  {
    forall h: nat | start <= h < end ensures Shortage(LoadStart(start), h).None? { }
  }

  /** A checkpoint that the loaded chain matches. */
  ghost predicate Matches(found: seq<Option<Block>>, checkpoints: map<nat, Hash>, h: nat) {
    0 < h < |found| && h in checkpoints && found[h].Some? && found[h].value.hash == checkpoints[h]
  }

  /** A listed checkpoint whose block is missing. */
  ghost predicate Absent(found: seq<Option<Block>>, checkpoints: map<nat, Hash>, h: nat) {
    0 < h < |found| && h in checkpoints && found[h].None?
  }

  /** The last listed checkpoint that the chain matches, or 0; `missing` if an absent one comes first. */
  method FindCheckpoint(found: seq<Option<Block>>, checkpoints: map<nat, Hash>, heights: seq<nat>)
    returns (used: nat, missing: Option<nat>)
    ensures missing.Some? ==> used == 0 && missing.value in heights && Absent(found, checkpoints, missing.value)
    ensures missing.Some? && Sorted(heights) ==>
      forall h :: h in heights && (Absent(found, checkpoints, h) || Matches(found, checkpoints, h)) ==> h <= missing.value
    ensures used > 0 ==> used in heights && Matches(found, checkpoints, used)
    ensures missing.None? && used == 0 ==>
      forall h :: h in heights ==> !Absent(found, checkpoints, h) && !Matches(found, checkpoints, h)
    ensures used > 0 && Sorted(heights) ==>
      forall h :: h in heights && (Absent(found, checkpoints, h) || Matches(found, checkpoints, h)) ==> h <= used
  {
    var i := |heights|;
    while i > 0
      invariant 0 <= i <= |heights|
      invariant forall j :: i <= j < |heights| ==>
        !Absent(found, checkpoints, heights[j]) && !Matches(found, checkpoints, heights[j])
    {
      i := i - 1;
      var h := heights[i];
      if 0 < h < |found| && h in checkpoints {
        if found[h].None? { return 0, Some(h); }
        if found[h].value.hash == checkpoints[h] {
          return h, None;
        }
      }
    }
    return 0, None;
  }

  /** p is the chain from height lo up; below it, p is any list of blocks. */
  ghost predicate Agrees(p: seq<Block>, found: seq<Option<Block>>, lo: nat) {
    |p| == |found| && forall i :: lo <= i < |found| ==> found[i] == Some(p[i])
  }

  /** What an audit above checkpoint c reports: nothing if c is the tip, the first missing block if
      one that is needed is missing, and otherwise exactly the violations above c. */
  ghost predicate AuditedAbove(found: seq<Option<Block>>, c: nat, p: seq<Block>, vs: seq<Violation>) {
    if c + 1 == |found| then vs == []
    else if IsComplete(found, LoadStart(c + 1)) then Agrees(p, found, LoadStart(c + 1)) && vs == Violations(p, c + 1)
    else |vs| == 1 && vs[0].kind == Missing && FirstMissing(found, LoadStart(c + 1), vs[0].height)
  }

  /** Audits the chain above the last matching checkpoint; it never runs out of history. */
  method VerifyChainWithCheckpoints(found: seq<Option<Block>>, checkpoints: map<nat, Hash>, heights: seq<nat>)
    returns (vs: seq<Violation>, used: nat, ghost p: seq<Block>)
    requires found != []
    ensures used > 0 ==> used in heights && Matches(found, checkpoints, used) && AuditedAbove(found, used, p, vs)
    ensures used > 0 && Sorted(heights) ==> forall h :: h in heights && Matches(found, checkpoints, h) ==> h <= used
    ensures used == 0 && vs == [] ==> forall h :: h in heights ==> !Matches(found, checkpoints, h)
    ensures used == 0 && vs != [] ==>
      |vs| == 1 && vs[0].kind == CheckpointMissing && vs[0].height in heights && Absent(found, checkpoints, vs[0].height)
    ensures IsComplete(found, 0) && used == 0 ==> vs == []
    ensures IsComplete(found, 0) && used > 0 ==> IsWindow(p, found, 0) && vs == Violations(p, used + 1)
    ensures IsComplete(found, 0) && used > 0 ==> Lists(vs, p, used + 1) && (vs == [] <==> AllInOrder(p, used + 1))
  {
    var c, missing := FindCheckpoint(found, checkpoints, heights);
    if missing.Some? { return [Violation(missing.value, CheckpointMissing)], 0, []; }
    if c == 0 { return [], 0, []; }
    used := c;
    vs, p := AuditAbove(found, c);
    AuditExactly(p, c + 1);
  }

  /** Audits the heights above c, loading just enough history below them. */
  method AuditAbove(found: seq<Option<Block>>, c: nat) returns (vs: seq<Violation>, ghost p: seq<Block>)
    requires 0 < c < |found| && found[c].Some?
    ensures AuditedAbove(found, c, p, vs)
    ensures IsComplete(found, 0) ==> IsWindow(p, found, 0) && vs == Violations(p, c + 1)
  {
    if c + 1 == |found| { return [], Padded(found, [found[c].value], c); }
    var lo := LoadStart(c + 1);
    var w, gone := LoadBlocks(found, lo);
    if gone.Some? { return [Violation(gone.value, Missing)], []; }
    WindowComplete(w, found, lo);
    p := Padded(found, w, lo);
    vs := AuditWindow(w, c, p);
  }

  method AuditWindow(w: seq<Block>, c: nat, ghost p: seq<Block>) returns (vs: seq<Violation>)
    requires IsTail(w, p, LoadStart(c + 1)) && c < |p|
    ensures vs == Violations(p, c + 1)
  {
    var lo := LoadStart(c + 1);
    HistorySuffices(c + 1, |p|);
    vs := AuditTail(w, lo, c + 1, p, Reports(p));
  }

  /** A block list that ends with the window w; below it, whatever the lookup found. */
  ghost function Padded(found: seq<Option<Block>>, w: seq<Block>, lo: nat): (p: seq<Block>)
    requires lo < |found| && IsWindow(w, found, lo)
    ensures IsTail(w, p, lo) && Agrees(p, found, lo)
    ensures IsComplete(found, 0) ==> IsWindow(p, found, 0)
  {
    seq(|found|, i requires 0 <= i < |found| =>
      if i >= lo then w[i - lo] else if found[i].Some? then found[i].value else w[0])
  }

  // ---------------------------------------------------------------- the two audits compared

  /** The violations above height c. */
  ghost function Above(vs: seq<Violation>, c: nat): seq<Violation> {
    if vs == [] then []
    else Above(vs[..|vs| - 1], c) + (if vs[|vs| - 1].height > c then [vs[|vs| - 1]] else [])
  }

  lemma {:induction false} AboveConcat(a: seq<Violation>, b: seq<Violation>, c: nat)
    ensures Above(a + b, c) == Above(a, c) + Above(b, c)
    decreases |b|
  {
    if b == [] {
      assert a + b == a;
    } else {
      assert (a + b)[..|a + b| - 1] == a + b[..|b| - 1];
      AboveConcat(a, b[..|b| - 1], c);
    }
  }

  lemma {:induction false} AboveUniform(vs: seq<Violation>, h: nat, c: nat)
    requires forall v :: v in vs ==> v.height == h
    ensures Above(vs, c) == if h > c then vs else []
  {
    if vs != [] {
      AboveUniform(vs[..|vs| - 1], h, c);
      assert vs == vs[..|vs| - 1] + [vs[|vs| - 1]];
    }
  }

  lemma {:induction false} AboveJoined(rs: seq<seq<Violation>>, c: nat, end: nat)
    requires end <= |rs| && forall h, v: Violation :: 1 <= h < |rs| && v in rs[h] ==> v.height == h
    ensures Above(Joined(rs, 1, end), c) == Joined(rs, c + 1, end)
    decreases end
  {
    if end > 1 {
      AboveJoined(rs, c, end - 1);
      AboveConcat(Joined(rs, 1, end - 1), rs[end - 1], c);
      AboveUniform(rs[end - 1], end - 1, c);
    }
  }

  lemma ReportHeight(rs: seq<seq<Violation>>, p: seq<Block>, h: nat, v: Violation)
    requires AreReports(rs, p) && 1 <= h < |p| && v in rs[h]
    ensures v.height == h
  {
    assert ReportAt(rs, p, h);
  }

  /** What the audit above checkpoint c reports is the full audit restricted to heights above c. */
  lemma CheckpointAuditIsRestriction(p: seq<Block>, c: nat)
    ensures Above(Violations(p, 1), c) == Violations(p, c + 1)
  {
    var rs := Reports(p);
    forall h, v: Violation | 1 <= h < |rs| && v in rs[h] ensures v.height == h { ReportHeight(rs, p, h, v); }
    AboveJoined(rs, c, |p|);
  }
}
