/** The linear weighted moving average difficulty rule (block.go), in 64-bit arithmetic. */
module Lwma {
  import opened Words
  import opened Arith
  import opened Blocks

  const LWMA_WINDOW := 60
  const MIN_DIFFICULTY: U64 := 4
  const MIN_SOLVETIME: int := 1
  const MAX_SOLVETIME: int := 1800
  const TARGET_WEIGHTED: int := 300 * (LWMA_WINDOW * (LWMA_WINDOW + 1) / 2)

  /** Largest window difficulty for which no intermediate of the rule wraps. */
  const SAFE_DIFFICULTY: int := (U64_LIMIT - 1) / TARGET_WEIGHTED

  /** The time block i took, as the 64-bit subtraction computes it. */
  function Gap(w: seq<Block>, i: nat): (g: I64)
    requires 1 <= i < |w|
  {
    WrapI64(w[i].timestamp - w[i - 1].timestamp)
  }

  function Clamp(g: int): (s: int)
    ensures MIN_SOLVETIME <= s <= MAX_SOLVETIME
    ensures MIN_SOLVETIME <= g <= MAX_SOLVETIME ==> s == g
  {
    if g < MIN_SOLVETIME then MIN_SOLVETIME else if g > MAX_SOLVETIME then MAX_SOLVETIME else g
  }

  /** Sum over i in 1..n of i times the clamped solvetime of block base + i. */
  function WeightedSum(w: seq<Block>, base: nat, n: nat): int
    requires base + n < |w|
  {
    if n == 0 then 0 else WeightedSum(w, base, n - 1) + Scaled(n, Clamp(Gap(w, base + n)))
  }

  /** Sum of the difficulties of blocks base + 1 to base + n. */
  function DifficultySum(w: seq<Block>, base: nat, n: nat): nat
    requires base + n < |w|
  {
    if n == 0 then 0 else DifficultySum(w, base, n - 1) + w[base + n].difficulty
  }

  /** The closing arithmetic of the rule: every product and sum is taken modulo 2^64. */
  function Retarget(weighted: int, difficultySum: U64): U64 {
    var avg := Quotient(difficultySum, 60);
    var w := if weighted < 1 then 1 else weighted;
    var d := Quotient(WrapU64(avg * 549000), w);
    if d < MIN_DIFFICULTY then MIN_DIFFICULTY else d
  }

  /** The difficulty the rule yields on the LWMA_WINDOW + 1 blocks that end at height top. */
  function Lwma(w: seq<Block>, top: nat): U64
    requires LWMA_WINDOW <= top < |w|
  {
    var base := top - LWMA_WINDOW;
    Retarget(WeightedSum(w, base, top - base), WrapU64(DifficultySum(w, base, top - base)))
  }

  /** The difficulty consensus demands of the child of the last block of path p. */
  function ExpectedDifficulty(p: seq<Block>): U64
    requires p != []
  {
    if |p| - 1 < LWMA_WINDOW then MIN_DIFFICULTY else Lwma(p, |p| - 1)
  }

  /** The rule depends on the window only, not on where it lies. */
  lemma {:induction false} SumsShift(w: seq<Block>, base: nat, w': seq<Block>, base': nat, n: nat)
    requires base + n < |w| && base' + n < |w'|
    requires forall j :: base <= j <= base + n ==> w[j] == w'[j + (base' - base)]
    ensures WeightedSum(w, base, n) == WeightedSum(w', base', n)
    ensures DifficultySum(w, base, n) == DifficultySum(w', base', n)
  {
    if n > 0 {
      SumsShift(w, base, w', base', n - 1);
      assert w[base + n] == w'[base' + n];
      assert w[base + n - 1] == w'[base' + n - 1];
    }
  }

  lemma LwmaShift(w: seq<Block>, top: nat, w': seq<Block>, top': nat)
    requires LWMA_WINDOW <= top < |w| && LWMA_WINDOW <= top' < |w'|
    requires forall j :: top - LWMA_WINDOW <= j <= top ==> w[j] == w'[j + (top' - top)]
    ensures Lwma(w, top) == Lwma(w', top')
  {
    SumsShift(w, top - LWMA_WINDOW, w', top' - LWMA_WINDOW, LWMA_WINDOW);
  }

  /** 1 + 2 + ... + n, the sum of the weights. */
  function Triangle(n: nat): nat {
    if n == 0 then 0 else Triangle(n - 1) + n
  }

  lemma {:induction false} TriangleClosed(n: nat)
    ensures 2 * Triangle(n) == n * (n + 1)
  {
    if n > 0 { TriangleClosed(n - 1); }
  }

  lemma {:induction false} WeightedSumBounds(w: seq<Block>, base: nat, n: nat)
    requires base + n < |w|
    ensures Triangle(n) <= WeightedSum(w, base, n) <= MAX_SOLVETIME * Triangle(n)
  {
    if n > 0 {
      WeightedSumBounds(w, base, n - 1);
      var c := Clamp(Gap(w, base + n));
      ScaledIsMul(n, c);
      MulMonotone(1, c, n);
      MulMonotone(c, MAX_SOLVETIME, n);
    }
  }

  /** Slower blocks never weigh less. */
  lemma {:induction false} WeightedSumMonotone(w: seq<Block>, w': seq<Block>, n: nat)
    requires n < |w| == |w'|
    requires forall i :: 1 <= i <= n ==> Gap(w, i) <= Gap(w', i)
    ensures WeightedSum(w, 0, n) <= WeightedSum(w', 0, n)
  {
    if n > 0 {
      WeightedSumMonotone(w, w', n - 1);
      assert Gap(w, n) <= Gap(w', n);
      ScaledIsMul(n, Clamp(Gap(w, n)));
      ScaledIsMul(n, Clamp(Gap(w', n)));
      MulMonotone(Clamp(Gap(w, n)), Clamp(Gap(w', n)), n);
    }
  }

  lemma {:induction false} WeightedSumOnTarget(w: seq<Block>, n: nat)
    requires n < |w|
    requires forall i :: 1 <= i <= n ==> Gap(w, i) == 300
    ensures WeightedSum(w, 0, n) == 300 * Triangle(n)
  {
    if n > 0 {
      WeightedSumOnTarget(w, n - 1);
      assert Gap(w, n) == 300;
      ScaledIsMul(n, 300);
    }
  }

  lemma {:induction false} DifficultySumSame(w: seq<Block>, w': seq<Block>, n: nat)
    requires n < |w| && n < |w'|
    requires forall i :: 1 <= i <= n ==> w[i].difficulty == w'[i].difficulty
    ensures DifficultySum(w, 0, n) == DifficultySum(w', 0, n)
  {
    if n > 0 { DifficultySumSame(w, w', n - 1); }
  }

  lemma {:induction false} DifficultySumBound(w: seq<Block>, n: nat, most: nat)
    requires n < |w|
    requires forall i :: 1 <= i <= n ==> w[i].difficulty <= most
    ensures DifficultySum(w, 0, n) <= n * most
  {
    if n > 0 {
      DifficultySumBound(w, n - 1, most);
      assert n * most == (n - 1) * most + most;
    }
  }

  lemma {:induction false} DifficultySumConstant(w: seq<Block>, n: nat, d: nat)
    requires n < |w| && forall i :: 1 <= i <= n ==> w[i].difficulty == d
    ensures DifficultySum(w, 0, n) == n * d
  {
    if n > 0 { DifficultySumConstant(w, n - 1, d); }
  }

  /** The rule never answers a slower window with a higher difficulty. It holds even where
      the 64-bit arithmetic wraps, since the numerator does not depend on the solvetimes. */
  lemma SlowerNeverHarder(w: seq<Block>, w': seq<Block>)
    requires |w| == |w'| == LWMA_WINDOW + 1
    requires forall i :: 1 <= i <= LWMA_WINDOW ==> w[i].difficulty == w'[i].difficulty
    requires forall i :: 1 <= i <= LWMA_WINDOW ==> Gap(w, i) <= Gap(w', i)
    ensures Lwma(w', LWMA_WINDOW) <= Lwma(w, LWMA_WINDOW)
  {
    var n := LWMA_WINDOW;
    WeightedSumMonotone(w, w', n);
    DifficultySumSame(w, w', n);
    WeightedSumBounds(w, 0, n);
    TriangleClosed(n);
    var avg := Quotient(WrapU64(DifficultySum(w, 0, n)), 60);
    var a := WrapU64(avg * 549000);
    DivAntitone(a, WeightedSum(w, 0, n), WeightedSum(w', 0, n));
    QuotientIsDiv(a, WeightedSum(w, 0, n));
    QuotientIsDiv(a, WeightedSum(w', 0, n));
  }

  /** With window difficulties small enough nothing wraps, and one retarget moves the
      difficulty down by at most a factor 6 and up by at most a factor 300; a window on
      target repeats the average. */
  lemma RetargetBounds(w: seq<Block>)
    requires |w| == LWMA_WINDOW + 1
    requires forall i :: 1 <= i <= LWMA_WINDOW ==> w[i].difficulty <= SAFE_DIFFICULTY
    ensures DifficultySum(w, 0, LWMA_WINDOW) < U64_LIMIT
    ensures DifficultySum(w, 0, LWMA_WINDOW) / LWMA_WINDOW * TARGET_WEIGHTED < U64_LIMIT
    ensures var avg := DifficultySum(w, 0, LWMA_WINDOW) / LWMA_WINDOW; var d := Lwma(w, LWMA_WINDOW);
      d >= avg / 6 && d >= MIN_DIFFICULTY && (d <= 300 * avg || d == MIN_DIFFICULTY)
    ensures (forall i :: 1 <= i <= LWMA_WINDOW ==> Gap(w, i) == 300) ==>
      var avg := DifficultySum(w, 0, LWMA_WINDOW) / LWMA_WINDOW;
      Lwma(w, LWMA_WINDOW) == if avg < MIN_DIFFICULTY then MIN_DIFFICULTY else avg
  {
    var n := LWMA_WINDOW;
    DifficultySumBound(w, n, SAFE_DIFFICULTY);
    WeightedSumBounds(w, 0, n);
    TriangleClosed(n);
    RetargetArithmetic(WeightedSum(w, 0, n), DifficultySum(w, 0, n));
    LwmaWithoutWrap(w);
    if forall i :: 1 <= i <= n ==> Gap(w, i) == 300 { WeightedSumOnTarget(w, n); }
  }

  lemma LwmaWithoutWrap(w: seq<Block>)
    requires |w| == LWMA_WINDOW + 1 && DifficultySum(w, 0, LWMA_WINDOW) < U64_LIMIT
    ensures Lwma(w, LWMA_WINDOW) == Retarget(WeightedSum(w, 0, LWMA_WINDOW), DifficultySum(w, 0, LWMA_WINDOW))
  {
  }

  lemma RetargetArithmetic(weighted: int, difficultySum: nat)
    requires difficultySum <= LWMA_WINDOW * SAFE_DIFFICULTY
    requires 1830 <= weighted <= 1800 * 1830
    ensures difficultySum < U64_LIMIT
    ensures difficultySum / LWMA_WINDOW * TARGET_WEIGHTED < U64_LIMIT
    ensures var avg := difficultySum / LWMA_WINDOW; var d := Retarget(weighted, difficultySum);
      && d >= avg / 6 && d >= MIN_DIFFICULTY
      && (d <= 300 * avg || d == MIN_DIFFICULTY)
      && (weighted == TARGET_WEIGHTED ==> d == if avg < MIN_DIFFICULTY then MIN_DIFFICULTY else avg)
  {
    var avg := difficultySum / LWMA_WINDOW;
    DivAntitone(avg * TARGET_WEIGHTED, 1830, weighted);
    DivAntitone(avg * TARGET_WEIGHTED, weighted, 1800 * 1830);
    assert avg * TARGET_WEIGHTED / 1830 == 300 * avg;
    assert avg * TARGET_WEIGHTED / (1800 * 1830) == avg / 6;
    assert avg * TARGET_WEIGHTED / TARGET_WEIGHTED == avg;
    QuotientIsDiv(difficultySum, LWMA_WINDOW);
    QuotientIsDiv(avg * TARGET_WEIGHTED, weighted);
  }

  /** The safe bound is tight: one above it, sixty on-target blocks of equal difficulty d
      should repeat d, and the wrapped product collapses the result to the minimum. */
  lemma SafeDifficultyIsTight() returns (w: seq<Block>)
    ensures |w| == LWMA_WINDOW + 1
    ensures forall i :: 1 <= i <= LWMA_WINDOW ==> Gap(w, i) == 300 && w[i].difficulty == SAFE_DIFFICULTY + 1
    ensures Lwma(w, LWMA_WINDOW) == MIN_DIFFICULTY
  {
    w := seq(LWMA_WINDOW + 1, i requires 0 <= i <= 60 => Block(i, i, i, 300 * i, SAFE_DIFFICULTY + 1, []));
    assert forall i :: 1 <= i <= LWMA_WINDOW ==> Gap(w, i) == 300;
    UnsafeWindow(w);
  }

  lemma UnsafeWindow(w: seq<Block>)
    requires |w| == LWMA_WINDOW + 1
    requires forall i :: 1 <= i <= LWMA_WINDOW ==> Gap(w, i) == 300 && w[i].difficulty == SAFE_DIFFICULTY + 1
    ensures Lwma(w, LWMA_WINDOW) == MIN_DIFFICULTY
  {
    UnsafeSums(w, LWMA_WINDOW);
    UnsafeProduct();
    LwmaWithoutWrap(w);
  }

  lemma UnsafeSums(w: seq<Block>, n: nat)
    requires n == LWMA_WINDOW < |w|
    requires forall i :: 1 <= i <= n ==> Gap(w, i) == 300 && w[i].difficulty == SAFE_DIFFICULTY + 1
    ensures WeightedSum(w, 0, n) == TARGET_WEIGHTED && DifficultySum(w, 0, n) == LWMA_WINDOW * (SAFE_DIFFICULTY + 1)
  {
    WeightedSumOnTarget(w, n);
    TriangleClosed(n);
    DifficultySumConstant(w, n, SAFE_DIFFICULTY + 1);
  }

  lemma UnsafeProduct()
    ensures LWMA_WINDOW * (SAFE_DIFFICULTY + 1) < U64_LIMIT
    ensures Retarget(TARGET_WEIGHTED, LWMA_WINDOW * (SAFE_DIFFICULTY + 1)) == MIN_DIFFICULTY
  {
    var d := SAFE_DIFFICULTY + 1;
    assert Quotient(60 * d, 60) == d by { QuotientIsDiv(60 * d, 60); }
    assert U64_LIMIT <= d * 549000 < U64_LIMIT + 549000;
    assert WrapU64(d * 549000) == d * 549000 - U64_LIMIT;
  }

  // ---------------------------------------------------------------- what the rule is worth

  /** The difficulties added up are those of the sixty blocks, each once. */
  lemma {:induction false} DifficultySumIsWork(w: seq<Block>, base: nat, n: nat)
    requires base + n < |w|
    ensures DifficultySum(w, base, n) == Work(w[base + 1..base + n + 1])
  {
    if n > 0 {
      DifficultySumIsWork(w, base, n - 1);
      assert w[base + 1..base + n + 1][..n - 1] == w[base + 1..base + n];
    }
  }

  lemma {:induction false} WeightedSumSame(w: seq<Block>, w': seq<Block>, base: nat, n: nat)
    requires base + n < |w| && base + n < |w'|
    requires forall j :: base < j <= base + n ==> Gap(w', j) == Gap(w, j)
    ensures WeightedSum(w', base, n) == WeightedSum(w, base, n)
  {
    if n > 0 {
      WeightedSumSame(w, w', base, n - 1);
      assert Gap(w', base + n) == Gap(w, base + n);
    }
  }

  lemma {:induction false} TermMoves(w: seq<Block>, w': seq<Block>, base: nat, n: nat, i: nat)
    requires base + n < |w| && base + n < |w'| && 1 <= i <= n
    requires forall j :: base < j <= base + n && j != base + i ==> Gap(w', j) == Gap(w, j)
    ensures WeightedSum(w', base, n) - WeightedSum(w, base, n) ==
      Scaled(i, Clamp(Gap(w', base + i))) - Scaled(i, Clamp(Gap(w, base + i)))
    decreases n
  {
    if n > i {
      TermMoves(w, w', base, n - 1, i);
      assert Gap(w', base + n) == Gap(w, base + n);
    } else {
      WeightedSumSame(w, w', base, n - 1);
    }
  }

  /** Block i of the window carries weight i: a change of its solvetime alone, within the limits,
      moves the sum by i times that change. */
  lemma GapCarriesWeight(w: seq<Block>, w': seq<Block>, base: nat, n: nat, i: nat)
    requires base + n < |w| && base + n < |w'| && 1 <= i <= n
    requires forall j :: base < j <= base + n && j != base + i ==> Gap(w', j) == Gap(w, j)
    requires 1 <= Gap(w, base + i) <= 1800 && 1 <= Gap(w', base + i) <= 1800
    ensures WeightedSum(w', base, n) - WeightedSum(w, base, n) == i * (Gap(w', base + i) - Gap(w, base + i))
  {
    TermMoves(w, w', base, n, i);
    ScaledDifference(i, Gap(w, base + i), Gap(w', base + i));
  }

  /** Every block of the window took t seconds. */
  ghost predicate Steady(w: seq<Block>, base: nat, n: nat, t: int)
    requires base + n < |w|
  {
    forall i :: base < i <= base + n ==> w[i].timestamp - w[i - 1].timestamp == t
  }

  lemma {:induction false} SteadySum(w: seq<Block>, base: nat, n: nat, t: int)
    requires base + n < |w| && Steady(w, base, n, t) && 1 <= t <= 1800
    ensures WeightedSum(w, base, n) == Triangle(n) * t
  {
    if n > 0 {
      SteadySum(w, base, n - 1, t);
      assert Gap(w, base + n) == t;
      ScaledIsMul(n, t);
      MulAdd(Triangle(n - 1), n, t);
    }
  }

  lemma QuotientBounds(a: nat, b: nat)
    requires b > 0
    ensures Quotient(a, b) * b <= a < (Quotient(a, b) + 1) * b
  {
    QuotientIsDiv(a, b);
    assert a == a / b * b + a % b;
    assert (a / b + 1) * b == a / b * b + b;
  }

  /** The average difficulty of the window, as the 64-bit sum gives it. */
  ghost function Average(w: seq<Block>, top: nat): nat
    requires 60 <= top < |w|
  {
    Work(w[top - 59..top + 1]) % 0x1_0000_0000_0000_0000 / 60
  }

  lemma WindowAverage(w: seq<Block>, top: nat)
    requires 60 <= top < |w|
    ensures Average(w, top) == WrapU64(DifficultySum(w, top - 60, 60)) / 60
  {
    DifficultySumIsWork(w, top - 60, 60);
    WrapU64IsMod(DifficultySum(w, top - 60, 60));
  }

  /** d is the least difficulty, 4, or the largest whose product with s stays within the given one. */
  ghost predicate IsRatio(d: int, product: int, s: int) {
    d >= 4 && product < (d + 1) * s && (d > 4 ==> d * s <= product)
  }

  lemma RetargetIs(weighted: int, difficultySum: U64)
    requires weighted >= 1
    ensures IsRatio(Retarget(weighted, difficultySum), 549000 * (difficultySum / 60) % 0x1_0000_0000_0000_0000, weighted)
  {
    var avg := Quotient(difficultySum, 60);
    QuotientIsDiv(difficultySum, 60);
    WrapU64IsMod(avg * 549000);
    var product := WrapU64(avg * 549000);
    QuotientBounds(product, weighted);
    MulMonotone(Quotient(product, weighted) + 1, Retarget(weighted, difficultySum) + 1, weighted);
  }

  lemma LwmaIs(w: seq<Block>, top: nat)
    requires 60 <= top < |w|
    ensures Lwma(w, top) == Retarget(WeightedSum(w, top - 60, 60), WrapU64(DifficultySum(w, top - 60, 60)))
  {
    assert top - (top - 60) == 60;
  }

  /** The rule in numbers: the least difficulty, 4, or the largest d whose product with the weighted
      solvetimes stays within 549000 times the average, that product taken modulo 2^64. */
  lemma DifficultyIs(w: seq<Block>, top: nat)
    requires 60 <= top < |w|
    ensures IsRatio(Lwma(w, top), 549000 * Average(w, top) % 0x1_0000_0000_0000_0000, WeightedSum(w, top - 60, 60))
  {
    var s, sum := WeightedSum(w, top - 60, 60), WrapU64(DifficultySum(w, top - 60, 60));
    assert s >= 1 by {
      WeightedSumBounds(w, top - 60, 60);
      TriangleClosed(60);
    }
    WindowAverage(w, top);
    RetargetIs(s, sum);
    LwmaIs(w, top);
  }

  lemma RatioReduced(avg: nat, t: nat)
    requires t > 0
    ensures Quotient(549000 * avg, 1830 * t) == 300 * avg / t
  {
    var q := Quotient(549000 * avg, 1830 * t);
    QuotientBounds(549000 * avg, 1830 * t);
    assert q * (1830 * t) == 1830 * (q * t);
    assert (q + 1) * (1830 * t) == 1830 * ((q + 1) * t);
    QuotientIsDiv(300 * avg, t);
    QuotientBounds(300 * avg, t);
    MulCancel(q, 300 * avg / t + 1, t);
    MulCancel(300 * avg / t, q + 1, t);
  }

  lemma SteadyRetarget(difficultySum: nat, t: nat)
    requires 1 <= t && difficultySum / 60 * 549000 < U64_LIMIT
    ensures difficultySum < U64_LIMIT
    ensures var d := difficultySum / 60 * 300 / t; Retarget(1830 * t, difficultySum) == if d < 4 then 4 else d
  {
    QuotientIsDiv(difficultySum, 60);
    RatioReduced(difficultySum / 60, t);
  }

  /** With every block t seconds after the last and no wrap, the difficulty is the average scaled
      by 300 / t, but at least 4. */
  lemma SteadyDifficulty(w: seq<Block>, top: nat, t: nat)
    requires 60 <= top < |w| && Steady(w, top - 60, 60, t) && 1 <= t <= 1800
    requires Work(w[top - 59..top + 1]) / 60 * 549000 < U64_LIMIT
    ensures var d := Work(w[top - 59..top + 1]) / 60 * 300 / t; Lwma(w, top) == if d < 4 then 4 else d
  {
    var base := top - 60;
    var sum := DifficultySum(w, base, 60);
    DifficultySumIsWork(w, base, 60);
    SteadySum(w, base, 60, t);
    TriangleClosed(60);
    SteadyRetarget(sum, t);
  }

  /** What consensus demands of a child: 4 up to height 60, and the rule on the last blocks above. */
  lemma ConsensusDifficulty(p: seq<Block>)
    requires p != []
    ensures |p| <= 60 ==> ExpectedDifficulty(p) == 4
    ensures |p| > 60 ==>
      IsRatio(ExpectedDifficulty(p), 549000 * Average(p, |p| - 1) % 0x1_0000_0000_0000_0000, WeightedSum(p, |p| - 61, 60))
  {
    if |p| > 60 { DifficultyIs(p, |p| - 1); }
  }

  /** One term of the weighted sum. */
  method WeightedTerm(i: nat, gap: int) returns (t: int)
    ensures t == Scaled(i, Clamp(gap))
  {
    ScaledIsMul(i, Clamp(gap));
    t := Clamp(gap) * i;
  }

  /** The closing arithmetic, once the sums of the window are known. */
  method CloseWindow(weighted: int, difficultySum: U64, ghost w: seq<Block>, ghost top: nat) returns (d: U64)
    requires LWMA_WINDOW <= top < |w| && weighted == WeightedSum(w, top - LWMA_WINDOW, LWMA_WINDOW)
    requires difficultySum == WrapU64(DifficultySum(w, top - LWMA_WINDOW, LWMA_WINDOW))
    ensures d == Lwma(w, top)
  {
    LwmaIs(w, top);
    d := Retarget(weighted, difficultySum);
  }

  /** The loop of the rule over the blocks that end at height top. */
  method WindowDifficulty(w: seq<Block>, top: nat) returns (d: U64)
    requires LWMA_WINDOW <= top < |w|
    ensures d == Lwma(w, top)
  {
    var base, weighted, difficultySum := top - LWMA_WINDOW, 0, 0;
    for i := 1 to LWMA_WINDOW + 1
      invariant weighted == WeightedSum(w, base, i - 1)
      invariant difficultySum == WrapU64(DifficultySum(w, base, i - 1))
    {
      var term := WeightedTerm(i, Gap(w, base + i));
      weighted := weighted + term;
      WrapU64Add(DifficultySum(w, base, i - 1), w[base + i].difficulty);
      difficultySum := WrapU64(difficultySum + w[base + i].difficulty);
    }
    d := CloseWindow(weighted, difficultySum, w, top);
  }
}
