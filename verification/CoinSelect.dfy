/** Coin selection (wallet/coinselect.go): inputs for a payment under a cap on their number. */
module CoinSelect {
  import opened Words
  import opened Arith
  import opened Seqs
  import opened Blocks

  const MAX_INPUTS: nat := 256

  /** A candidate output; the id stands for its identity. */
  datatype Coin = Coin(id: nat, amount: U64, spent: bool)

  datatype Error = NoSpendableOutputs | InsufficientFunds | InputLimitExceeded

  datatype Selection = Selected(coins: seq<Coin>) | Failed(error: Error)

  // ---------------------------------------------------------------- sums

  ghost function Sum(s: seq<Coin>): nat {
    if s == [] then 0 else Sum(s[..|s| - 1]) + s[|s| - 1].amount
  }

  /** The value of a set of coins. */
  ghost function Value(s: set<Coin>): nat {
    if s == {} then 0 else var c :| c in s; c.amount + Value(s - {c})
  }

  lemma {:induction false} ValueSplit(s: set<Coin>, c: Coin)
    requires c in s
    ensures Value(s) == Value(s - {c}) + c.amount
  {
    var d :| d in s && Value(s) == d.amount + Value(s - {d});
    if c != d {
      ValueSplit(s - {d}, c);
      ValueSplit(s - {c}, d);
      assert s - {d} - {c} == s - {c} - {d};
    }
  }

  lemma {:induction false} ValueUnion(s: set<Coin>, t: set<Coin>)
    requires s !! t
    ensures Value(s + t) == Value(s) + Value(t)
  {
    if s == {} {
      assert s + t == t;
    } else {
      var c :| c in s;
      ValueSplit(s, c);
      ValueSplit(s + t, c);
      assert (s + t) - {c} == (s - {c}) + t;
      ValueUnion(s - {c}, t);
    }
  }

  lemma ValueSubset(s: set<Coin>, t: set<Coin>)
    requires s <= t
    ensures Value(s) <= Value(t)
  {
    assert t == s + (t - s);
    ValueUnion(s, t - s);
  }

  lemma {:induction false} ValueAtMost(s: set<Coin>, most: nat)
    requires forall c :: c in s ==> c.amount <= most
    ensures Value(s) <= most * |s|
  {
    if s != {} {
      var c :| c in s;
      ValueSplit(s, c);
      ValueAtMost(s - {c}, most);
      assert most * |s| == most * (|s| - 1) + most;
    }
  }

  lemma {:induction false} ValueAtLeast(s: set<Coin>, least: nat)
    requires forall c :: c in s ==> c.amount >= least
    ensures Value(s) >= least * |s|
  {
    if s != {} {
      var c :| c in s;
      ValueSplit(s, c);
      ValueAtLeast(s - {c}, least);
      assert least * |s| == least * (|s| - 1) + least;
    }
  }

  lemma {:induction false} SumIsValue(s: seq<Coin>)
    requires NoDup(s)
    ensures Sum(s) == Value(Elements(s))
  {
    if s != [] {
      var t, c := s[..|s| - 1], s[|s| - 1];
      SumIsValue(t);
      assert s == t + [c];
      assert Elements(s) == Elements(t) + {c};
      ValueSplit(Elements(s), c);
      assert Elements(s) - {c} == Elements(t);
    }
  }

  // ---------------------------------------------------------------- the best few coins

  ghost predicate Descending(s: seq<Coin>) {
    forall i, j :: 0 <= i < j < |s| ==> s[i].amount >= s[j].amount
  }

  ghost predicate Ascending(s: seq<Coin>) {
    forall i, j :: 0 <= i < j < |s| ==> s[i].amount <= s[j].amount
  }

  /** No set of at most k coins is worth more than the k largest. */
  lemma LargestAreBest(s: seq<Coin>, k: nat, t: set<Coin>)
    requires NoDup(s) && Descending(s) && k <= |s| && t <= Elements(s) && |t| <= k
    ensures Value(t) <= Sum(s[..k])
  {
    var a := Elements(s[..k]);
    NoDupPrefix(s, k);
    SumIsValue(s[..k]);
    NoDupCard(s[..k]);
    if k > 0 {
      Threshold(s, k, a, t);
      CompareParts(a, t, s[k - 1].amount);
    } else {
      assert t == {};
    }
  }

  lemma Threshold(s: seq<Coin>, k: nat, a: set<Coin>, t: set<Coin>)
    requires Descending(s) && 0 < k <= |s| && a == Elements(s[..k]) && t <= Elements(s)
    ensures var m := s[k - 1].amount; Value(a - t) >= m * |a - t| && Value(t - a) <= m * |t - a|
  {
    var m := s[k - 1].amount;
    forall c | c in a - t ensures c.amount >= m { var i :| 0 <= i < k && s[i] == c; }
    forall c | c in t - a ensures c.amount <= m { OutsidePrefix(s, k, c); }
    ValueAtLeast(a - t, m);
    ValueAtMost(t - a, m);
  }

  lemma OutsidePrefix(s: seq<Coin>, k: nat, c: Coin)
    requires Descending(s) && 0 < k <= |s| && c in s && c !in s[..k]
    ensures c.amount <= s[k - 1].amount
  {
    forall j | 0 <= j < k ensures s[j] != c { assert s[..k][j] == s[j]; }
    var i :| 0 <= i < |s| && s[i] == c;
  }

  lemma CompareParts(a: set<Coin>, t: set<Coin>, m: nat)
    requires |t| <= |a| && Value(a - t) >= m * |a - t| && Value(t - a) <= m * |t - a|
    ensures Value(t) <= Value(a)
  {
    assert a == (a * t) + (a - t) && t == (a * t) + (t - a);
    ValueUnion(a * t, a - t);
    ValueUnion(a * t, t - a);
    assert |t - a| <= |a - t|;
    MulMonotone(|t - a|, |a - t|, m);
    assert m * |t - a| == |t - a| * m && m * |a - t| == |a - t| * m;
  }

  // ---------------------------------------------------------------- shuffling and sorting

  ghost predicate SameCoins(s: seq<Coin>, t: seq<Coin>) {
    |s| == |t| && (NoDup(s) ==> NoDup(t)) && Elements(s) == Elements(t)
  }

  lemma SwapSame(s: seq<Coin>, i: nat, j: nat)
    requires i < |s| && j < |s|
    ensures SameCoins(s, Swapped(s, i, j))
  {
    var t := Swapped(s, i, j);
    forall c ensures c in s <==> c in t {
      if c in s { var k :| 0 <= k < |s| && s[k] == c; assert t[if k == i then j else if k == j then i else k] == c; }
    }
    NoDupPairs(s);
    NoDupPairs(t);
  }

  /** The Fisher-Yates shuffle. Draws are arbitrary, and a failing source of randomness stops it. */
  method Shuffle(a: array<Coin>)
    modifies a
    ensures SameCoins(old(a[..]), a[..])
  {
    ghost var s0 := a[..];
    var i, failed := a.Length - 1, false;
    while i > 0 && !failed
      invariant -1 <= i < a.Length && SameCoins(s0, a[..])
      decreases i, !failed
    {
      if * {
        failed := true;
      } else {
        var j: nat :| j <= i;
        SwapSame(a[..], i, j);
        ghost var next := Swapped(a[..], i, j);
        a[i], a[j] := a[j], a[i];
        assert a[..] == next;
        i := i - 1;
      }
    }
  }

  function Key(c: Coin, falling: bool): int {
    if falling then 0 - c.amount else c.amount
  }

  ghost predicate InOrder(s: seq<Coin>, falling: bool, n: nat)
    requires n <= |s|
  {
    forall i, j :: 0 <= i < n && i < j < |s| ==> Key(s[i], falling) <= Key(s[j], falling)
  }

  ghost predicate LeastSoFar(s: seq<Coin>, falling: bool, i: nat, j: nat)
    requires i < j <= |s|
  {
    forall b :: i < b < j ==> Key(s[i], falling) <= Key(s[b], falling)
  }

  lemma SortStep(s: seq<Coin>, falling: bool, i: nat, j: nat)
    requires i < j < |s| && InOrder(s, falling, i) && LeastSoFar(s, falling, i, j)
    requires Key(s[j], falling) < Key(s[i], falling)
    ensures InOrder(Swapped(s, i, j), falling, i) && LeastSoFar(Swapped(s, i, j), falling, i, j + 1)
  {
  }

  lemma SameCoinsTrans(s: seq<Coin>, t: seq<Coin>, u: seq<Coin>)
    requires SameCoins(s, t) && SameCoins(t, u)
    ensures SameCoins(s, u)
  {
  }

  /** Puts the least remaining coin at position i. */
  method PlaceNext(a: array<Coin>, falling: bool, i: nat)
    requires i < a.Length && InOrder(a[..], falling, i)
    modifies a
    ensures SameCoins(old(a[..]), a[..]) && InOrder(a[..], falling, i + 1)
  {
    ghost var s0 := a[..];
    for j := i + 1 to a.Length
      invariant SameCoins(s0, a[..]) && InOrder(a[..], falling, i) && LeastSoFar(a[..], falling, i, j)
    {
      if Key(a[j], falling) < Key(a[i], falling) {
        ghost var s := a[..];
        SwapSame(s, i, j);
        SortStep(s, falling, i, j);
        SameCoinsTrans(s0, s, Swapped(s, i, j));
        a[i], a[j] := a[j], a[i];
        assert a[..] == Swapped(s, i, j);
      }
    }
  }

  /** Sorting by amount, either way; equal amounts may end up in any order. */
  method Sort(s: seq<Coin>, falling: bool) returns (r: seq<Coin>)
    ensures SameCoins(s, r) && InOrder(r, falling, |r|) && (if falling then Descending(r) else Ascending(r))
  {
    var a := new Coin[|s|](i requires 0 <= i < |s| => s[i]);
    assert a[..] == s;
    for i := 0 to a.Length
      invariant SameCoins(s, a[..]) && InOrder(a[..], falling, i)
    {
      ghost var before := a[..];
      PlaceNext(a, falling, i);
      SameCoinsTrans(s, before, a[..]);
    }
    r := a[..];
    assert forall i, j :: 0 <= i < j < |r| ==> Key(r[i], falling) <= Key(r[j], falling);
  }

  // ---------------------------------------------------------------- the strategies

  /** A selection that pays the target: distinct coins from s, at least one and at most `most`. */
  ghost predicate Pays(r: seq<Coin>, s: seq<Coin>, target: nat, most: nat) {
    NoDup(r) && 0 < |r| <= most && Elements(r) <= Elements(s) && Sum(r) >= target
  }

  /** The first j coins do not pay, as 64-bit words add up. */
  ghost predicate FallsShort(s: seq<Coin>, j: nat, target: nat)
    requires j <= |s|
  {
    WrapU64(Sum(s[..j])) < target
  }

  ghost predicate FrontReaches(s: seq<Coin>, target: nat, most: nat) {
    exists j: nat {:trigger FallsShort(s, j, target)} :: 0 < j <= |s| && j <= most && !FallsShort(s, j, target)
  }

  lemma CountStep(s: seq<Coin>, i: nat)
    requires i < |s|
    ensures WrapU64(Sum(s[..i + 1])) == WrapU64(WrapU64(Sum(s[..i])) + s[i].amount)
  {
    assert s[..i + 1][..i] == s[..i];
    WrapU64Add(Sum(s[..i]), s[i].amount);
  }

  lemma PrefixPays(s: seq<Coin>, i: nat, target: nat)
    requires NoDup(s) && 0 < i <= |s| && WrapU64(Sum(s[..i])) >= target
    ensures Pays(s[..i], s, target, i) && s[..i] <= s && s[..i][..i - 1] == s[..i - 1]
  {
    NoDupPrefix(s, i);
    WrapU64AtMost(Sum(s[..i]));
  }

  /** Takes coins in order until their sum, truncated to 64 bits, reaches the target; None if
      that takes more than `most` or all do not. */
  method TakeUntilPaid(s: seq<Coin>, target: nat, most: nat) returns (r: Option<seq<Coin>>)
    requires NoDup(s)
    ensures r.Some? ==> Pays(r.value, s, target, most) && r.value <= s && WrapU64(Sum(r.value)) >= target
    ensures r.Some? && |r.value| > 1 ==> WrapU64(Sum(r.value[..|r.value| - 1])) < target
    ensures r.Some? <==> FrontReaches(s, target, most)
  {
    var total: U64, i, done := 0, 0, false;
    while i < |s| && i < most && !done
      invariant 0 <= i <= |s| && i <= most && total == WrapU64(Sum(s[..i]))
      invariant done <==> i > 0 && total >= target
      invariant i > 1 ==> WrapU64(Sum(s[..i - 1])) < target
      invariant !done ==> forall j: nat {:trigger FallsShort(s, j, target)} :: 0 < j <= i ==> FallsShort(s, j, target)
    {
      CountStep(s, i);
      total := WrapU64(total + s[i].amount);
      i := i + 1;
      done := total >= target;
    }
    if done {
      assert !FallsShort(s, i, target);
      PrefixPays(s, i, target);
      r := Some(s[..i]);
    } else {
      r := None;
    }
  }

  lemma {:induction false} PrefixSum(s: seq<Coin>, i: nat)
    requires i <= |s|
    ensures Sum(s[..i]) <= Sum(s)
  {
    if i < |s| {
      PrefixSum(s[..|s| - 1], i);
      assert s[..|s| - 1][..i] == s[..i];
    } else {
      assert s[..i] == s;
    }
  }

  /** t holds the smallest coins of s, or the largest. */
  ghost predicate IsEnd(t: set<Coin>, s: set<Coin>, falling: bool) {
    t <= s && forall c, d {:trigger Precedes(c, d, falling)} :: c in t && d in s && d !in t ==> Precedes(c, d, falling)
  }

  predicate Precedes(c: Coin, d: Coin, falling: bool) {
    Key(c, falling) <= Key(d, falling)
  }

  /** Some number of the smallest, or largest, coins pays, as 64-bit words add up. */
  ghost predicate EndPays(s: set<Coin>, target: nat, most: nat, falling: bool) {
    exists t: set<Coin> {:trigger IsEnd(t, s, falling)} :: IsEnd(t, s, falling) && 0 < |t| <= most && WrapU64(Value(t)) >= target
  }

  /** Ends of one size have one value: where they differ, all amounts are equal. */
  lemma EndsSameValue(a: set<Coin>, t: set<Coin>, s: set<Coin>, falling: bool)
    requires IsEnd(a, s, falling) && IsEnd(t, s, falling) && |a| == |t|
    ensures Value(a) == Value(t)
  {
    assert a == (a * t) + (a - t) && t == (a * t) + (t - a);
    assert |a - t| == |t - a|;
    if a - t != {} {
      var c :| c in a - t;
      assert t - a != {};
      var d :| d in t - a;
      assert Precedes(c, d, falling) && Precedes(d, c, falling);
      var m := c.amount;
      SameAmount(a - t, t - a, d, m, falling, a, t, s);
      SameAmount(t - a, a - t, c, m, falling, t, a, s);
      ValueAtLeast(a - t, m);
      ValueAtMost(a - t, m);
      ValueAtLeast(t - a, m);
      ValueAtMost(t - a, m);
    } else {
      assert t - a == {};
    }
    ValueUnion(a * t, a - t);
    ValueUnion(a * t, t - a);
  }

  lemma SameAmount(x: set<Coin>, y: set<Coin>, d: Coin, m: nat, falling: bool, a: set<Coin>, t: set<Coin>, s: set<Coin>)
    requires IsEnd(a, s, falling) && IsEnd(t, s, falling) && x == a - t && y == t - a && d in y && d.amount == m
    ensures forall c :: c in x ==> c.amount == m
  {
    forall c | c in x ensures c.amount == m { assert Precedes(c, d, falling) && Precedes(d, c, falling); }
  }

  lemma FrontIsEnd(sorted: seq<Coin>, j: nat, falling: bool)
    requires NoDup(sorted) && InOrder(sorted, falling, |sorted|) && j <= |sorted|
    ensures IsEnd(Elements(sorted[..j]), Elements(sorted), falling)
    ensures |Elements(sorted[..j])| == j && Value(Elements(sorted[..j])) == Sum(sorted[..j])
  {
    NoDupPrefix(sorted, j);
    NoDupCard(sorted[..j]);
    SumIsValue(sorted[..j]);
    forall m | 0 <= m < j ensures sorted[m] in sorted[..j] { assert sorted[..j][m] == sorted[m]; }
    forall c, d | c in sorted[..j] && d in sorted && d !in sorted[..j] ensures Key(c, falling) <= Key(d, falling) {
      var i :| 0 <= i < j && sorted[..j][i] == c;
      var k :| 0 <= k < |sorted| && sorted[k] == d;
      assert i < j <= k;
    }
  }

  /** Taking coins in order of amount tries exactly the ends. */
  lemma FrontPays(sorted: seq<Coin>, s: set<Coin>, target: nat, most: nat, falling: bool)
    requires NoDup(sorted) && Elements(sorted) == s && InOrder(sorted, falling, |sorted|)
    ensures FrontReaches(sorted, target, most) <==> EndPays(s, target, most, falling)
  {
    if FrontReaches(sorted, target, most) {
      var j: nat :| 0 < j <= |sorted| && j <= most && !FallsShort(sorted, j, target);
      FrontIsEnd(sorted, j, falling);
    }
    if EndPays(s, target, most, falling) {
      var t: set<Coin> :| IsEnd(t, s, falling) && 0 < |t| <= most && WrapU64(Value(t)) >= target;
      NoDupCard(sorted);
      CardMonotone(t, Elements(sorted));
      FrontIsEnd(sorted, |t|, falling);
      EndsSameValue(Elements(sorted[..|t|]), t, s, falling);
      assert !FallsShort(sorted, |t|, target);
    }
  }

  /** Nothing left behind is smaller than anything taken. */
  ghost predicate Lightest(r: seq<Coin>, s: set<Coin>) {
    forall c, d {:trigger NoHeavier(c, d)} :: c in r && d in s && d !in r ==> NoHeavier(c, d)
  }

  predicate NoHeavier(c: Coin, d: Coin) {
    c.amount <= d.amount
  }

  lemma PrefixLightest(sorted: seq<Coin>, s: seq<Coin>, r: seq<Coin>)
    requires Ascending(sorted) && Elements(sorted) == Elements(s) && r <= sorted
    ensures Lightest(r, Elements(s)) && Ascending(r)
  {
    assert forall k :: 0 <= k < |r| ==> r[k] == sorted[k] && sorted[k] in r;
    forall c, d | c in r && d in Elements(s) && d !in r ensures NoHeavier(c, d) {
      assert d in Elements(sorted);
      var i :| 0 <= i < |r| && r[i] == c;
      var j :| 0 <= j < |sorted| && sorted[j] == d;
      assert sorted[i] == c;
    }
  }

  /** Smallest first takes the smallest coins, no more than needed, and fails only if the
      smallest that fit under the cap do not pay. */
  method SmallestFirst(s: seq<Coin>, target: nat, most: nat) returns (r: Option<seq<Coin>>)
    requires NoDup(s)
    ensures r.Some? ==> Pays(r.value, s, target, most) && Lightest(r.value, Elements(s)) && Ascending(r.value)
    ensures r.Some? && |r.value| > 1 ==> WrapU64(Sum(r.value[..|r.value| - 1])) < target
    ensures r.Some? <==> EndPays(Elements(s), target, most, false)
    ensures r.None? && 0 < |s| <= most ==> WrapU64(Sum(s)) < target
    ensures r.None? && s != [] && most > 0 ==> target > 0
  {
    var sorted := Sort(s, false);
    assert Elements(sorted) == Elements(s);
    r := TakeUntilPaid(sorted, target, most);
    if r.Some? {
      PrefixLightest(sorted, s, r.value);
    } else if 0 < |s| <= most {
      assert FallsShort(sorted, |s|, target) && sorted[..|s|] == sorted;
      SumSame(s, sorted);
    }
    FrontPays(sorted, Elements(s), target, most, false);
    assert s != [] && most > 0 && r.None? ==> FallsShort(sorted, 1, target);
  }

  lemma SumSame(s: seq<Coin>, t: seq<Coin>)
    requires NoDup(s) && SameCoins(s, t)
    ensures Sum(s) == Sum(t)
  {
    SumIsValue(s);
    SumIsValue(t);
  }

  /** No selection under the cap pays. */
  ghost predicate NonePays(s: seq<Coin>, target: nat, most: nat) {
    forall t: set<Coin> {:trigger Value(t)} :: t <= Elements(s) && |t| <= most ==> Value(t) < target
  }

  /** No smaller number of coins pays. */
  ghost predicate Fewest(n: nat, s: set<Coin>, target: nat) {
    forall t: set<Coin> {:trigger Value(t)} :: t <= s && 0 < |t| < n ==> Value(t) < target
  }

  /** The shortest prefix of the largest coins that pays is as short as any selection. */
  lemma FrontIsFewest(sorted: seq<Coin>, s: seq<Coin>, r: seq<Coin>, target: nat)
    requires NoDup(sorted) && Descending(sorted) && Elements(sorted) == Elements(s) && Sum(sorted) < U64_LIMIT
    requires r <= sorted && (|r| > 1 ==> WrapU64(Sum(r[..|r| - 1])) < target)
    ensures Fewest(|r|, Elements(s), target)
  {
    forall t: set<Coin> | t <= Elements(s) && 0 < |t| < |r| ensures Value(t) < target {
      var k := |r| - 1;
      assert r[..k] == sorted[..k];
      PrefixSum(sorted, k);
      LargestAreBest(sorted, k, t);
    }
  }

  /** Largest first fails only if no selection under the cap pays, as long as no sum wraps. */
  method LargestFirst(s: seq<Coin>, target: nat, most: nat) returns (r: Option<seq<Coin>>)
    requires NoDup(s)
    ensures r.Some? ==> Pays(r.value, s, target, most) && WrapU64(Sum(r.value)) >= target
    ensures r.Some? <==> EndPays(Elements(s), target, most, true)
    ensures r.None? && s != [] && most > 0 && Sum(s) < U64_LIMIT ==> NonePays(s, target, most)
    ensures r.Some? && Sum(s) < U64_LIMIT ==> Fewest(|r.value|, Elements(s), target)
  {
    var sorted := Sort(s, true);
    r := TakeUntilPaid(sorted, target, most);
    FrontPays(sorted, Elements(s), target, most, true);
    if r.Some? && Sum(s) < U64_LIMIT {
      SumSame(s, sorted);
      FrontIsFewest(sorted, s, r.value, target);
    }
    if r.None? && s != [] && most > 0 && Sum(s) < U64_LIMIT {
      SumSame(s, sorted);
      ghost var k := if most < |s| then most else |s|;
      assert FallsShort(sorted, k, target);
      PrefixSum(sorted, k);
      forall t: set<Coin> | t <= Elements(s) && |t| <= most ensures Value(t) < target {
        NoDupCard(sorted);
        CardMonotone(t, Elements(sorted));
        LargestAreBest(sorted, k, t);
      }
    }
  }

  /** The two amounts, added as 64-bit words, make the target. */
  predicate Together(c: Coin, d: Coin, target: U64) {
    WrapU64(c.amount + d.amount) == target
  }

  /** A coin or a pair worth the target, as 64-bit words add up. */
  ghost predicate HasMatch(s: set<Coin>, target: U64) {
    exists c, d :: Matches(s, c, d, target)
  }

  ghost predicate Matches(s: set<Coin>, c: Coin, d: Coin, target: U64) {
    c in s && d in s && (c.amount == target || (c != d && Together(c, d, target)))
  }

  ghost predicate HasSingle(s: set<Coin>, target: U64) {
    exists c :: IsSingle(s, c, target)
  }

  ghost predicate IsSingle(s: set<Coin>, c: Coin, target: U64) {
    c in s && c.amount == target
  }

  lemma SingleMatches(s: set<Coin>, target: U64)
    ensures HasSingle(s, target) ==> HasMatch(s, target)
  {
    if c :| IsSingle(s, c, target) { assert Matches(s, c, c, target); }
  }

  lemma NoMatch(s: seq<Coin>, target: U64)
    requires forall i :: 0 <= i < |s| ==> s[i].amount != target
    requires forall i, j :: 0 <= i < j < |s| ==> !Together(s[i], s[j], target)
    ensures !HasMatch(Elements(s), target)
  {
    forall c, d | c in s && d in s && c != d ensures !Together(c, d, target) {
      var i :| 0 <= i < |s| && s[i] == c;
      var j :| 0 <= j < |s| && s[j] == d;
      assert if i < j then !Together(s[i], s[j], target) else !Together(s[j], s[i], target);
    }
  }

  /** A single coin or a pair that pays exactly, up to truncation of the pair's sum; which one
      of several is left open. */
  method ExactMatch(s: seq<Coin>, target: U64) returns (r: Option<seq<Coin>>)
    requires NoDup(s)
    ensures r.Some? ==> Pays(r.value, s, target, 2) && WrapU64(Sum(r.value)) == target
    ensures r.Some? <==> HasMatch(Elements(s), target)
    ensures r.Some? && HasSingle(Elements(s), target) ==> |r.value| == 1
  {
    var singles := Singles(s, target);
    if singles != [] {
      var k :| 0 <= k < |singles|;
      OneCoin(s, singles[k]);
      assert Matches(Elements(s), singles[k], singles[k], target);
      return Some([singles[k]]);
    }
    var pairs := Pairs(s, target);
    if pairs != [] {
      var k :| 0 <= k < |pairs|;
      TwoCoins(s, pairs[k].0, pairs[k].1);
      WrapU64AtMost(pairs[k].0.amount + pairs[k].1.amount);
      assert pairs[k] in pairs && Matches(Elements(s), pairs[k].0, pairs[k].1, target);
      return Some([pairs[k].0, pairs[k].1]);
    }
    NoMatch(s, target);
    return None;
  }

  lemma OneCoin(s: seq<Coin>, c: Coin)
    requires c in s
    ensures NoDup([c]) && Elements([c]) <= Elements(s) && Sum([c]) == c.amount
  {
    assert [c][..0] == [];
  }

  lemma TwoCoins(s: seq<Coin>, c: Coin, d: Coin)
    requires c in s && d in s && c != d
    ensures NoDup([c, d]) && Elements([c, d]) <= Elements(s) && Sum([c, d]) == c.amount + d.amount
  {
    assert [c, d][..1] == [c];
    OneCoin(s, c);
  }

  method Singles(s: seq<Coin>, target: nat) returns (r: seq<Coin>)
    ensures forall c :: c in r ==> c in s && c.amount == target
    ensures r == [] ==> forall i :: 0 <= i < |s| ==> s[i].amount != target
  {
    r := [];
    for i := 0 to |s|
      invariant forall c :: c in r ==> c in s && c.amount == target
      invariant r == [] ==> forall k :: 0 <= k < i ==> s[k].amount != target
    {
      if s[i].amount == target { r := r + [s[i]]; }
    }
  }

  method Pairs(s: seq<Coin>, target: U64) returns (r: seq<(Coin, Coin)>)
    requires NoDup(s)
    ensures forall p :: p in r ==> p.0 in s && p.1 in s && p.0 != p.1 && Together(p.0, p.1, target)
    ensures r == [] ==> forall i, j :: 0 <= i < j < |s| ==> !Together(s[i], s[j], target)
  {
    NoDupPairs(s);
    r := [];
    for i := 0 to |s|
      invariant forall p :: p in r ==> p.0 in s && p.1 in s && p.0 != p.1 && Together(p.0, p.1, target)
      invariant r == [] ==> forall k, l :: 0 <= k < i && k < l < |s| ==> !Together(s[k], s[l], target)
    {
      for j := i + 1 to |s|
        invariant forall p :: p in r ==> p.0 in s && p.1 in s && p.0 != p.1 && Together(p.0, p.1, target)
        invariant r == [] ==> forall k, l :: 0 <= k < i && k < l < |s| ==> !Together(s[k], s[l], target)
        invariant r == [] ==> forall l :: i < l < j ==> !Together(s[i], s[l], target)
      {
        if Together(s[i], s[j], target) { r := r + [(s[i], s[j])]; }
      }
    }
  }

  // ---------------------------------------------------------------- the mixed strategy

  lemma {:induction false} SumReplace(s: seq<Coin>, i: nat, c: Coin)
    requires i < |s|
    ensures Sum(s[i := c]) == Sum(s) - s[i].amount + c.amount
  {
    var t := s[i := c];
    if i == |s| - 1 {
      assert t[..|t| - 1] == s[..|s| - 1];
    } else {
      assert t[..|t| - 1] == s[..|s| - 1][i := c];
      SumReplace(s[..|s| - 1], i, c);
    }
  }

  lemma ReplaceDistinct(s: seq<Coin>, i: nat, c: Coin)
    requires i < |s| && NoDup(s) && c !in s
    ensures NoDup(s[i := c]) && Elements(s[i := c]) <= Elements(s) + {c}
  {
    NoDupPairs(s);
    NoDupPairs(s[i := c]);
  }

  /** The total after one coin gives way to another, in 64-bit words. */
  function Exchanged(total: U64, large: Coin, small: Coin): U64 {
    WrapU64(total + U64_LIMIT - large.amount + small.amount)
  }

  lemma ExchangedSum(sum: nat, large: Coin, small: Coin)
    requires large.amount <= sum
    ensures Exchanged(WrapU64(sum), large, small) == WrapU64(sum - large.amount + small.amount)
  {
    WrapU64Add(sum, U64_LIMIT - large.amount + small.amount);
  }

  lemma {:induction false} MemberSum(s: seq<Coin>, i: nat)
    requires i < |s|
    ensures s[i].amount <= Sum(s)
  {
    if i < |s| - 1 { MemberSum(s[..|s| - 1], i); }
  }

  /** The smaller coin can stand in for the larger one. */
  predicate Replaceable(large: Coin, total: U64, small: Coin, target: nat) {
    large.amount > small.amount && Exchanged(total, large, small) >= target
  }

  /** Replaces the first coin that a smaller one can stand in for, keeping the target paid. */
  method Replace(selected: seq<Coin>, total: U64, small: Coin, target: nat) returns (r: seq<Coin>, total': U64, ghost at: nat)
    requires NoDup(selected) && small !in selected && total == WrapU64(Sum(selected)) >= target
    ensures at <= |selected| && forall j :: 0 <= j < at ==> !Replaceable(selected[j], total, small, target)
    ensures at < |selected| ==> Replaceable(selected[at], total, small, target) && r == selected[at := small]
    ensures at == |selected| ==> r == selected
    ensures NoDup(r) && |r| == |selected| && Elements(r) <= Elements(selected) + {small}
    ensures total' == WrapU64(Sum(r)) >= target && Sum(r) <= Sum(selected)
    ensures r != selected ==> Sum(r) < Sum(selected)
  {
    r, total', at := selected, total, |selected|;
    var i, done := 0, false;
    while i < |selected| && !done
      invariant 0 <= i <= |selected|
      invariant !done ==> r == selected && total' == total && at == |selected|
      invariant forall j :: 0 <= j < i && j < at ==> !Replaceable(selected[j], total, small, target)
      invariant done ==> at == i - 1 && Replaceable(selected[at], total, small, target) && r == selected[at := small]
      invariant NoDup(r) && |r| == |selected| && Elements(r) <= Elements(selected) + {small}
      invariant total' == WrapU64(Sum(r)) >= target && Sum(r) <= Sum(selected) && (r != selected ==> Sum(r) < Sum(selected))
    {
      var large := selected[i];
      if Replaceable(large, total, small, target) {
        MemberSum(selected, i);
        ExchangedSum(Sum(selected), large, small);
        SumReplace(selected, i, small);
        ReplaceDistinct(selected, i, small);
        r := selected[i := small];
        total' := Exchanged(total, large, small);
        done, at := true, i;
      }
      i := i + 1;
    }
  }

  /** Starts from largest first and swaps in smaller coins; the number of inputs, their
      distinctness and the payment survive every swap. */
  method Mixed(s: seq<Coin>, target: nat, most: nat) returns (r: Option<seq<Coin>>)
    requires NoDup(s)
    ensures r.Some? ==> Pays(r.value, s, target, most)
    ensures r.Some? <==> EndPays(Elements(s), target, most, true)
    ensures r.None? && s != [] && most > 0 && Sum(s) < U64_LIMIT ==> NonePays(s, target, most)
    ensures r.Some? && Sum(s) < U64_LIMIT ==> Fewest(|r.value|, Elements(s), target) && Tight(r.value, Elements(s), target)
  {
    var base := LargestFirst(s, target, most);
    if base.None? { return None; }
    var others := Others(s, base.value);
    var candidates := Sort(others, false);
    var selected := Sort(base.value, true);
    SumSame(base.value, selected);
    forall c | c in candidates ensures c !in selected { assert c in Elements(others) && (c in selected ==> c in Elements(selected)); }
    if Sum(s) < U64_LIMIT { SelectionFits(base.value, s); }
    selected := SwapIn(selected, candidates, s, target);
    r := Some(selected);
  }

  method Others(s: seq<Coin>, chosen: seq<Coin>) returns (r: seq<Coin>)
    requires NoDup(s)
    ensures NoDup(r) && forall c :: c in r <==> c in s && c !in chosen
  {
    r := [];
    for i := 0 to |s|
      invariant NoDup(r) && forall c :: c in r <==> c in s[..i] && c !in chosen
    {
      assert s[..i + 1] == s[..i] + [s[i]];
      NoDupPrefix(s, i + 1);
      if s[i] !in chosen {
        assert (r + [s[i]])[..|r|] == r;
        r := r + [s[i]];
      }
    }
    assert s[..|s|] == s;
  }

  /** No coin left out can stand in for a larger one that was taken. */
  ghost predicate Tight(r: seq<Coin>, s: set<Coin>, target: nat) {
    forall x, y {:trigger Needed(x, y, Sum(r), target)} ::
      x in r && y in s && y !in r && y.amount < x.amount ==> Needed(x, y, Sum(r), target)
  }

  /** Without x and with y instead the target is not paid. */
  predicate Needed(x: Coin, y: Coin, sum: int, target: nat) {
    sum - x.amount + y.amount < target
  }

  ghost predicate TightTo(r: seq<Coin>, sum: int, gone: set<Coin>, target: nat) {
    forall x, y :: x in r && y in gone && y.amount < x.amount ==> sum - x.amount + y.amount < target
  }

  /** Coins above the bound come in falling order, and before all smaller ones. */
  ghost predicate Ranked(r: seq<Coin>, bound: int) {
    forall i, j :: 0 <= i < j < |r| && r[i].amount > bound ==> r[i].amount >= r[j].amount
  }

  /** Every coin of s is selected, done with or still to come. */
  ghost predicate Accounted(s: seq<Coin>, selected: seq<Coin>, gone: set<Coin>, candidates: seq<Coin>, k: nat)
    requires k <= |candidates|
  {
    forall y :: y in s ==> y in selected || y in gone || ToCome(candidates, k, y)
  }

  ghost predicate ToCome(candidates: seq<Coin>, k: nat, y: Coin) {
    exists j :: k <= j < |candidates| && candidates[j] == y
  }

  lemma SelectionFits(r: seq<Coin>, s: seq<Coin>)
    requires NoDup(r) && NoDup(s) && Elements(r) <= Elements(s)
    ensures Sum(r) <= Sum(s)
  {
    SumIsValue(r);
    SumIsValue(s);
    ValueSubset(Elements(r), Elements(s));
  }

  /** One candidate after another, smallest first, leaves no stand-in behind: what a swap takes
      out was larger than the candidate, and everything larger still had been tried before it. */
  lemma SwapTight(r: seq<Coin>, gone: set<Coin>, small: Coin, at: nat, target: nat, r': seq<Coin>)
    requires TightTo(r, Sum(r), gone, target) && Sum(r) < U64_LIMIT && Ranked(r, small.amount)
    requires at <= |r| && forall j :: 0 <= j < at ==> !Replaceable(r[j], Sum(r), small, target)
    requires at < |r| ==> Replaceable(r[at], Sum(r), small, target) && r' == r[at := small]
    requires at == |r| ==> r' == r
    ensures TightTo(r', Sum(r'), gone + {if at < |r| then r[at] else small}, target)
  {
    forall j | 0 <= j < |r| && r[j].amount > small.amount
      ensures Replaceable(r[j], Sum(r), small, target) <==> Sum(r) - r[j].amount + small.amount >= target
    {
      MemberSum(r, j);
      ReplaceableIs(r[j], Sum(r), small, target);
    }
    if at < |r| {
      SumReplace(r, at, small);
      TightSwap(r, Sum(r), gone, small, at, target);
    } else {
      TightPass(r, Sum(r), gone, small, target);
    }
  }

  lemma ReplaceableIs(large: Coin, sum: nat, small: Coin, target: nat)
    requires small.amount < large.amount <= sum < U64_LIMIT
    ensures Replaceable(large, sum, small, target) <==> sum - large.amount + small.amount >= target
  {
    ExchangedSum(sum, large, small);
  }

  lemma TightPass(r: seq<Coin>, sum: nat, gone: set<Coin>, small: Coin, target: nat)
    requires TightTo(r, sum, gone, target)
    requires forall j :: 0 <= j < |r| && r[j].amount > small.amount ==> sum - r[j].amount + small.amount < target
    ensures TightTo(r, sum, gone + {small}, target)
  {
  }

  lemma TightSwap(r: seq<Coin>, sum: nat, gone: set<Coin>, small: Coin, at: nat, target: nat)
    requires TightTo(r, sum, gone, target) && Ranked(r, small.amount) && at < |r| && r[at].amount > small.amount
    requires forall j :: 0 <= j < at && r[j].amount > small.amount ==> sum - r[j].amount + small.amount < target
    ensures TightTo(r[at := small], sum - r[at].amount + small.amount, gone + {r[at]}, target)
  {
    var r', sum', large := r[at := small], sum - r[at].amount + small.amount, r[at];
    forall x, y | x in r' && y in gone + {large} && y.amount < x.amount ensures sum' - x.amount + y.amount < target {
      assert large in r;
      if x in r {
        if y == large && y !in gone {
          var j :| 0 <= j < |r| && r[j] == x;
          assert j < at;
        }
      } else {
        assert x == small;
      }
    }
  }

  lemma SwapRanked(r: seq<Coin>, candidates: seq<Coin>, k: nat, at: nat, r': seq<Coin>)
    requires k < |candidates| && Ascending(candidates) && at <= |r|
    requires forall j :: k <= j < |candidates| ==> Ranked(r, candidates[j].amount)
    requires r' == if at < |r| then r[at := candidates[k]] else r
    ensures forall j :: k + 1 <= j < |candidates| ==> Ranked(r', candidates[j].amount)
  {
    forall j | k + 1 <= j < |candidates| ensures Ranked(r', candidates[j].amount) {
      assert Ranked(r, candidates[j].amount) && candidates[k].amount <= candidates[j].amount;
    }
  }

  lemma SwapAccounted(s: seq<Coin>, r: seq<Coin>, gone: set<Coin>, candidates: seq<Coin>, k: nat, at: nat, r': seq<Coin>)
    requires k < |candidates| && at <= |r| && Accounted(s, r, gone, candidates, k)
    requires r' == if at < |r| then r[at := candidates[k]] else r
    ensures Accounted(s, r', gone + {if at < |r| then r[at] else candidates[k]}, candidates, k + 1)
  {
    forall y | y in s ensures y in r' || y in gone + {if at < |r| then r[at] else candidates[k]} || ToCome(candidates, k + 1, y) {
      if y in r {
        var i :| 0 <= i < |r| && r[i] == y;
        if i != at { assert r'[i] == y; }
      } else if y !in gone {
        var j :| k <= j < |candidates| && candidates[j] == y;
        if j == k && at < |r| { assert r'[at] == y; }
      }
    }
  }

  /** Where the swapping stands after k candidates. */
  ghost predicate Swapping(s: seq<Coin>, start: seq<Coin>, selected: seq<Coin>, candidates: seq<Coin>, k: nat, gone: set<Coin>, target: nat)
    requires k <= |candidates|
  {
    && NoDup(selected) && |selected| == |start| && Sum(selected) <= Sum(start)
    && Elements(selected) <= Elements(start) + Elements(candidates[..k])
    && Accounted(s, selected, gone, candidates, k)
    && (Sum(start) < U64_LIMIT ==> TightTo(selected, Sum(selected), gone, target))
    && forall j :: k <= j < |candidates| ==> Ranked(selected, candidates[j].amount)
  }

  /** Tries one candidate. */
  method SwapOne(selected: seq<Coin>, total: U64, candidates: seq<Coin>, k: nat, target: nat,
                 ghost s: seq<Coin>, ghost start: seq<Coin>, ghost gone: set<Coin>)
    returns (r: seq<Coin>, total': U64, ghost gone': set<Coin>)
    requires k < |candidates| && NoDup(candidates) && Ascending(candidates) && Disjoint(candidates, start)
    requires Swapping(s, start, selected, candidates, k, gone, target) && total == WrapU64(Sum(selected)) >= target
    ensures Swapping(s, start, r, candidates, k + 1, gone', target) && total' == WrapU64(Sum(r)) >= target
  {
    NotYetIn(start, selected, candidates, k);
    if Sum(start) < U64_LIMIT { WrapU64AtMost(Sum(selected)); }
    ghost var at;
    r, total', at := Replace(selected, total, candidates[k], target);
    gone' := gone + {if at < |selected| then selected[at] else candidates[k]};
    if Sum(start) < U64_LIMIT { SwapTight(selected, gone, candidates[k], at, target, r); }
    SwapRanked(selected, candidates, k, at, r);
    SwapAccounted(s, selected, gone, candidates, k, at, r);
    assert Elements(candidates[..k + 1]) == Elements(candidates[..k]) + {candidates[k]} by {
      assert candidates[..k + 1] == candidates[..k] + [candidates[k]];
    }
  }

  lemma NotYetIn(start: seq<Coin>, selected: seq<Coin>, candidates: seq<Coin>, k: nat)
    requires k < |candidates| && NoDup(candidates) && Disjoint(candidates, start)
    requires Elements(selected) <= Elements(start) + Elements(candidates[..k])
    ensures candidates[k] !in selected
  {
    NoDupPrefix(candidates, k);
    assert candidates[k] !in candidates[..k];
    assert candidates[k] !in Elements(selected);
  }

  lemma SwapStart(s: seq<Coin>, start: seq<Coin>, candidates: seq<Coin>, target: nat)
    requires NoDup(start) && Descending(start) && Elements(s) == Elements(start) + Elements(candidates)
    ensures Swapping(s, start, start, candidates, 0, {}, target)
  {
    forall y | y in s ensures y in start || ToCome(candidates, 0, y) {
      assert y in Elements(start) + Elements(candidates);
      if y !in start { var j :| 0 <= j < |candidates| && candidates[j] == y; }
    }
  }

  lemma SwapEnd(s: seq<Coin>, start: seq<Coin>, selected: seq<Coin>, candidates: seq<Coin>, gone: set<Coin>, target: nat)
    requires Swapping(s, start, selected, candidates, |candidates|, gone, target)
    requires Elements(s) == Elements(start) + Elements(candidates)
    ensures Elements(selected) <= Elements(s)
    ensures Sum(start) < U64_LIMIT ==> Tight(selected, Elements(s), target)
  {
    assert candidates[..|candidates|] == candidates;
    assert forall y :: y in s && y !in selected ==> y in gone;
  }

  method SwapIn(start: seq<Coin>, candidates: seq<Coin>, ghost s: seq<Coin>, target: nat) returns (selected: seq<Coin>)
    requires NoDup(start) && NoDup(candidates) && Disjoint(candidates, start) && WrapU64(Sum(start)) >= target
    requires Descending(start) && Ascending(candidates) && Elements(s) == Elements(start) + Elements(candidates)
    ensures NoDup(selected) && |selected| == |start| && Elements(selected) <= Elements(s)
    ensures target <= Sum(selected) <= Sum(start)
    ensures Sum(start) < U64_LIMIT ==> Tight(selected, Elements(s), target)
  {
    selected := start;
    var total := Total(start);
    ghost var gone: set<Coin> := {};
    SwapStart(s, start, candidates, target);
    for k := 0 to |candidates|
      invariant Swapping(s, start, selected, candidates, k, gone, target) && total == WrapU64(Sum(selected)) >= target
    {
      selected, total, gone := SwapOne(selected, total, candidates, k, target, s, start, gone);
    }
    SwapEnd(s, start, selected, candidates, gone, target);
    WrapU64AtMost(Sum(selected));
  }

  method Total(s: seq<Coin>) returns (total: U64)
    ensures total == WrapU64(Sum(s))
  {
    total := 0;
    for i := 0 to |s|
      invariant total == WrapU64(Sum(s[..i]))
    {
      CountStep(s, i);
      total := WrapU64(total + s[i].amount);
    }
    assert s[..|s|] == s;
  }

  // ---------------------------------------------------------------- SelectInputs

  ghost function Unspent(available: seq<Coin>): set<Coin> {
    set c | c in available && !c.spent
  }

  /** Some set of at most MAX_INPUTS unspent candidates reaches the target. */
  ghost predicate Payable(available: seq<Coin>, target: nat) {
    exists t: set<Coin> {:trigger Value(t)} :: t <= Unspent(available) && |t| <= MAX_INPUTS && Value(t) >= target
  }

  lemma PayableNeedsFunds(available: seq<Coin>, target: nat)
    ensures Payable(available, target) ==> Value(Unspent(available)) >= target
  {
    if Payable(available, target) {
      var t: set<Coin> :| t <= Unspent(available) && |t| <= MAX_INPUTS && Value(t) >= target;
      ValueSubset(t, Unspent(available));
    }
  }

  method Spendable(available: seq<Coin>) returns (r: seq<Coin>)
    requires NoDup(available)
    ensures NoDup(r) && forall c :: c in r <==> c in available && !c.spent
  {
    r := [];
    for i := 0 to |available|
      invariant NoDup(r) && forall c :: c in r <==> c in available[..i] && !c.spent
    {
      assert available[..i + 1] == available[..i] + [available[i]];
      NoDupPrefix(available, i + 1);
      if !available[i].spent {
        assert (r + [available[i]])[..|r|] == r;
        r := r + [available[i]];
      }
    }
    assert available[..|available|] == available;
  }

  lemma PaysFrom(r: seq<Coin>, s: seq<Coin>, target: nat, most: nat)
    requires Pays(r, s, target, most)
    ensures s != []
  {
    assert r[0] in Elements(s);
  }

  /** One of the strategies succeeds on these coins. */
  ghost predicate Choosable(s: set<Coin>, target: U64) {
    HasMatch(s, target) || EndPays(s, target, MAX_INPUTS, false) || EndPays(s, target, MAX_INPUTS, true)
  }

  /** What is chosen among the coins that could be: a single coin worth the target; else a pair; else
      the smallest coins, as few of them as pay; else as few coins as can pay, of which none could
      be exchanged for a smaller one, provided that no sum wraps. */
  ghost predicate Preferred(r: seq<Coin>, s: set<Coin>, target: U64) {
    if HasSingle(s, target) then |r| == 1 && r[0].amount == target
    else if HasMatch(s, target) then |r| == 2 && WrapU64(Sum(r)) == target
    else if EndPays(s, target, 256, false) then
      Lightest(r, s) && Ascending(r) && (|r| > 1 ==> WrapU64(Sum(r[..|r| - 1])) < target)
    else Value(s) < U64_LIMIT ==> Fewest(|r|, s, target) && Tight(r, s, target)
  }

  lemma MatchPreferred(r: seq<Coin>, s: set<Coin>, target: U64)
    requires 0 < |r| <= 2 && NoDup(r) && Elements(r) <= s && WrapU64(Sum(r)) == target && HasMatch(s, target)
    requires HasSingle(s, target) ==> |r| == 1
    ensures Preferred(r, s, target)
  {
    assert r[0] in Elements(r);
    if |r| == 1 {
      assert r[..0] == [];
      assert Sum(r) == r[0].amount;
      assert IsSingle(s, r[0], target);
    }
  }

  lemma SmallPreferred(r: seq<Coin>, s: set<Coin>, target: U64)
    requires !HasMatch(s, target) && EndPays(s, target, MAX_INPUTS, false)
    requires Lightest(r, s) && Ascending(r) && (|r| > 1 ==> WrapU64(Sum(r[..|r| - 1])) < target)
    ensures Preferred(r, s, target)
  {
    SingleMatches(s, target);
  }

  lemma MixedPreferred(r: seq<Coin>, s: set<Coin>, target: U64)
    requires !HasMatch(s, target) && !EndPays(s, target, MAX_INPUTS, false)
    requires Value(s) < U64_LIMIT ==> Fewest(|r|, s, target) && Tight(r, s, target)
    ensures Preferred(r, s, target)
  {
    SingleMatches(s, target);
  }

  /** The smallest coins or, if too many are needed, the mixed strategy. */
  method TryEnds(s: seq<Coin>, target: U64) returns (r: Option<seq<Coin>>)
    requires NoDup(s) && !HasMatch(Elements(s), target)
    ensures r.Some? ==> Pays(r.value, s, target, MAX_INPUTS) && Preferred(r.value, Elements(s), target)
    ensures r.None? && 0 < |s| <= MAX_INPUTS ==> WrapU64(Sum(s)) < target
    ensures r.None? && s != [] && Sum(s) < U64_LIMIT ==> NonePays(s, target, MAX_INPUTS)
    ensures r.Some? <==> Choosable(Elements(s), target)
    ensures target == 0 && s != [] ==> r.Some?
  {
    r := SmallestFirst(s, target, MAX_INPUTS);
    if r.Some? {
      SmallPreferred(r.value, Elements(s), target);
    } else {
      r := Mixed(s, target, MAX_INPUTS);
      if r.Some? {
        SumIsValue(s);
        MixedPreferred(r.value, Elements(s), target);
      }
    }
  }

  /** The strategies in order, on coins that suffice in total. */
  method Try(s: seq<Coin>, target: U64) returns (r: Option<seq<Coin>>)
    requires NoDup(s)
    ensures r.Some? ==> Pays(r.value, s, target, MAX_INPUTS) && Preferred(r.value, Elements(s), target)
    ensures r.None? && 0 < |s| <= MAX_INPUTS ==> WrapU64(Sum(s)) < target
    ensures r.None? && s != [] && Sum(s) < U64_LIMIT ==> NonePays(s, target, MAX_INPUTS)
    ensures r.Some? <==> Choosable(Elements(s), target)
    ensures target == 0 && s != [] ==> r.Some?
  {
    r := ExactMatch(s, target);
    if r.Some? {
      MatchPreferred(r.value, Elements(s), target);
    } else {
      r := TryEnds(s, target);
    }
  }

  /** The strategies on shuffled unspent coins that suffice in total. */
  method Choose(spendable: seq<Coin>, target: U64) returns (r: Selection)
    requires NoDup(spendable)
    ensures r.Selected? ==> Pays(r.coins, spendable, target, MAX_INPUTS)
    ensures r.Failed? ==> r.error == InputLimitExceeded
    ensures r.Failed? && 0 < |spendable| <= MAX_INPUTS ==> WrapU64(Sum(spendable)) < target
    ensures r.Failed? && spendable != [] && Sum(spendable) < U64_LIMIT ==> NonePays(spendable, target, MAX_INPUTS)
    ensures r.Selected? <==> Choosable(Elements(spendable), target)
    ensures r.Selected? ==> spendable != []
    ensures r.Selected? ==> Preferred(r.coins, Elements(spendable), target)
    ensures target == 0 && spendable != [] ==> r.Selected?
  {
    var a := new Coin[|spendable|](i requires 0 <= i < |spendable| => spendable[i]);
    assert a[..] == spendable;
    Shuffle(a);
    var s := a[..];
    assert Elements(s) == Elements(spendable);
    SumSame(spendable, s);
    var chosen := Try(s, target);
    if chosen.None? { return Failed(InputLimitExceeded); }
    PaysFrom(chosen.value, s, target, MAX_INPUTS);
    return Selected(chosen.value);
  }

  lemma PreferredMatch(r: seq<Coin>, s: set<Coin>, target: U64)
    requires Preferred(r, s, target) && HasMatch(s, target)
    ensures WrapU64(Sum(r)) == target && |r| <= 2
  {
    if |r| == 1 {
      assert r[..0] == [];
      assert Sum(r) == r[0].amount;
    }
  }

  /** Chooses inputs for a target amount. What is chosen pays, whatever the amounts are. The
      sums are 64-bit words: if the unspent amounts stay below 2^64, an error is returned only
      where no choice under the cap pays. */
  method SelectInputs(available: seq<Coin>, target: U64) returns (r: Selection)
    requires NoDup(available)
    ensures r.Selected? ==>
      NoDup(r.coins) && 0 < |r.coins| <= MAX_INPUTS && Elements(r.coins) <= Unspent(available) && Sum(r.coins) >= target
    ensures r == Failed(NoSpendableOutputs) <==> available == []
    ensures r == Failed(InsufficientFunds) <==> available != [] && WrapU64(Value(Unspent(available))) < target
    ensures r.Selected? <==>
      available != [] && WrapU64(Value(Unspent(available))) >= target && Choosable(Unspent(available), target)
    ensures 0 < |Unspent(available)| <= MAX_INPUTS ==> (r.Selected? <==> WrapU64(Value(Unspent(available))) >= target)
    ensures Value(Unspent(available)) < U64_LIMIT ==>
      && (r == Failed(InputLimitExceeded) && target > 0 ==> !Payable(available, target))
      && (target > 0 && Payable(available, target) ==> r.Selected?)
    ensures target == 0 && available != [] ==> (r.Selected? <==> Unspent(available) != {})
    ensures r.Selected? && HasMatch(Unspent(available), target) ==> WrapU64(Sum(r.coins)) == target && |r.coins| <= 2
    ensures r.Selected? ==> Preferred(r.coins, Unspent(available), target)
  {
    if available == [] { return Failed(NoSpendableOutputs); }
    var spendable := Spendable(available);
    SumIsValue(spendable);
    NoDupCard(spendable);
    assert Elements(spendable) == Unspent(available);
    assert spendable != [] ==> spendable[0] in Elements(spendable);
    PayableNeedsFunds(available, target);
    var total := Total(spendable);
    if total < target { return Failed(InsufficientFunds); }
    r := Choose(spendable, target);
    if r.Selected? && HasMatch(Unspent(available), target) { PreferredMatch(r.coins, Unspent(available), target); }
  }

  /** Two coins of 2^63 pay for anything, and are refused for every target but zero. */
  lemma WrappedFundsRefused(target: U64)
    requires target > 0
    ensures var available := [Coin(0, 0x8000_0000_0000_0000, false), Coin(1, 0x8000_0000_0000_0000, false)];
      && NoDup(available) && Payable(available, target)
      && WrapU64(Value(Unspent(available))) < target
  {
    var available := [Coin(0, 0x8000_0000_0000_0000, false), Coin(1, 0x8000_0000_0000_0000, false)];
    TwoCoins(available, available[0], available[1]);
    SumIsValue(available);
    assert Elements(available) == Unspent(available);
    NoDupCard(available);
  }
}
