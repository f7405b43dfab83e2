/** The proof-of-work target (crypto-rs/src/pow.rs): a 256-bit division limb by limb, and the
    byte-wise comparison of a hash with the target. */
module Pow {
  import opened Words
  import opened Arith
  import opened Blocks
  import opened Bytes

  const LIMB: nat := 0x1_0000_0000_0000_0000
  const LIMBS: nat := 4
  const LIMB_BYTES: nat := 8
  const HASH_BYTES: nat := 32

  // ---------------------------------------------------------------- numbers as digits

  ghost function Power(base: nat, n: nat): (p: nat)
    requires base > 0
    ensures p > 0
  {
    if n == 0 then 1 else Power(base, n - 1) * base
  }

  /** The number a byte string denotes, most significant byte first. */
  ghost function Value(bs: seq<Byte>): nat {
    if bs == [] then 0 else Value(bs[..|bs| - 1]) * 256 + bs[|bs| - 1]
  }

  /** The number a list of 64-bit limbs denotes, most significant limb first. */
  ghost function LimbValue(ls: seq<U64>): nat {
    if ls == [] then 0 else LimbValue(ls[..|ls| - 1]) * LIMB + ls[|ls| - 1]
  }

  /** 2^256 - 1. */
  ghost function MaxTarget(): nat {
    0xFFFF_FFFF_FFFF_FFFF_FFFF_FFFF_FFFF_FFFF_FFFF_FFFF_FFFF_FFFF_FFFF_FFFF_FFFF_FFFF
  }

  lemma FullLimbs()
    ensures LimbValue([LIMB - 1, LIMB - 1, LIMB - 1, LIMB - 1]) == MaxTarget()
  {
    var f: U64 := LIMB - 1;
    assert [f][..0] == [] && [f, f][..1] == [f] && [f, f, f][..2] == [f, f] && [f, f, f, f][..3] == [f, f, f];
    assert LimbValue([f]) == f;
    assert LimbValue([f, f]) == f * LIMB + f;
    assert LimbValue([f, f, f]) == (f * LIMB + f) * LIMB + f;
  }

  lemma {:induction false} ValueConcat(a: seq<Byte>, b: seq<Byte>)
    ensures Value(a + b) == Value(a) * Power(256, |b|) + Value(b)
    decreases |b|
  {
    if b == [] {
      assert a + b == a;
    } else {
      var e := b[..|b| - 1];
      assert (a + b)[..|a + b| - 1] == a + e;
      ValueConcat(a, e);
      MulAssoc(Value(a), Power(256, |e|), 256);
      assert (Value(a) * Power(256, |e|) + Value(e)) * 256 == Value(a) * Power(256, |e|) * 256 + Value(e) * 256;
    }
  }

  lemma MulAssoc(a: nat, b: nat, c: nat)
    ensures a * (b * c) == a * b * c
  {
  }

  lemma {:induction false} ValueBound(bs: seq<Byte>)
    ensures Value(bs) < Power(256, |bs|)
  {
    if bs != [] { ValueBound(bs[..|bs| - 1]); }
  }

  /** At the first byte in which they differ, the smaller string is the smaller number. */
  lemma LessAt(a: seq<Byte>, b: seq<Byte>, i: nat)
    requires i < |a| == |b| && a[..i] == b[..i] && a[i] < b[i]
    ensures Value(a) < Value(b)
  {
    var ha, ra, hb, rb := a[..i + 1], a[i + 1..], b[..i + 1], b[i + 1..];
    assert a == ha + ra && b == hb + rb;
    ValueConcat(ha, ra);
    ValueConcat(hb, rb);
    ValueBound(ra);
    HeadLess(a, b, i);
    LeadingLess(Value(ha), Value(hb), Power(256, |ra|), Value(ra), Value(rb));
  }

  lemma HeadLess(a: seq<Byte>, b: seq<Byte>, i: nat)
    requires i < |a| == |b| && a[..i] == b[..i] && a[i] < b[i]
    ensures Value(a[..i + 1]) < Value(b[..i + 1])
  {
    assert a[..i + 1][..i] == a[..i] && b[..i + 1][..i] == b[..i];
  }

  lemma LeadingLess(x: nat, y: nat, p: nat, r: nat, t: nat)
    requires x < y && r < p
    ensures x * p + r < y * p + t
  {
    MulMonotone(x + 1, y, p);
    assert (x + 1) * p == x * p + p;
  }

  // ---------------------------------------------------------------- the check

  /** Byte-wise comparison from the most significant end. */
  method CheckTarget(hash: seq<Byte>, target: seq<Byte>) returns (ok: bool)
    requires |hash| == |target| == HASH_BYTES
    ensures ok <==> Value(hash) <= Value(target)
  {
    for i := 0 to HASH_BYTES
      invariant hash[..i] == target[..i]
    {
      if hash[i] < target[i] {
        LessAt(hash, target, i);
        return true;
      }
      if hash[i] > target[i] {
        LessAt(target, hash, i);
        return false;
      }
    }
    assert hash[..HASH_BYTES] == hash && target[..HASH_BYTES] == target;
    return true;
  }

  // ---------------------------------------------------------------- the division

  /** One limb of long division: the quotient limb fits 64 bits and the remainder stays below d. */
  lemma DivideLimb(num: nat, quo: nat, rem: nat, d: nat, limb: U64)
    requires 0 < d && rem < d && num == quo * d + rem
    ensures (rem * LIMB + limb) / d < LIMB
    ensures num * LIMB + limb == (quo * LIMB + (rem * LIMB + limb) / d) * d + (rem * LIMB + limb) % d
  {
    var cur := rem * LIMB + limb;
    MulMonotone(rem + 1, d, LIMB);
    assert cur < LIMB * d;
    QuotientBelow(cur, d, LIMB);
    assert cur == cur / d * d + cur % d;
    assert (quo * LIMB + cur / d) * d == quo * LIMB * d + cur / d * d;
    assert quo * LIMB * d == quo * d * LIMB;
  }

  lemma QuotientBelow(a: nat, d: nat, n: nat)
    requires 0 < d && a < n * d
    ensures a / d < n
  {
    assert a == a / d * d + a % d;
    MulCancel(a / d, n, d);
  }

  /** Exact division of 2^256 - 1 by d, limb by limb. */
  method DivideMax(d: U64) returns (quotient: array<U64>)
    requires d > 0
    ensures fresh(quotient) && quotient.Length == LIMBS
    ensures LimbValue(quotient[..]) == MaxTarget() / d
  {
    var numerator: seq<U64> := [LIMB - 1, LIMB - 1, LIMB - 1, LIMB - 1];
    quotient := new U64[LIMBS](_ => 0);
    var rem := 0;
    for i := 0 to LIMBS
      invariant 0 <= rem < d
      invariant LimbValue(numerator[..i]) == LimbValue(quotient[..i]) * d + rem
    {
      var cur := rem * LIMB + numerator[i];
      DivideLimb(LimbValue(numerator[..i]), LimbValue(quotient[..i]), rem, d, numerator[i]);
      ghost var done := quotient[..i];
      quotient[i] := WrapU64(cur / d);
      rem := cur % d;
      assert quotient[..i] == done;
      assert quotient[..i + 1][..i] == done && numerator[..i + 1][..i] == numerator[..i];
    }
    FullLimbs();
    assert numerator[..LIMBS] == numerator && quotient[..LIMBS] == quotient[..];
    DivUnique(MaxTarget(), d, LimbValue(quotient[..]), rem);
  }

  lemma DivUnique(a: nat, d: nat, q: nat, r: nat)
    requires 0 <= r < d && a == q * d + r
    ensures a / d == q
  {
    assert a == a / d * d + a % d;
    MulCancel(q, a / d + 1, d);
    MulCancel(a / d, q + 1, d);
    assert (q + 1) * d == q * d + d && (a / d + 1) * d == a / d * d + d;
  }

  /** The n low bytes of x, most significant first. */
  function BytesOf(x: nat, n: nat): (bs: seq<Byte>)
    ensures |bs| == n
  {
    if n == 0 then [] else BytesOf(x / 256, n - 1) + [x % 256]
  }

  lemma {:induction false} BytesOfValue(x: nat, n: nat)
    requires x < Power(256, n)
    ensures Value(BytesOf(x, n)) == x
  {
    if n > 0 {
      QuotientBelow(x, 256, Power(256, n - 1));
      BytesOfValue(x / 256, n - 1);
      assert BytesOf(x, n)[..n - 1] == BytesOf(x / 256, n - 1);
    }
  }

  lemma LimbPower()
    ensures Power(256, LIMB_BYTES) == LIMB
  {
    assert Power(256, 1) == 256;
    assert Power(256, 2) == 0x1_0000;
    assert Power(256, 3) == 0x100_0000;
    assert Power(256, 4) == 0x1_0000_0000;
    assert Power(256, 5) == 0x100_0000_0000;
    assert Power(256, 6) == 0x1_0000_0000_0000;
    assert Power(256, 7) == 0x100_0000_0000_0000;
  }

  /** The target of a difficulty, or None for difficulty 0. */
  method DifficultyToTarget(d: U64) returns (r: Option<seq<Byte>>)
    ensures d == 0 ==> r == None
    ensures d > 0 ==> r.Some? && |r.value| == HASH_BYTES && Value(r.value) == MaxTarget() / d
  {
    if d == 0 { return None; }
    var quotient := DivideMax(d);
    var target: seq<Byte> := [];
    for i := 0 to LIMBS
      invariant |target| == LIMB_BYTES * i && Value(target) == LimbValue(quotient[..i])
      invariant LimbValue(quotient[..]) == MaxTarget() / d
    {
      var be := BytesOf(quotient[i], LIMB_BYTES);
      LimbPower();
      BytesOfValue(quotient[i], LIMB_BYTES);
      ValueConcat(target, be);
      assert quotient[..i + 1][..i] == quotient[..i];
      target := target + be;
    }
    assert quotient[..LIMBS] == quotient[..];
    return Some(target);
  }

  // ---------------------------------------------------------------- what the check means

  /** A hash meets the target of d exactly when hash times d does not exceed 2^256 - 1. */
  lemma TargetMeaning(h: nat, d: nat)
    requires d > 0
    ensures h <= MaxTarget() / d <==> h * d <= MaxTarget()
  {
    var m := MaxTarget();
    assert m == m / d * d + m % d;
    if h <= m / d { MulMonotone(h, m / d, d); }
    assert (m / d + 1) * d == m / d * d + d;
    if h * d <= m { MulCancel(h, m / d + 1, d); }
  }

  lemma {:induction false} ZeroValue(n: nat)
    ensures Value(seq(n, _ => 0)) == 0
  {
    if n > 0 {
      ZeroValue(n - 1);
      assert seq(n, _ => 0)[..n - 1] == seq(n - 1, _ => 0);
    }
  }

  /** Whether a header hash proves the work for difficulty d. The failure at d = 0 goes unnoticed
      and leaves a target of zero, which the hash zero meets. */
  method MeetsDifficulty(hash: seq<Byte>, d: U64) returns (ok: bool)
    requires |hash| == HASH_BYTES
    ensures ok <==> if d == 0 then Value(hash) == 0 else Value(hash) * d <= MaxTarget()
  {
    var target := DifficultyToTarget(d);
    if target.None? {
      ZeroValue(HASH_BYTES);
      ok := CheckTarget(hash, seq(HASH_BYTES, _ => 0));
    } else {
      TargetMeaning(Value(hash), d);
      ok := CheckTarget(hash, target.value);
    }
  }

  /** A larger difficulty never accepts more hashes. */
  lemma HarderAcceptsFewer(h: nat, d: nat, d': nat)
    requires 0 < d <= d' && h * d' <= MaxTarget()
    ensures h * d <= MaxTarget()
  {
    assert h * d' == d' * h && h * d == d * h;
    MulMonotone(d, d', h);
  }
}
