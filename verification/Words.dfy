/** The fixed-width integers of the source. */
module Words {
  const U64_LIMIT: int := 0x1_0000_0000_0000_0000

  type U64 = x: int | 0 <= x < U64_LIMIT
  type I64 = x: int | -0x8000_0000_0000_0000 <= x < 0x8000_0000_0000_0000

  // Truncation is by repeated subtraction, so that the solver meets a remainder modulo 2^64
  // only where a proof asks for it, through WrapU64IsMod.

  /** Two's-complement truncation to 64 bits, signed. */
  function WrapI64(x: int): (r: I64)
    ensures -0x8000_0000_0000_0000 <= x < 0x8000_0000_0000_0000 ==> r == x
    decreases if x < 0 then -x - 1 else x
  {
    if x >= 0x8000_0000_0000_0000 then WrapI64(x - U64_LIMIT)
    else if x < -0x8000_0000_0000_0000 then WrapI64(x + U64_LIMIT)
    else x
  }

  /** Truncation to 64 bits, unsigned. */
  function WrapU64(x: nat): (r: U64)
    ensures x < U64_LIMIT ==> r == x
  {
    if x < U64_LIMIT then x else WrapU64(x - U64_LIMIT)
  }

  lemma {:induction false} WrapU64IsMod(x: nat)
    ensures WrapU64(x) == x % 0x1_0000_0000_0000_0000
  {
    if x >= U64_LIMIT { WrapU64IsMod(x - U64_LIMIT); }
  }

  /** The signed truncation differs from its argument by a multiple of 2^64. */
  lemma {:induction false} WrapI64IsCongruent(x: int)
    ensures (x - WrapI64(x)) % 0x1_0000_0000_0000_0000 == 0
    decreases if x < 0 then -x - 1 else x
  {
    if x >= 0x8000_0000_0000_0000 {
      WrapI64IsCongruent(x - U64_LIMIT);
    } else if x < -0x8000_0000_0000_0000 {
      WrapI64IsCongruent(x + U64_LIMIT);
    }
  }

  lemma {:induction false} WrapU64AtMost(x: nat)
    ensures WrapU64(x) <= x
  {
    if x >= U64_LIMIT { WrapU64AtMost(x - U64_LIMIT); }
  }

  /** Truncating a partial sum does not change the truncated sum. */
  lemma {:induction false} WrapU64Add(x: nat, y: nat)
    ensures WrapU64(WrapU64(x) + y) == WrapU64(x + y)
  {
    if x >= U64_LIMIT { WrapU64Add(x - U64_LIMIT, y); }
  }
}
