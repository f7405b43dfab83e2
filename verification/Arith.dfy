/** Nonlinear arithmetic facts, kept apart so that no other proof needs them inline. */
module Arith {
  lemma MulCancel(x: int, y: int, b: int)
    requires b > 0 && x * b < y * b
    ensures x < y
  {
  }

  lemma MulMonotone(x: int, y: int, b: int)
    requires b >= 0 && x <= y
    ensures x * b <= y * b
  {
  }

  lemma MulAdd(x: int, y: int, b: int)
    ensures (x + y) * b == x * b + y * b
  {
  }

  lemma DivMonotone(a: nat, a': nat, b: int)
    requires a <= a' && b >= 1
    ensures a / b <= a' / b
  {
    var q, q' := a / b, a' / b;
    assert a == q * b + a % b;
    assert a' == q' * b + a' % b;
    assert (q' + 1) * b == q' * b + b;
    MulCancel(q, q' + 1, b);
  }

  lemma DivAntitone(a: nat, b: int, c: int)
    requires 1 <= b <= c
    ensures a / b >= a / c
  {
    var q, q' := a / b, a / c;
    assert a == q * b + a % b;
    assert a == q' * c + a % c;
    MulMonotone(b, c, q');
    assert (q + 1) * b == q * b + b;
    MulCancel(q', q + 1, b);
  }

  lemma MulDiv(b: int, q: nat)
    requires b > 0
    ensures (b * q) / b == q
  {
    var d := (b * q) / b;
    assert b * q == d * b + (b * q) % b;
    assert (d + 1) * b == d * b + b;
    assert (q + 1) * b == q * b + b;
    MulCancel(q, d + 1, b);
    MulCancel(d, q + 1, b);
  }

  /** k * x. Like Quotient below it is recursive so that the solver meets a product of two
      variables only where a proof asks for it, through ScaledIsMul. */
  function Scaled(k: nat, x: int): (r: int)
    ensures x >= 0 ==> r >= 0
  {
    if k == 0 then 0 else Scaled(k - 1, x) + x
  }

  lemma {:induction false} ScaledIsMul(k: nat, x: int)
    ensures Scaled(k, x) == k * x
  {
    if k > 0 {
      ScaledIsMul(k - 1, x);
      assert k * x == (k - 1) * x + x;
    }
  }

  lemma ScaledDifference(k: nat, x: int, y: int)
    ensures Scaled(k, y) - Scaled(k, x) == k * (y - x)
  {
    ScaledIsMul(k, x);
    ScaledIsMul(k, y);
    assert k * (y - x) == k * y - k * x;
  }

  /** Integer division. It is recursive so that the solver meets the quotient of two
      variables only where a proof asks for it, through QuotientIsDiv. */
  function Quotient(a: nat, b: nat): (q: nat)
    requires b > 0
    ensures q <= a
  {
    if a < b then 0 else 1 + Quotient(a - b, b)
  }

  lemma {:induction false} QuotientIsDiv(a: nat, b: nat)
    requires b > 0
    ensures Quotient(a, b) == a / b
  {
    if a >= b {
      QuotientIsDiv(a - b, b);
      DivStep(a, b);
    }
  }

  lemma DivStep(a: nat, b: nat)
    requires a >= b > 0
    ensures a / b == 1 + (a - b) / b
  {
    var q := (a - b) / b;
    assert a - b == q * b + (a - b) % b;
    assert (q + 1) * b == q * b + b;
    assert (q + 2) * b == (q + 1) * b + b;
    MulCancel(a / b, q + 2, b);
    MulCancel(q, a / b, b);
  }
}
