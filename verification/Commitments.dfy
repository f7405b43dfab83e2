/** Commitments as pairs of value and blinding modulo the group order, and the balance check
    (transaction.go, verifyCommitmentBalance). */
module Commitments {
  import opened Words

  /** The order of the Ristretto group, 2^252 + 27742317777372353535851937790883648493. */
  const ORDER: int := 7237005577332262213973186563042994240857116359379907606001950938285454250989

  type Scalar = x: int | 0 <= x < ORDER

  /** A commitment to a value under a blinding. */
  datatype Commitment = Commitment(value: Scalar, blinding: Scalar)

  // ---------------------------------------------------------------- scalars

  function Add(a: Scalar, b: Scalar): Scalar {
    if a + b >= ORDER then a + b - ORDER else a + b
  }

  function Sub(a: Scalar, b: Scalar): Scalar {
    if a >= b then a - b else a - b + ORDER
  }

  /** A number modulo the order, by repeated subtraction. */
  function Reduce(x: nat): Scalar {
    if x < ORDER then x else Reduce(x - ORDER)
  }

  lemma {:induction false} ReduceAdd(x: nat, y: nat)
    ensures Reduce(x + y) == Add(Reduce(x), Reduce(y))
    decreases x, y
  {
    if x >= ORDER {
      ReduceAdd(x - ORDER, y);
    } else if y >= ORDER {
      ReduceAdd(x, y - ORDER);
    }
  }

  lemma SubZero(a: Scalar, b: Scalar)
    ensures Sub(a, b) == 0 <==> a == b
  {
  }

  lemma AddSub(a: Scalar, b: Scalar)
    ensures Add(b, Sub(a, b)) == a
  {
  }

  lemma AddAssoc(a: Scalar, b: Scalar, c: Scalar)
    ensures Add(Add(a, b), c) == Add(a, Add(b, c)) && Add(a, b) == Add(b, a)
  {
  }

  ghost function Total(s: seq<Scalar>): Scalar {
    if s == [] then 0 else Add(Total(s[..|s| - 1]), s[|s| - 1])
  }

  lemma {:induction false} TotalConcat(s: seq<Scalar>, t: seq<Scalar>)
    ensures Total(s + t) == Add(Total(s), Total(t))
    decreases |t|
  {
    if t == [] {
      assert s + t == s;
    } else {
      var x := t[|t| - 1];
      assert (s + t)[..|s + t| - 1] == s + t[..|t| - 1];
      TotalConcat(s, t[..|t| - 1]);
      AddAssoc(Total(s), Total(t[..|t| - 1]), x);
    }
  }

  lemma TotalOne(x: Scalar)
    ensures Total([x]) == x
  {
    assert [x][..0] == [];
  }

  // ---------------------------------------------------------------- commitments

  function Plus(a: Commitment, b: Commitment): Commitment {
    Commitment(Add(a.value, b.value), Add(a.blinding, b.blinding))
  }

  function Minus(a: Commitment, b: Commitment): Commitment {
    Commitment(Sub(a.value, b.value), Sub(a.blinding, b.blinding))
  }

  predicate IsZero(c: Commitment) { c.value == 0 && c.blinding == 0 }

  /** The public fee, committed to with blinding 0. */
  function FeeCommitment(fee: U64): Commitment { Commitment(fee, 0) }

  ghost function Sum(cs: seq<Commitment>): Commitment {
    if cs == [] then Commitment(0, 0) else Plus(Sum(cs[..|cs| - 1]), cs[|cs| - 1])
  }

  /** Adds commitments up, starting from the first. */
  method AddUp(cs: seq<Commitment>) returns (sum: Commitment)
    requires cs != []
    ensures sum == Sum(cs)
  {
    sum := cs[0];
    assert cs[..1][..0] == [];
    for i := 1 to |cs|
      invariant sum == Sum(cs[..i])
    {
      assert cs[..i + 1][..i] == cs[..i];
      sum := Plus(sum, cs[i]);
    }
    assert cs[..|cs|] == cs;
  }

  /** Inputs minus outputs minus fee is the commitment to nothing. */
  ghost predicate Balanced(pseudo: seq<Commitment>, outputs: seq<Commitment>, fee: U64) {
    Sum(pseudo) == Plus(Sum(outputs), FeeCommitment(fee))
  }

  /** What the balance check accepts. */
  ghost predicate Accepts(pseudo: seq<Commitment>, outputs: seq<Commitment>, fee: U64) {
    pseudo != [] && outputs != [] && Balanced(pseudo, outputs, fee)
  }

  method VerifyBalance(pseudo: seq<Commitment>, outputs: seq<Commitment>, fee: U64) returns (ok: bool)
    ensures ok <==> Accepts(pseudo, outputs, fee)
  {
    if outputs == [] || pseudo == [] { return false; }
    var pseudoSum := AddUp(pseudo);
    var outputSum := AddUp(outputs);
    var outputPlusFee := Plus(outputSum, FeeCommitment(fee));
    SubZero(pseudoSum.value, outputPlusFee.value);
    SubZero(pseudoSum.blinding, outputPlusFee.blinding);
    ok := IsZero(Minus(pseudoSum, outputPlusFee));
  }

  // ---------------------------------------------------------------- openings

  /** What a commitment opens to. */
  datatype Opening = Opening(amount: U64, blinding: Scalar)

  function Committed(o: Opening): Commitment { Commitment(o.amount, o.blinding) }

  function CommittedAll(os: seq<Opening>): (cs: seq<Commitment>)
    ensures |cs| == |os| && forall i :: 0 <= i < |os| ==> cs[i] == Committed(os[i])
  {
    seq(|os|, i requires 0 <= i < |os| => Committed(os[i]))
  }

  ghost function Amounts(os: seq<Opening>): nat {
    if os == [] then 0 else Amounts(os[..|os| - 1]) + os[|os| - 1].amount
  }

  ghost function Blindings(os: seq<Opening>): (bs: seq<Scalar>)
    ensures |bs| == |os| && forall i :: 0 <= i < |os| ==> bs[i] == os[i].blinding
  {
    seq(|os|, i requires 0 <= i < |os| => os[i].blinding)
  }

  /** Commitments add up to the commitment to the sums. */
  lemma {:induction false} SumOpens(os: seq<Opening>)
    ensures Sum(CommittedAll(os)) == Commitment(Reduce(Amounts(os)), Total(Blindings(os)))
  {
    if os != [] {
      var front, o := os[..|os| - 1], os[|os| - 1];
      SumOpens(front);
      assert CommittedAll(os)[..|os| - 1] == CommittedAll(front);
      assert Blindings(os)[..|os| - 1] == Blindings(front);
      ReduceAdd(Amounts(front), o.amount);
    }
  }

  lemma {:induction false} AmountsBound(os: seq<Opening>)
    ensures Amounts(os) <= |os| * (U64_LIMIT - 1)
  {
    if os != [] { AmountsBound(os[..|os| - 1]); }
  }

  /** Openings whose amounts and blindings agree balance. */
  lemma ConservedBalances(pseudo: seq<Opening>, outputs: seq<Opening>, fee: U64)
    requires Amounts(pseudo) == Amounts(outputs) + fee && Total(Blindings(pseudo)) == Total(Blindings(outputs))
    ensures Balanced(CommittedAll(pseudo), CommittedAll(outputs), fee)
  {
    SumOpens(pseudo);
    SumOpens(outputs);
    ReduceAdd(Amounts(outputs), fee);
  }

  /** The check is exact: on lists short enough not to reach the group order, commitments
      balance exactly when the hidden amounts are conserved and the blindings agree. */
  lemma BalanceIsConservation(pseudo: seq<Opening>, outputs: seq<Opening>, fee: U64)
    requires |pseudo| < 0x1_0000_0000 && |outputs| < 0x1_0000_0000
    ensures Balanced(CommittedAll(pseudo), CommittedAll(outputs), fee) <==>
      Amounts(pseudo) == Amounts(outputs) + fee && Total(Blindings(pseudo)) == Total(Blindings(outputs))
  {
    SumOpens(pseudo);
    SumOpens(outputs);
    ReduceAdd(Amounts(outputs), fee);
    AmountsBound(pseudo);
    AmountsBound(outputs);
  }
}
