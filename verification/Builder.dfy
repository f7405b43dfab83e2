/** Building payments (wallet/builder.go): amounts, change, blindings and fees, and the lease
    on the inputs while a payment is being built. */
module Builder {
  import opened Words
  import opened Blocks
  import opened Arith
  import opened Seqs
  import opened WalletModel
  import opened Commitments
  import opened Wallet
  import Bytes
  import CoinSelect
  import Leases
  import Wire

  /** What the cryptographic callbacks deliver: the blinding derived for each output, the random
      draws, and whether all of them succeed. */
  datatype Crypto = Crypto(derived: nat -> Scalar, drawn: nat -> Scalar, works: bool)

  datatype Config = Config(ringSize: nat, minFee: U64)

  datatype Error =
    | NoRecipients | NoInputs | TooManyInputs | Overflow | InsufficientFunds | CryptoFailed | NotReserved(reason: Denial)

  /** A finished payment, with the openings behind its commitments. */
  datatype Payment = Payment(
    inputs: seq<Output>, pseudo: seq<Opening>, outputs: seq<Opening>, fee: U64, change: U64, lease: nat)

  datatype Result = Built(payment: Payment) | Failed(error: Error)

  const SWEEP_LIMIT: nat := 256
  const LEASE_TTL: int := 120
  const ATTEMPTS: nat := 4

  // ---------------------------------------------------------------- sums

  /** Adds up amounts, failing on 64-bit overflow. */
  method CheckedSum(amounts: seq<U64>) returns (total: Option<U64>)
    ensures total == if Seqs.Sum(amounts) < U64_LIMIT then Some(Seqs.Sum(amounts)) else None
  {
    var n: U64 := 0;
    for i := 0 to |amounts|
      invariant n == Seqs.Sum(amounts[..i])
    {
      assert amounts[..i + 1][..i] == amounts[..i];
      if n + amounts[i] >= U64_LIMIT {
        SumConcat(amounts[..i + 1], amounts[i + 1..]);
        assert amounts[..i + 1] + amounts[i + 1..] == amounts;
        return None;
      }
      n := n + amounts[i];
    }
    assert amounts[..|amounts|] == amounts;
    return Some(n);
  }

  function InputAmounts(inputs: seq<Output>): (amounts: seq<U64>)
    ensures |amounts| == |inputs| && forall i :: 0 <= i < |inputs| ==> amounts[i] == inputs[i].amount
  {
    seq(|inputs|, i requires 0 <= i < |inputs| => inputs[i].amount)
  }

  lemma {:induction false} InputSum(inputs: seq<Output>)
    ensures Seqs.Sum(InputAmounts(inputs)) == AmountSum(inputs)
  {
    if inputs != [] {
      InputSum(inputs[..|inputs| - 1]);
      assert InputAmounts(inputs)[..|inputs| - 1] == InputAmounts(inputs[..|inputs| - 1]);
    }
  }

  // ---------------------------------------------------------------- change

  /** How many outputs the change is split into. */
  function ChangeCount(change: U64, split: int): (n: nat)
    ensures n <= change && (change > 0 ==> n > 0)
  {
    if split < 1 then (if change == 0 then 0 else 1) else if split > change then change else split
  }

  method Divide(a: nat, n: nat) returns (q: nat, r: nat)
    requires 0 < n <= a
    ensures a == Scaled(n, q) + r && r < n && 0 < q && q + r <= a
  {
    q, r := a / n, a % n;
    ScaledIsMul(n, q);
    DivAntitone(a, n, a);
    MulMonotone(1, n, q);
  }

  /** Splits the change into positive parts that differ only in the first, by less than their number. */
  method SplitChange(change: U64, split: int) returns (parts: seq<U64>)
    ensures |parts| == ChangeCount(change, split) && Seqs.Sum(parts) == change
    ensures |parts| == if change == 0 then 0 else if split <= 1 then 1 else if change < split then change else split
    ensures forall i :: 0 <= i < |parts| ==> 0 < parts[i] && parts[i] <= parts[0] < parts[i] + |parts|
  {
    parts := [];
    if change == 0 { return; }
    var n := ChangeCount(change, split);
    var each, rest := Divide(change, n);
    for c := 0 to n
      invariant |parts| == c && Seqs.Sum(parts) == Scaled(c, each) + if c == 0 then 0 else rest
      invariant forall i :: 0 <= i < c ==> parts[i] == if i == 0 then each + rest else each
    {
      var amount := if c == 0 then each + rest else each;
      SumAppend(parts, amount);
      parts := parts + [amount];
    }
  }

  // ---------------------------------------------------------------- blindings

  method SumBlindings(bs: seq<Scalar>) returns (sum: Scalar)
    ensures sum == Total(bs)
  {
    if bs == [] { return 0; }
    sum := bs[0];
    assert bs[..1] == [bs[0]];
    TotalOne(bs[0]);
    for i := 1 to |bs|
      invariant sum == Total(bs[..i])
    {
      assert bs[..i + 1][..i] == bs[..i];
      sum := Commitments.Add(sum, bs[i]);
    }
    assert bs[..|bs|] == bs;
  }

  /** Blindings for the pseudo-outputs: all but the last are drawn, and they sum to the target. */
  method DistributeBlindings(target: Scalar, count: nat, drawn: nat -> Scalar) returns (bs: seq<Scalar>)
    ensures |bs| == count && (count > 0 ==> Total(bs) == target)
    ensures forall i :: 0 <= i < count - 1 ==> bs[i] == drawn(i)
  {
    bs := [];
    if count == 0 { return; }
    var sum: Scalar := 0;
    for i := 0 to count - 1
      invariant |bs| == i && sum == Total(bs) && forall k :: 0 <= k < i ==> bs[k] == drawn(k)
    {
      assert (bs + [drawn(i)])[..i] == bs;
      bs := bs + [drawn(i)];
      sum := Commitments.Add(sum, drawn(i));
    }
    assert (bs + [Sub(target, sum)])[..count - 1] == bs;
    AddSub(target, sum);
    bs := bs + [Sub(target, sum)];
  }

  /** Opens amounts with blindings. */
  method OpenAll(amounts: seq<U64>, bs: seq<Scalar>) returns (os: seq<Opening>)
    requires |bs| == |amounts|
    ensures |os| == |amounts| && forall i :: 0 <= i < |os| ==> os[i] == Opening(amounts[i], bs[i])
    ensures Amounts(os) == Seqs.Sum(amounts) && Blindings(os) == bs
  {
    os := [];
    for i := 0 to |amounts|
      invariant |os| == i && forall k :: 0 <= k < i ==> os[k] == Opening(amounts[k], bs[k])
      invariant Amounts(os) == Seqs.Sum(amounts[..i])
    {
      assert (os + [Opening(amounts[i], bs[i])])[..i] == os && amounts[..i + 1][..i] == amounts[..i];
      os := os + [Opening(amounts[i], bs[i])];
    }
    assert amounts[..|amounts|] == amounts;
  }

  /** Commits to the outputs with derived blindings, and to the inputs with blindings that balance them. */
  method Assemble(inputs: seq<U64>, outputs: seq<U64>, crypto: Crypto) returns (pseudo: seq<Opening>, os: seq<Opening>)
    ensures |os| == |outputs| && forall i :: 0 <= i < |os| ==> os[i] == Opening(outputs[i], crypto.derived(i))
    ensures |pseudo| == |inputs| && forall i :: 0 <= i < |pseudo| ==> pseudo[i].amount == inputs[i]
    ensures Amounts(pseudo) == Seqs.Sum(inputs) && Amounts(os) == Seqs.Sum(outputs)
    ensures inputs != [] ==> Total(Blindings(pseudo)) == Total(Blindings(os))
  {
    var derived := seq(|outputs|, i requires 0 <= i < |outputs| => crypto.derived(i));
    os := OpenAll(outputs, derived);
    var total := SumBlindings(derived);
    var balancing := DistributeBlindings(total, |inputs|, crypto.drawn);
    pseudo := OpenAll(inputs, balancing);
  }

  // ---------------------------------------------------------------- the shared core

  /** The payment spends exactly these inputs, pays every recipient in order, returns the rest in
      positive change outputs, and balances. */
  ghost predicate Sound(p: Payment, inputs: seq<Output>, recipients: seq<U64>) {
    && p.inputs == inputs && AmountSum(inputs) == Seqs.Sum(recipients) + p.change + p.fee
    && |p.pseudo| == |inputs| && (forall i :: 0 <= i < |inputs| ==> p.pseudo[i].amount == inputs[i].amount)
    && |p.outputs| >= |recipients| && (forall i :: 0 <= i < |recipients| ==> p.outputs[i].amount == recipients[i])
    && Amounts(p.outputs) == Seqs.Sum(recipients) + p.change
    && (forall i :: |recipients| <= i < |p.outputs| ==> p.outputs[i].amount > 0)
    && (inputs != [] && p.outputs != [] ==> Accepts(CommittedAll(p.pseudo), CommittedAll(p.outputs), p.fee))
  }

  /** The amounts allow the payment: no sum overflows, and the inputs cover it. */
  ghost predicate Affordable(inputs: seq<Output>, recipients: seq<U64>, fee: U64) {
    AmountSum(inputs) < U64_LIMIT && Seqs.Sum(recipients) + fee < U64_LIMIT && AmountSum(inputs) >= Seqs.Sum(recipients) + fee
  }

  /** What stands against the payment first. */
  ghost function WhyNot(inputs: seq<Output>, recipients: seq<U64>, fee: U64): Error {
    if AmountSum(inputs) >= U64_LIMIT || Seqs.Sum(recipients) + fee >= U64_LIMIT then Overflow
    else if AmountSum(inputs) < Seqs.Sum(recipients) + fee then InsufficientFunds
    else CryptoFailed
  }

  method BuildTransaction(inputs: seq<Output>, recipients: seq<U64>, totalSend: U64, fee: U64, lease: nat, split: int, crypto: Crypto)
    returns (r: Result)
    requires totalSend == Seqs.Sum(recipients)
    ensures r.Built? <==> crypto.works && Affordable(inputs, recipients, fee)
    ensures r.Failed? ==> r.error == WhyNot(inputs, recipients, fee)
    ensures r.Built? ==>
      && Sound(r.payment, inputs, recipients) && r.payment.fee == fee && r.payment.lease == lease
      && |r.payment.outputs| == |recipients| + ChangeCount(r.payment.change, split)
  {
    var change, error := Change(inputs, totalSend, fee, recipients);
    if change.None? { return Failed(error); }
    if !crypto.works { return Failed(CryptoFailed); }
    var parts := SplitChange(change.value, split);
    SumConcat(recipients, parts);
    InputSum(inputs);
    var pseudo, outputs := Assemble(InputAmounts(inputs), recipients + parts, crypto);
    if inputs != [] { ConservedBalances(pseudo, outputs, fee); }
    r := Built(Payment(inputs, pseudo, outputs, fee, change.value, lease));
  }

  /** What the inputs leave beyond the recipients and the fee. */
  method Change(inputs: seq<Output>, totalSend: U64, fee: U64, ghost recipients: seq<U64>) returns (change: Option<U64>, error: Error)
    requires totalSend == Seqs.Sum(recipients)
    ensures change.Some? <==> Affordable(inputs, recipients, fee)
    ensures change.Some? ==> change.value == AmountSum(inputs) - totalSend - fee
    ensures change.None? ==> error == WhyNot(inputs, recipients, fee)
  {
    InputSum(inputs);
    var totalInput := CheckedSum(InputAmounts(inputs));
    if totalInput.None? { return None, Overflow; }
    if totalSend + fee >= U64_LIMIT { return None, Overflow; }
    if totalInput.value < totalSend + fee { return None, InsufficientFunds; }
    return Some(totalInput.value - totalSend - fee), Overflow;
  }

  // ---------------------------------------------------------------- fees

  const OUTPUT_ESTIMATE: nat := 32 + 32 + 8 + 128 + 4 + 1024

  function InputEstimate(ring: nat): nat {
    32 + 32 + 4 + ring * 32 + ring * 32 + 4 + (96 + 64 * ring)
  }

  function EstimateSize(inputs: nat, outputs: nat, ring: nat): nat {
    1 + 32 + 4 + 4 + 8 + outputs * OUTPUT_ESTIMATE + Scaled(inputs, InputEstimate(ring))
  }

  function RequiredFee(config: Config, size: nat, rate: U64): U64 {
    var fee := WrapU64(Scaled(size, rate));
    if fee > config.minFee then fee else config.minFee
  }

  ghost function FeeFor(config: Config, inputs: nat, outputs: nat, rate: U64): U64 {
    RequiredFee(config, EstimateSize(inputs, outputs, config.ringSize), rate)
  }

  /** In numbers: the rate on the bytes estimated, modulo 2^64, or the least fee if that is more. */
  lemma FeeForIs(config: Config, inputs: nat, outputs: nat, rate: U64)
    ensures var bytes := 49 + outputs * 1228 + inputs * (168 + 128 * config.ringSize);
      var product := bytes * rate % 0x1_0000_0000_0000_0000;
      FeeFor(config, inputs, outputs, rate) == if product > config.minFee then product else config.minFee
  {
    var size := EstimateSize(inputs, outputs, config.ringSize);
    EstimateIs(inputs, outputs, config.ringSize);
    ScaledIsMul(size, rate);
    WrapU64IsMod(Scaled(size, rate));
  }

  /** The required fee covers the rate exactly when the product fits in 64 bits. */
  lemma FeeCovers(config: Config, size: nat, rate: U64)
    ensures RequiredFee(config, size, rate) >= size * rate <==> size * rate < U64_LIMIT
  {
    ScaledIsMul(size, rate);
  }

  /** More outputs never need a smaller estimate. */
  lemma EstimateMonotone(inputs: nat, outputs: nat, more: nat, ring: nat, rate: nat)
    requires outputs <= more
    ensures EstimateSize(inputs, outputs, ring) * rate <= EstimateSize(inputs, more, ring) * rate
  {
    MulMonotone(EstimateSize(inputs, outputs, ring), EstimateSize(inputs, more, ring), rate);
  }

  lemma {:induction false} ManyAtMost<T>(encode: T -> seq<Bytes.Byte>, xs: seq<T>, most: nat)
    requires forall i :: 0 <= i < |xs| ==> |encode(xs[i])| <= most
    ensures |Wire.EncodeMany(encode, xs)| <= Scaled(|xs|, most)
  {
    if xs != [] { ManyAtMost(encode, xs[..|xs| - 1], most); }
  }

  /** Rings of the configured size, signatures to match, and range proofs of at most 1024 bytes. */
  ghost predicate Ordinary(tx: Wire.Transaction, ring: nat) {
    && (forall i :: 0 <= i < |tx.inputs| ==> |tx.inputs[i].ringMembers| == |tx.inputs[i].ringCommitments| == ring && |tx.inputs[i].signature| == 96 + 64 * ring)
    && (forall i :: 0 <= i < |tx.outputs| ==> |tx.outputs[i].rangeProof| <= 1024)
  }

  /** The estimate is never below the length of the serialized transaction. */
  lemma EstimateCovers(tx: Wire.Transaction, ring: nat)
    requires Ordinary(tx, ring)
    ensures |Wire.Encode(tx)| <= EstimateSize(|tx.inputs|, |tx.outputs|, ring)
  {
    forall i | 0 <= i < |tx.outputs| ensures |Wire.EncodeOutput(tx.outputs[i])| <= OUTPUT_ESTIMATE { Wire.OutputSize(tx.outputs[i]); }
    forall i | 0 <= i < |tx.inputs| ensures |Wire.EncodeInput(tx.inputs[i])| <= InputEstimate(ring) { Wire.InputSize(tx.inputs[i]); }
    ManyAtMost(Wire.EncodeOutput, tx.outputs, OUTPUT_ESTIMATE);
    ManyAtMost(Wire.EncodeInput, tx.inputs, InputEstimate(ring));
    ScaledIsMul(|tx.outputs|, OUTPUT_ESTIMATE);
  }

  lemma {:induction false} ManyExactly<T>(encode: T -> seq<Bytes.Byte>, xs: seq<T>, each: nat)
    requires forall i :: 0 <= i < |xs| ==> |encode(xs[i])| == each
    ensures |Wire.EncodeMany(encode, xs)| == Scaled(|xs|, each)
  {
    if xs != [] { ManyExactly(encode, xs[..|xs| - 1], each); }
  }

  /** ... and is that length when every range proof takes all of its 1024 bytes. */
  lemma EstimateExact(tx: Wire.Transaction, ring: nat)
    requires Ordinary(tx, ring) && forall i :: 0 <= i < |tx.outputs| ==> |tx.outputs[i].rangeProof| == 1024
    ensures |Wire.Encode(tx)| == EstimateSize(|tx.inputs|, |tx.outputs|, ring)
  {
    forall i | 0 <= i < |tx.outputs| ensures |Wire.EncodeOutput(tx.outputs[i])| == OUTPUT_ESTIMATE { Wire.OutputSize(tx.outputs[i]); }
    forall i | 0 <= i < |tx.inputs| ensures |Wire.EncodeInput(tx.inputs[i])| == InputEstimate(ring) { Wire.InputSize(tx.inputs[i]); }
    ManyExactly(Wire.EncodeOutput, tx.outputs, OUTPUT_ESTIMATE);
    ManyExactly(Wire.EncodeInput, tx.inputs, InputEstimate(ring));
    ScaledIsMul(|tx.outputs|, OUTPUT_ESTIMATE);
  }

  /** A fee at the estimate meets the rate on the bytes sent, which is what the mempool measures. */
  lemma RateOnBytes(tx: Wire.Transaction, ring: nat, rate: nat)
    requires Ordinary(tx, ring) && tx.fee >= EstimateSize(|tx.inputs|, |tx.outputs|, ring) * rate
    ensures |Wire.Encode(tx)| > 0 && tx.fee / |Wire.Encode(tx)| >= rate
  {
    EstimateCovers(tx, ring);
    var n := |Wire.Encode(tx)|;
    MulMonotone(n, EstimateSize(|tx.inputs|, |tx.outputs|, ring), rate);
    DivMonotone(n * rate, tx.fee, n);
    assert (n * rate) / n == rate by { MulDiv(n, rate); }
  }

  // ---------------------------------------------------------------- payments and their leases

  ghost predicate Clock(times: seq<int>) {
    |times| == ATTEMPTS && forall i, j :: 0 <= i < j < |times| ==> times[i] <= times[j]
  }

  /** The reservations once k attempts have been given back: only expired ones are gone. */
  ghost function Swept(reserved: Leases.Reserved, times: seq<int>, k: nat): Leases.Reserved
    requires k <= |times|
  {
    if k == 0 then reserved else Leases.Live(reserved, times[k - 1])
  }

  /** Since s0 the wallet has reserved exactly these inputs, at time t under a new lease. */
  ghost predicate Holds(s0: Leases.State, s: Leases.State, inputs: seq<Output>, lease: nat, t: int, height: nat) {
    && lease > s0.nextLease
    && Leases.Next(s0.(nextLease := lease - 1), Leases.Reserve(t, height, t + LEASE_TTL, Points(inputs)), s)
  }

  lemma HoldsNow(s0: Leases.State, s: Leases.State, s': Leases.State, inputs: seq<Output>, times: seq<int>, k: nat, height: nat)
    requires Clock(times) && k < |times| && s == Leases.State(s0.outputs, Swept(s0.reserved, times, k), s.nextLease) && s.nextLease >= s0.nextLease
    requires Leases.Next(s, Leases.Reserve(times[k], height, times[k] + LEASE_TTL, Points(inputs)), s')
    ensures Holds(s0, s', inputs, s.nextLease + 1, times[k], height)
  {
    if k > 0 { Leases.LiveTwice(s0.reserved, times[k - 1], times[k]); }
  }

  lemma GivenBack(s0: Leases.State, s: Leases.State, s': Leases.State, inputs: seq<Output>, t: int, height: nat)
    requires Leases.Known(s0) && Holds(s0, s, inputs, s.nextLease, t, height) && Leases.Next(s, Leases.Release(s.nextLease), s')
    ensures s' == Leases.State(s0.outputs, Leases.Live(s0.reserved, t), s.nextLease)
  {
    Leases.ReleaseUndoesReserve(s0.(nextLease := s.nextLease - 1), Leases.Reserve(t, height, t + LEASE_TTL, Points(inputs)), s, s');
  }

  /** After k attempts the wallet holds the inputs of the last one, or nothing new if there was none. */
  ghost predicate Holding(s0: Leases.State, s: Leases.State, inputs: seq<Output>, lease: nat, times: seq<int>, k: nat, height: nat)
    requires k <= |times|
  {
    if k == 0 then lease == 0 && s == s0 else lease == s.nextLease && Holds(s0, s, inputs, lease, times[k - 1], height)
  }

  /** Gives the lease of the last attempt back. */
  method GiveBack(w: Wallet, lease: nat, ghost s0: Leases.State, ghost inputs: seq<Output>, ghost times: seq<int>, ghost k: nat, ghost height: nat)
    requires w.Valid() && Leases.Known(s0) && k <= |times| && Holding(s0, w.Abs(), inputs, lease, times, k, height)
    modifies w`reserved
    ensures w.Valid() && w.reserved == Swept(s0.reserved, times, k)
  {
    ghost var s := w.Abs();
    w.ReleaseInputLease(lease);
    if k > 0 { GivenBack(s0, s, w.Abs(), inputs, times[k - 1], height); }
  }

  /** The lists of exactly the outputs that may be handed out. */
  ghost function Listings(os: seq<Output>, height: nat, live: Leases.Reserved, filtered: set<Outpoint>): iset<seq<Output>> {
    iset c | AreUsable(c, os, height, live, filtered)
  }

  /** How coin selection on the candidates may turn out. */
  ghost function Decisions(c: seq<Output>, need: U64): iset<(Option<CoinSelect.Error>, seq<Output>)> {
    iset d: (Option<CoinSelect.Error>, seq<Output>) | Decided(c, need, d.0, d.1)
  }

  /** Gives back what attempt k holds and reserves inputs for the amount needed. */
  method Reselect(w: Wallet, held: nat, need: U64, now: int, height: nat, filtered: set<Outpoint>,
                  ghost s0: Leases.State, ghost inputs0: seq<Output>, ghost times: seq<int>, ghost k: nat)
    returns (grant: Grant, ghost c: seq<Output>)
    requires w.Valid() && Leases.Known(s0)
    requires Clock(times) && k < |times| && now == times[k] && Holding(s0, w.Abs(), inputs0, held, times, k, height)
    modifies w`reserved, w`nextLease
    ensures w.Valid()
    ensures c in Listings(w.outputs, height, Leases.Live(s0.reserved, now), filtered)
    ensures grant.Denied? ==>
      && w.reserved == Swept(s0.reserved, times, k + 1)
      && grant.reason.Selection? && (Some(grant.reason.error), []) in Decisions(c, need)
    ensures grant.Granted? ==>
      && Holding(s0, w.Abs(), grant.inputs, grant.lease, times, k + 1, height)
      && (None, grant.inputs) in Decisions(c, need)
      && AmountSum(grant.inputs) >= need && 0 < |grant.inputs| <= SWEEP_LIMIT
      && forall o :: o in grant.inputs ==> o in w.outputs && o.point !in filtered
  {
    GiveBack(w, held, s0, inputs0, times, k, height);
    ghost var s := w.Abs();
    if k > 0 { Leases.LiveTwice(s0.reserved, times[k - 1], times[k]); }
    grant, c := w.ReserveMatureInputs(height, need, LEASE_TTL, now, filtered);
    if grant.Granted? { HoldsNow(s0, s, w.Abs(), grant.inputs, times, k, height); }
  }

  /** Enough is paid for the outputs counted, and counting again at this fee finds no more. */
  ghost predicate FeeCounted(config: Config, inputs: seq<Output>, totalSend: U64, recipients: nat, fee: U64, rate: U64, counted: nat) {
    && fee >= RequiredFee(config, EstimateSize(|inputs|, counted, config.ringSize), rate)
    && counted <= recipients + 1 && (AmountSum(inputs) > totalSend + fee ==> counted == recipients + 1) && counted >= recipients
  }

  /** The fee covers the rate on the estimate for the payment as built, unless the product overflows. */
  ghost predicate PaysRate(config: Config, p: Payment, rate: U64, counted: nat) {
    EstimateSize(|p.inputs|, counted, config.ringSize) * rate < U64_LIMIT ==>
      p.fee >= EstimateSize(|p.inputs|, |p.outputs|, config.ringSize) * rate
  }

  /** The transaction sent carries the payment: its fee, and an input and an output for each of
      the payment's, of ordinary form. */
  ghost predicate Carries(tx: Wire.Transaction, p: Payment, ring: nat) {
    |tx.inputs| == |p.inputs| && |tx.outputs| == |p.outputs| && tx.fee == p.fee && Ordinary(tx, ring)
  }

  /** A payment built at a rate passes the mempool's test at that rate on the bytes sent. */
  lemma PaymentMeetsRate(config: Config, p: Payment, tx: Wire.Transaction, rate: U64, counted: nat)
    requires PaysRate(config, p, rate, counted) && Carries(tx, p, config.ringSize)
    requires EstimateSize(|p.inputs|, counted, config.ringSize) * rate < U64_LIMIT
    ensures |Wire.Encode(tx)| > 0 && tx.fee / |Wire.Encode(tx)| >= rate
  {
    RateOnBytes(tx, config.ringSize, rate);
  }

  lemma CountedPays(config: Config, p: Payment, rate: U64, counted: nat)
    requires p.fee >= RequiredFee(config, EstimateSize(|p.inputs|, counted, config.ringSize), rate) && |p.outputs| <= counted
    ensures PaysRate(config, p, rate, counted) && p.fee >= config.minFee
  {
    FeeCovers(config, EstimateSize(|p.inputs|, counted, config.ringSize), rate);
    EstimateMonotone(|p.inputs|, |p.outputs|, counted, config.ringSize, rate);
  }

  // ---------------------------------------------------------------- settling the fee

  /** One attempt: the inputs chosen among the candidates to pay the recipients and this fee. */
  datatype Attempt = Attempt(candidates: seq<Output>, inputs: seq<Output>, fee: U64)

  /** The fee an attempt calls for: the one required for its inputs and outputs, with a change output
      if there is change. */
  ghost function CallsFor(config: Config, inputs: seq<Output>, fee: U64, totalSend: nat, recipients: nat, rate: U64): nat {
    FeeFor(config, |inputs|, if AmountSum(inputs) > totalSend + fee then recipients + 1 else recipients, rate)
  }

  /** The fee after these attempts: the first one is chosen for the least fee, each later one for
      what the one before called for beyond its own fee. */
  ghost predicate Climbs(config: Config, tries: seq<Attempt>, totalSend: nat, recipients: nat, rate: U64, fee: nat) {
    if tries == [] then fee == config.minFee
    else
      var init, last := tries[..|tries| - 1], tries[|tries| - 1];
      && Climbs(config, init, totalSend, recipients, rate, last.fee)
      && (init != [] ==> last.fee > init[|init| - 1].fee)
      && AmountSum(last.inputs) >= totalSend + last.fee
      && var calls := CallsFor(config, last.inputs, last.fee, totalSend, recipients, rate);
         fee == if calls > last.fee then calls else last.fee
  }

  /** The fee is settled: the last attempt calls for no more, or there have been four. */
  ghost predicate IsSettled(tries: seq<Attempt>, fee: nat) {
    tries != [] && (|tries| == 4 || fee == tries[|tries| - 1].fee)
  }

  /** In numbers: the rate on the bytes estimated, modulo 2^64, or the least fee if that is more. */
  lemma CallsForIs(config: Config, inputs: seq<Output>, fee: U64, totalSend: nat, recipients: nat, rate: U64)
    ensures var outputs := if AmountSum(inputs) > totalSend + fee then recipients + 1 else recipients;
      var bytes := 49 + outputs * 1228 + |inputs| * (168 + 128 * config.ringSize);
      var product := bytes * rate % 0x1_0000_0000_0000_0000;
      CallsFor(config, inputs, fee, totalSend, recipients, rate) == if product > config.minFee then product else config.minFee
  {
    FeeForIs(config, |inputs|, if AmountSum(inputs) > totalSend + fee then recipients + 1 else recipients, rate);
  }

  lemma EstimateIs(inputs: nat, outputs: nat, ring: nat)
    ensures EstimateSize(inputs, outputs, ring) == 49 + outputs * 1228 + inputs * (168 + 128 * ring)
  {
    ScaledIsMul(inputs, InputEstimate(ring));
    assert InputEstimate(ring) == 168 + 128 * ring;
  }

  /** What the settled fee is: the least fee, or what one of the attempts called for. */
  lemma {:induction false} FeeIsCalledFor(config: Config, tries: seq<Attempt>, totalSend: nat, recipients: nat, rate: U64, fee: nat)
    requires Climbs(config, tries, totalSend, recipients, rate, fee)
    ensures fee == config.minFee || exists i :: 0 <= i < |tries| && fee == CallsFor(config, tries[i].inputs, tries[i].fee, totalSend, recipients, rate)
  {
    if tries != [] {
      var init, last := tries[..|tries| - 1], tries[|tries| - 1];
      FeeIsCalledFor(config, init, totalSend, recipients, rate, last.fee);
      if fee == last.fee && last.fee != config.minFee {
        var i :| 0 <= i < |init| && last.fee == CallsFor(config, init[i].inputs, init[i].fee, totalSend, recipients, rate);
        assert fee == CallsFor(config, tries[i].inputs, tries[i].fee, totalSend, recipients, rate);
      } else if fee != last.fee {
        assert fee == CallsFor(config, tries[|tries| - 1].inputs, tries[|tries| - 1].fee, totalSend, recipients, rate);
      }
    }
  }

  /** No attempt calls for more than the fee in the end. */
  lemma {:induction false} FeeSuffices(config: Config, tries: seq<Attempt>, totalSend: nat, recipients: nat, rate: U64, fee: nat, i: nat)
    requires Climbs(config, tries, totalSend, recipients, rate, fee) && i < |tries|
    ensures CallsFor(config, tries[i].inputs, tries[i].fee, totalSend, recipients, rate) <= fee
  {
    var init, last := tries[..|tries| - 1], tries[|tries| - 1];
    if i < |init| { FeeSuffices(config, init, totalSend, recipients, rate, last.fee, i); }
  }

  /** The fee for one more attempt, and whether the last one already paid it. */
  method NextFee(config: Config, inputs: seq<Output>, totalSend: U64, recipients: nat, fee: U64, rate: U64)
    returns (next: Option<U64>, settled: bool, ghost counted: nat)
    requires AmountSum(inputs) >= totalSend + fee && fee >= config.minFee
    ensures next.Some? <==> AmountSum(inputs) < U64_LIMIT
    ensures next.Some? ==> next.value >= fee && (settled <==> next.value == fee) && FeeCounted(config, inputs, totalSend, recipients, next.value, rate, counted)
    ensures next.Some? ==> var calls := CallsFor(config, inputs, fee, totalSend, recipients, rate);
      next.value == if calls > fee then calls else fee
  {
    InputSum(inputs);
    var total := CheckedSum(InputAmounts(inputs));
    if total.None? { return None, false, 0; }
    var outputCount := if total.value - totalSend - fee > 0 then recipients + 1 else recipients;
    var required := RequiredFee(config, EstimateSize(|inputs|, outputCount, config.ringSize), rate);
    return Some(if required <= fee then fee else required), required <= fee, outputCount;
  }

  /** A payment to be made: when the attempts happen, and what may not be used for it. */
  datatype Request = Request(config: Config, recipients: seq<U64>, rate: U64, height: nat, times: seq<int>, filtered: set<Outpoint>)

  /** Attempt number k chose among exactly what was usable then. */
  ghost predicate ChosenFor(q: Request, s0: Leases.State, a: Attempt, k: nat) {
    && k < |q.times| && Seqs.Sum(q.recipients) + a.fee < U64_LIMIT
    && a.candidates in Listings(s0.outputs, q.height, Leases.Live(s0.reserved, q.times[k]), q.filtered)
    && (None, a.inputs) in Decisions(a.candidates, Seqs.Sum(q.recipients) + a.fee)
  }

  ghost predicate AllChosen(q: Request, s0: Leases.State, tries: seq<Attempt>) {
    forall i: nat {:trigger ChosenFor(q, s0, tries[i], i)} :: i < |tries| ==> ChosenFor(q, s0, tries[i], i)
  }

  /** Coin selection was refused for this fee at attempt number k. */
  ghost predicate RefusedFor(q: Request, s0: Leases.State, c: seq<Output>, fee: nat, k: nat, error: CoinSelect.Error) {
    && k < |q.times| && Seqs.Sum(q.recipients) + fee < U64_LIMIT
    && c in Listings(s0.outputs, q.height, Leases.Live(s0.reserved, q.times[k]), q.filtered)
    && (Some(error), []) in Decisions(c, Seqs.Sum(q.recipients) + fee)
  }

  /** The attempts so far, and the fee for the next one or for the payment. */
  ghost predicate Trail(q: Request, s0: Leases.State, tries: seq<Attempt>, fee: nat) {
    && |tries| <= 4 && Climbs(q.config, tries, Seqs.Sum(q.recipients), |q.recipients|, q.rate, fee)
    && AllChosen(q, s0, tries)
  }

  ghost function Choices(q: Request, s0: Leases.State, k: nat): iset<Attempt> {
    iset a | ChosenFor(q, s0, a, k)
  }

  ghost function Refusals(q: Request, s0: Leases.State, fee: nat, k: nat): iset<Denial> {
    iset d: Denial | d.Selection? && exists c :: RefusedFor(q, s0, c, fee, k, d.error)
  }

  /** The fee that these attempts lead to. */
  ghost function Fees(q: Request, s0: Leases.State, tries: seq<Attempt>): iset<nat> {
    iset f | Trail(q, s0, tries, f)
  }

  /** What is chosen for this fee at attempt number k adds up to more than 64 bits hold. */
  ghost predicate TooMuch(q: Request, s0: Leases.State, fee: nat, k: nat) {
    k < 4 && exists a :: a in Choices(q, s0, k) && a.fee == fee && AmountSum(a.inputs) >= U64_LIMIT
  }

  /** Why a transfer fails: no recipients; a sum that overflows; inputs that cannot be had for some
      attempt; inputs that no longer cover the fee after the fourth; or the cryptography. */
  ghost predicate Fails(error: Error, q: Request, s0: Leases.State, tries: seq<Attempt>, fee: nat, crypto: Crypto) {
    var totalSend := Seqs.Sum(q.recipients);
    match error
    case NoRecipients => q.recipients == []
    case Overflow =>
      || totalSend >= U64_LIMIT
      || (fee in Fees(q, s0, tries) && (totalSend + fee >= U64_LIMIT || TooMuch(q, s0, fee, |tries|)))
    case NotReserved(reason) =>
      fee in Fees(q, s0, tries) && |tries| < 4 && reason in Refusals(q, s0, fee, |tries|)
    case InsufficientFunds =>
      fee in Fees(q, s0, tries) && |tries| == 4 && AmountSum(tries[3].inputs) < totalSend + fee
    case CryptoFailed => !crypto.works && fee in Fees(q, s0, tries) && IsSettled(tries, fee)
    case _ => false
  }

  ghost function Failures(q: Request, s0: Leases.State, tries: seq<Attempt>, fee: nat, crypto: Crypto): iset<Error> {
    iset e | Fails(e, q, s0, tries, fee, crypto)
  }

  /** After these attempts the wallet holds the inputs of the last one for the request. */
  ghost predicate Underway(q: Request, s0: Leases.State, s: Leases.State, tries: seq<Attempt>, lease: nat, inputs: seq<Output>, fee: U64) {
    && |tries| <= |q.times| && fee in Fees(q, s0, tries) && fee >= q.config.minFee
    && Holding(s0, s, inputs, lease, q.times, |tries|, q.height)
    && (tries != [] ==> inputs == tries[|tries| - 1].inputs && 0 < |inputs| <= SWEEP_LIMIT)
    && (forall o :: o in inputs ==> o in s0.outputs && o.point !in q.filtered)
  }

  /** Enough is paid for some count of outputs that the payment will not exceed. */
  ghost predicate IsCounted(q: Request, inputs: seq<Output>, fee: U64) {
    AmountSum(inputs) < U64_LIMIT && Seqs.Sum(q.recipients) < U64_LIMIT &&
    exists n :: FeeCounted(q.config, inputs, Seqs.Sum(q.recipients), |q.recipients|, fee, q.rate, n)
  }

  lemma ChosenStep(q: Request, s0: Leases.State, tries: seq<Attempt>, a: Attempt)
    requires AllChosen(q, s0, tries) && a in Choices(q, s0, |tries|)
    ensures AllChosen(q, s0, tries + [a])
  {
    var more := tries + [a];
    forall i: nat | i < |more| ensures ChosenFor(q, s0, more[i], i) {
      if i < |tries| { assert ChosenFor(q, s0, tries[i], i); }
    }
  }

  lemma ClimbsStep(config: Config, tries: seq<Attempt>, a: Attempt, totalSend: nat, recipients: nat, rate: U64, next: nat)
    requires Climbs(config, tries, totalSend, recipients, rate, a.fee) && AmountSum(a.inputs) >= totalSend + a.fee
    requires tries != [] ==> a.fee > tries[|tries| - 1].fee
    requires var calls := CallsFor(config, a.inputs, a.fee, totalSend, recipients, rate); next == if calls > a.fee then calls else a.fee
    ensures Climbs(config, tries + [a], totalSend, recipients, rate, next)
  {
    assert (tries + [a])[..|tries|] == tries;
  }

  lemma TrailStep(q: Request, s0: Leases.State, tries: seq<Attempt>, a: Attempt, next: nat)
    requires a.fee in Fees(q, s0, tries) && |tries| < 4 && a in Choices(q, s0, |tries|)
    requires tries != [] ==> a.fee > tries[|tries| - 1].fee
    requires AmountSum(a.inputs) >= Seqs.Sum(q.recipients) + a.fee
    requires var calls := CallsFor(q.config, a.inputs, a.fee, Seqs.Sum(q.recipients), |q.recipients|, q.rate);
      next == if calls > a.fee then calls else a.fee
    ensures next in Fees(q, s0, tries + [a])
  {
    ClimbsStep(q.config, tries, a, Seqs.Sum(q.recipients), |q.recipients|, q.rate, next);
    ChosenStep(q, s0, tries, a);
  }

  /** All that the attempts held has been given back; only what had expired is gone. */
  ghost predicate GivenUp(q: Request, s0: Leases.State, s: Leases.State) {
    exists k: nat :: k <= |q.times| && s.reserved == Swept(s0.reserved, q.times, k)
  }

  lemma OverflowFails(q: Request, s0: Leases.State, tries: seq<Attempt>, fee: nat, crypto: Crypto)
    requires fee in Fees(q, s0, tries) && Seqs.Sum(q.recipients) + fee >= U64_LIMIT
    ensures Overflow in Failures(q, s0, tries, fee, crypto)
  {
  }

  lemma TooMuchFails(q: Request, s0: Leases.State, tries: seq<Attempt>, a: Attempt, crypto: Crypto)
    requires a.fee in Fees(q, s0, tries) && |tries| < 4 && a in Choices(q, s0, |tries|) && AmountSum(a.inputs) >= U64_LIMIT
    ensures Overflow in Failures(q, s0, tries, a.fee, crypto)
  {
    assert TooMuch(q, s0, a.fee, |tries|);
  }

  lemma RefusalFails(q: Request, s0: Leases.State, tries: seq<Attempt>, fee: nat, reason: Denial, crypto: Crypto)
    requires fee in Fees(q, s0, tries) && |tries| < 4 && reason in Refusals(q, s0, fee, |tries|)
    ensures NotReserved(reason) in Failures(q, s0, tries, fee, crypto)
  {
  }

  lemma EarlyFails(q: Request, s0: Leases.State, crypto: Crypto)
    ensures q.recipients == [] ==> NoRecipients in Failures(q, s0, [], 0, crypto)
    ensures Seqs.Sum(q.recipients) >= U64_LIMIT ==> Overflow in Failures(q, s0, [], 0, crypto)
  {
  }

  lemma UnderwayStep(q: Request, s0: Leases.State, s: Leases.State, tries: seq<Attempt>, a: Attempt, lease: nat, next: U64)
    requires next in Fees(q, s0, tries + [a]) && next >= a.fee >= q.config.minFee && |tries| < |q.times|
    requires Holding(s0, s, a.inputs, lease, q.times, |tries| + 1, q.height) && 0 < |a.inputs| <= SWEEP_LIMIT
    requires forall o :: o in a.inputs ==> o in s0.outputs && o.point !in q.filtered
    ensures Underway(q, s0, s, tries + [a], lease, a.inputs, next)
  {
  }

  /** One attempt at inputs for the recipients and the fee. */
  method TryOnce(w: Wallet, q: Request, totalSend: U64, lease: nat, inputs: seq<Output>, fee: U64, k: nat,
                 ghost s0: Leases.State, ghost tries: seq<Attempt>, ghost crypto: Crypto)
    returns (error: Option<Error>, lease': nat, inputs': seq<Output>, fee': U64, settled: bool, ghost tries': seq<Attempt>)
    requires w.Valid() && Leases.Known(s0) && Clock(q.times) && s0.outputs == w.outputs
    requires totalSend == Seqs.Sum(q.recipients) && k == |tries| < ATTEMPTS
    requires Underway(q, s0, w.Abs(), tries, lease, inputs, fee) && (tries != [] ==> fee > tries[|tries| - 1].fee)
    modifies w`reserved, w`nextLease
    ensures w.Valid()
    ensures error.Some? ==> GivenUp(q, s0, w.Abs()) && tries' == tries && fee' == fee && error.value in Failures(q, s0, tries, fee, crypto)
    ensures error.None? ==>
      && |tries'| == k + 1 && tries'[k].fee == fee && Underway(q, s0, w.Abs(), tries', lease', inputs', fee')
      && IsCounted(q, inputs', fee') && fee' >= fee && (settled <==> fee' == fee)
  {
    ghost var a;
    error, lease', inputs', a := Obtain(w, q, totalSend, lease, inputs, fee, k, s0, tries, crypto);
    fee', settled, tries' := fee, false, tries;
    if error.Some? { return; }
    error, fee', settled := Reckon(w, q, totalSend, lease', inputs', fee, k, s0, tries, a, crypto);
    if error.Some? { return error, lease', inputs', fee, false, tries; }
    tries' := tries + [a];
  }

  lemma IsChoice(q: Request, s0: Leases.State, c: seq<Output>, inputs: seq<Output>, fee: U64, k: nat)
    requires k < |q.times| && Seqs.Sum(q.recipients) + fee < U64_LIMIT
    requires c in Listings(s0.outputs, q.height, Leases.Live(s0.reserved, q.times[k]), q.filtered)
    requires (None, inputs) in Decisions(c, Seqs.Sum(q.recipients) + fee)
    ensures Attempt(c, inputs, fee) in Choices(q, s0, k)
  {
  }

  lemma IsRefusal(q: Request, s0: Leases.State, c: seq<Output>, reason: Denial, fee: U64, k: nat)
    requires k < |q.times| && Seqs.Sum(q.recipients) + fee < U64_LIMIT && reason.Selection?
    requires c in Listings(s0.outputs, q.height, Leases.Live(s0.reserved, q.times[k]), q.filtered)
    requires (Some(reason.error), []) in Decisions(c, Seqs.Sum(q.recipients) + fee)
    ensures reason in Refusals(q, s0, fee, k)
  {
    assert RefusedFor(q, s0, c, fee, k, reason.error);
  }

  /** The inputs for attempt number k, in terms of the request. */
  method Secure(w: Wallet, q: Request, totalSend: U64, lease: nat, inputs: seq<Output>, fee: U64, k: nat, ghost s0: Leases.State)
    returns (grant: Grant, ghost c: seq<Output>)
    requires w.Valid() && Leases.Known(s0) && Clock(q.times) && s0.outputs == w.outputs && totalSend == Seqs.Sum(q.recipients)
    requires k < ATTEMPTS && totalSend + fee < U64_LIMIT && Holding(s0, w.Abs(), inputs, lease, q.times, k, q.height)
    modifies w`reserved, w`nextLease
    ensures w.Valid()
    ensures grant.Denied? ==> w.reserved == Swept(s0.reserved, q.times, k + 1) && grant.reason in Refusals(q, s0, fee, k)
    ensures grant.Granted? ==>
      && Attempt(c, grant.inputs, fee) in Choices(q, s0, k) && Holding(s0, w.Abs(), grant.inputs, grant.lease, q.times, k + 1, q.height)
      && AmountSum(grant.inputs) >= totalSend + fee && 0 < |grant.inputs| <= SWEEP_LIMIT
      && forall o :: o in grant.inputs ==> o in w.outputs && o.point !in q.filtered
  {
    grant, c := Reselect(w, lease, totalSend + fee, q.times[k], q.height, q.filtered, s0, inputs, q.times, k);
    if grant.Denied? {
      IsRefusal(q, s0, c, grant.reason, fee, k);
    } else {
      IsChoice(q, s0, c, grant.inputs, fee, k);
    }
  }

  /** Gives the inputs of the last attempt back and reserves some for the fee. */
  method Obtain(w: Wallet, q: Request, totalSend: U64, lease: nat, inputs: seq<Output>, fee: U64, k: nat,
                ghost s0: Leases.State, ghost tries: seq<Attempt>, ghost crypto: Crypto)
    returns (error: Option<Error>, lease': nat, inputs': seq<Output>, ghost a: Attempt)
    requires w.Valid() && Leases.Known(s0) && Clock(q.times) && s0.outputs == w.outputs && totalSend == Seqs.Sum(q.recipients)
    requires k == |tries| < ATTEMPTS && fee in Fees(q, s0, tries) && Holding(s0, w.Abs(), inputs, lease, q.times, k, q.height)
    modifies w`reserved, w`nextLease
    ensures w.Valid()
    ensures error.Some? ==> GivenUp(q, s0, w.Abs()) && error.value in Failures(q, s0, tries, fee, crypto)
    ensures error.None? ==>
      && a.inputs == inputs' && a.fee == fee && a in Choices(q, s0, k) && Holding(s0, w.Abs(), inputs', lease', q.times, k + 1, q.height)
      && AmountSum(inputs') >= totalSend + fee && 0 < |inputs'| <= SWEEP_LIMIT
      && forall o :: o in inputs' ==> o in w.outputs && o.point !in q.filtered
  {
    a := Attempt([], inputs, fee);
    if totalSend + fee >= U64_LIMIT {
      GiveBack(w, lease, s0, inputs, q.times, k, q.height);
      OverflowFails(q, s0, tries, fee, crypto);
      return Some(Overflow), lease, inputs, a;
    }
    var grant, c := Secure(w, q, totalSend, lease, inputs, fee, k, s0);
    if grant.Denied? {
      RefusalFails(q, s0, tries, fee, grant.reason, crypto);
      return Some(NotReserved(grant.reason)), lease, inputs, a;
    }
    return None, grant.lease, grant.inputs, Attempt(c, grant.inputs, fee);
  }

  /** What an attempt calls for, once it holds its inputs. */
  method Reckon(w: Wallet, q: Request, totalSend: U64, lease: nat, inputs: seq<Output>, fee: U64, ghost k: nat,
                ghost s0: Leases.State, ghost tries: seq<Attempt>, ghost a: Attempt, ghost crypto: Crypto)
    returns (error: Option<Error>, fee': U64, settled: bool)
    requires w.Valid() && Leases.Known(s0) && Clock(q.times) && s0.outputs == w.outputs && totalSend == Seqs.Sum(q.recipients)
    requires a.inputs == inputs && a.fee == fee && k == |tries| < ATTEMPTS && fee in Fees(q, s0, tries) && a in Choices(q, s0, k)
    requires (tries != [] ==> fee > tries[|tries| - 1].fee) && fee >= q.config.minFee
    requires Holding(s0, w.Abs(), inputs, lease, q.times, k + 1, q.height)
    requires AmountSum(inputs) >= totalSend + fee && 0 < |inputs| <= SWEEP_LIMIT
    requires forall o :: o in inputs ==> o in w.outputs && o.point !in q.filtered
    modifies w`reserved
    ensures w.Valid()
    ensures error.Some? ==> GivenUp(q, s0, w.Abs()) && error.value in Failures(q, s0, tries, fee, crypto)
    ensures error.None? ==>
      && Underway(q, s0, w.Abs(), tries + [a], lease, inputs, fee')
      && IsCounted(q, inputs, fee') && fee' >= fee && (settled <==> fee' == fee)
  {
    var next, done, n := NextFee(q.config, inputs, totalSend, |q.recipients|, fee, q.rate);
    if next.None? {
      TooMuchFails(q, s0, tries, a, crypto);
      GiveBack(w, lease, s0, inputs, q.times, k + 1, q.height);
      return Some(Overflow), fee, false;
    }
    TrailStep(q, s0, tries, a, next.value);
    UnderwayStep(q, s0, w.Abs(), tries, a, lease, next.value);
    return None, next.value, done;
  }

  /** Attempts until the fee is settled. */
  method SettleFee(w: Wallet, q: Request, totalSend: U64, ghost s0: Leases.State, ghost crypto: Crypto)
    returns (error: Option<Error>, lease: nat, inputs: seq<Output>, fee: U64, ghost tries: seq<Attempt>)
    requires w.Valid() && Leases.Known(s0) && Clock(q.times) && s0 == w.Abs() && totalSend == Seqs.Sum(q.recipients)
    modifies w`reserved, w`nextLease
    ensures w.Valid()
    ensures error.Some? ==> GivenUp(q, s0, w.Abs()) && error.value in Failures(q, s0, tries, fee, crypto)
    ensures error.None? ==> Underway(q, s0, w.Abs(), tries, lease, inputs, fee) && IsSettled(tries, fee) && IsCounted(q, inputs, fee)
  {
    error, lease, inputs, fee, tries := None, 0, [], q.config.minFee, [];
    var i, settled := 0, false;
    while i < ATTEMPTS && !settled
      invariant i == |tries| <= ATTEMPTS && w.Valid() && Underway(q, s0, w.Abs(), tries, lease, inputs, fee)
      invariant i > 0 ==> IsCounted(q, inputs, fee) && fee >= tries[i - 1].fee && (settled <==> fee == tries[i - 1].fee)
      invariant error.None? && (settled ==> i > 0)
      decreases ATTEMPTS - i
    {
      error, lease, inputs, fee, settled, tries := TryOnce(w, q, totalSend, lease, inputs, fee, i, s0, tries, crypto);
      if error.Some? { return; }
      i := i + 1;
    }
  }

  /** A fee settled before the fourth attempt is covered by the inputs. */
  lemma SettledCovers(q: Request, s0: Leases.State, tries: seq<Attempt>, fee: nat)
    requires fee in Fees(q, s0, tries) && IsSettled(tries, fee)
    ensures |tries| == 4 || AmountSum(tries[|tries| - 1].inputs) >= Seqs.Sum(q.recipients) + fee
  {
  }

  /** A payment made for the request: the attempts lead to its fee, and the last of them to its inputs,
      which the wallet holds; it is sound, balances, pays the rate, and uses nothing it may not. */
  ghost predicate Delivers(q: Request, s0: Leases.State, s: Leases.State, tries: seq<Attempt>, p: Payment) {
    && q.recipients != [] && p.fee in Fees(q, s0, tries) && IsSettled(tries, p.fee)
    && p.inputs == tries[|tries| - 1].inputs && 0 < |p.inputs| <= SWEEP_LIMIT
    && |tries| <= |q.times| && Holds(s0, s, p.inputs, p.lease, q.times[|tries| - 1], q.height)
    && Sound(p, p.inputs, q.recipients) && Accepts(CommittedAll(p.pseudo), CommittedAll(p.outputs), p.fee)
    && p.fee >= q.config.minFee && PaysRate(q.config, p, q.rate, |q.recipients| + 1)
    && (forall o :: o in p.inputs ==> o in s0.outputs && o.point !in q.filtered)
  }

  ghost function Payments(q: Request, s0: Leases.State, s: Leases.State, tries: seq<Attempt>): iset<Payment> {
    iset p | Delivers(q, s0, s, tries, p)
  }

  lemma BuildFails(q: Request, s0: Leases.State, tries: seq<Attempt>, inputs: seq<Output>, fee: U64, crypto: Crypto)
    requires fee in Fees(q, s0, tries) && IsSettled(tries, fee) && IsCounted(q, inputs, fee) && inputs == tries[|tries| - 1].inputs
    requires !(crypto.works && Affordable(inputs, q.recipients, fee))
    ensures WhyNot(inputs, q.recipients, fee) in Failures(q, s0, tries, fee, crypto)
  {
    SettledCovers(q, s0, tries, fee);
  }

  lemma BuiltPays(q: Request, p: Payment, inputs: seq<Output>)
    requires IsCounted(q, inputs, p.fee) && Sound(p, inputs, q.recipients)
    requires |p.outputs| == |q.recipients| + ChangeCount(p.change, 1)
    ensures PaysRate(q.config, p, q.rate, |q.recipients| + 1) && p.fee >= q.config.minFee
  {
    var n :| FeeCounted(q.config, inputs, Seqs.Sum(q.recipients), |q.recipients|, p.fee, q.rate, n);
    CountedPays(q.config, p, q.rate, n);
    EstimateMonotone(|inputs|, n, |q.recipients| + 1, q.config.ringSize, q.rate);
  }

  /** Builds the payment, or gives the inputs back. */
  method Conclude(w: Wallet, q: Request, totalSend: U64, lease: nat, inputs: seq<Output>, fee: U64, crypto: Crypto,
                  ghost s0: Leases.State, ghost tries: seq<Attempt>)
    returns (r: Result)
    requires w.Valid() && Leases.Known(s0) && Clock(q.times) && totalSend == Seqs.Sum(q.recipients) && q.recipients != []
    requires Underway(q, s0, w.Abs(), tries, lease, inputs, fee) && IsSettled(tries, fee) && IsCounted(q, inputs, fee)
    modifies w`reserved
    ensures w.Valid()
    ensures r.Failed? ==> GivenUp(q, s0, w.Abs()) && r.error in Failures(q, s0, tries, fee, crypto)
    ensures r.Built? ==> r.payment in Payments(q, s0, w.Abs(), tries)
  {
    r := BuildTransaction(inputs, q.recipients, totalSend, fee, lease, 1, crypto);
    if r.Failed? {
      BuildFails(q, s0, tries, inputs, fee, crypto);
      GiveBack(w, lease, s0, inputs, q.times, |tries|, q.height);
    } else {
      BuiltPays(q, r.payment, inputs);
    }
  }

  /** Pays the recipients from inputs of the wallet's choosing. The fee and the choice of inputs depend on
      each other, so they are settled in at most four attempts. */
  method Transfer(w: Wallet, config: Config, recipients: seq<U64>, rate: U64, height: nat, times: seq<int>, filtered: set<Outpoint>, crypto: Crypto)
    returns (r: Result, ghost tries: seq<Attempt>, ghost fee': nat)
    requires w.Valid() && Clock(times)
    modifies w`reserved, w`nextLease
    ensures w.Valid()
    ensures var q := Request(config, recipients, rate, height, times, filtered);
      r.Failed? ==> GivenUp(q, old(w.Abs()), w.Abs()) && r.error in Failures(q, old(w.Abs()), tries, fee', crypto)
    ensures var q := Request(config, recipients, rate, height, times, filtered);
      r.Built? ==> r.payment in Payments(q, old(w.Abs()), w.Abs(), tries)
  {
    ghost var s0 := w.Abs();
    var q := Request(config, recipients, rate, height, times, filtered);
    EarlyFails(q, s0, crypto);
    assert w.reserved == Swept(s0.reserved, q.times, 0);
    if recipients == [] { return Failed(NoRecipients), [], 0; }
    var total := CheckedSum(recipients);
    if total.None? { return Failed(Overflow), [], 0; }
    var error, lease, inputs, fee, attempts := SettleFee(w, q, total.value, s0, crypto);
    tries, fee' := attempts, fee;
    if error.Some? { return Failed(error.value), attempts, fee; }
    r := Conclude(w, q, total.value, lease, inputs, fee, crypto, s0, attempts);
  }

  /** Pays from inputs the caller has reserved; the lease is given back on failure. */
  method TransferWithInputs(w: Wallet, config: Config, inputs: seq<Output>, lease: nat, recipients: seq<U64>, rate: U64, changeSplit: int, crypto: Crypto)
    returns (r: Result)
    requires w.Valid()
    modifies w`reserved
    ensures w.Valid()
    ensures r.Failed? ==> Leases.Next(old(w.Abs()), Leases.Release(lease), w.Abs())
    ensures r.Built? ==> w.reserved == old(w.reserved) && r.payment.lease == lease
    ensures r.Built? ==> recipients != [] && Sound(r.payment, inputs, recipients) && Accepts(CommittedAll(r.payment.pseudo), CommittedAll(r.payment.outputs), r.payment.fee)
    ensures r.Built? ==> r.payment.fee >= config.minFee && PaysRate(config, r.payment, rate, |recipients| + if changeSplit < 1 then 1 else changeSplit)
    ensures r.Built? <==>
      && recipients != [] && inputs != [] && crypto.works
      && Affordable(inputs, recipients, FeeFor(config, |inputs|, |recipients| + if changeSplit < 1 then 1 else changeSplit, rate))
    ensures r.Built? ==> r.payment.fee == FeeFor(config, |inputs|, |recipients| + if changeSplit < 1 then 1 else changeSplit, rate)
  {
    r := BuildFrom(config, inputs, lease, recipients, rate, if changeSplit < 1 then 1 else changeSplit, crypto);
    if r.Failed? { w.ReleaseInputLease(lease); }
  }

  method BuildFrom(config: Config, inputs: seq<Output>, lease: nat, recipients: seq<U64>, rate: U64, split: nat, crypto: Crypto)
    returns (r: Result)
    requires split > 0
    ensures r.Built? <==>
      && recipients != [] && inputs != [] && crypto.works
      && Affordable(inputs, recipients, RequiredFee(config, EstimateSize(|inputs|, |recipients| + split, config.ringSize), rate))
    ensures r.Built? ==> r.payment.lease == lease && Sound(r.payment, inputs, recipients) && PaysRate(config, r.payment, rate, |recipients| + split)
    ensures r.Built? ==> r.payment.fee == RequiredFee(config, EstimateSize(|inputs|, |recipients| + split, config.ringSize), rate)
  {
    if recipients == [] { return Failed(NoRecipients); }
    if inputs == [] { return Failed(NoInputs); }
    var total := CheckedSum(recipients);
    if total.None? { return Failed(Overflow); }
    var fee := RequiredFee(config, EstimateSize(|inputs|, |recipients| + split, config.ringSize), rate);
    r := BuildTransaction(inputs, recipients, total.value, fee, lease, split, crypto);
    if r.Built? { CountedPays(config, r.payment, rate, |recipients| + split); }
  }

  /** Sweeps every usable output to one recipient, less the fee. */
  method TransferAll(w: Wallet, config: Config, rate: U64, height: nat, now: int, filtered: set<Outpoint>, crypto: Crypto)
    returns (r: Result, ghost usable: seq<Output>)
    requires w.Valid()
    modifies w`reserved, w`nextLease
    ensures w.Valid()
    ensures AreUsable(usable, w.outputs, height, Leases.Live(old(w.reserved), now), filtered)
    ensures r.Built? <==> usable != [] && Sweepable(config, usable, rate, crypto)
    ensures r.Failed? ==> w.reserved == Leases.Live(old(w.reserved), now)
    ensures r.Built? ==>
      && Holds(old(w.Abs()), w.Abs(), r.payment.inputs, r.payment.lease, now, height)
      && r.payment.inputs == usable && r.payment.change == 0 && |r.payment.outputs| == 1 && |r.payment.inputs| <= 256
      && Sound(r.payment, r.payment.inputs, [r.payment.outputs[0].amount]) && r.payment.outputs[0].amount > 0
      && r.payment.fee == FeeFor(config, |r.payment.inputs|, 1, rate)
  {
    ghost var s0 := w.Abs();
    var grant := w.ReserveAllMatureInputs(height, LEASE_TTL, now, filtered);
    if grant.Denied? { return Failed(NotReserved(grant.reason)), []; }
    usable := grant.inputs;
    ghost var s := w.Abs();
    assert Holds(s0, s, grant.inputs, grant.lease, now, height);
    r := BuildSweep(config, grant.inputs, grant.lease, rate, crypto);
    if r.Failed? {
      w.ReleaseInputLease(grant.lease);
      GivenBack(s0, s, w.Abs(), grant.inputs, now, height);
    }
  }

  /** The inputs pay their own fee, and something is left. */
  ghost predicate Sweepable(config: Config, inputs: seq<Output>, rate: U64, crypto: Crypto) {
    |inputs| <= 256 && crypto.works && FeeFor(config, |inputs|, 1, rate) < AmountSum(inputs) < U64_LIMIT
  }

  method BuildSweep(config: Config, inputs: seq<Output>, lease: nat, rate: U64, crypto: Crypto) returns (r: Result)
    ensures r.Built? <==> Sweepable(config, inputs, rate, crypto)
    ensures r.Built? ==>
      && r.payment.lease == lease && r.payment.inputs == inputs && r.payment.change == 0
      && |r.payment.outputs| == 1 && Sound(r.payment, inputs, [r.payment.outputs[0].amount]) && r.payment.outputs[0].amount > 0
      && r.payment.fee == RequiredFee(config, EstimateSize(|inputs|, 1, config.ringSize), rate)
  {
    if |inputs| > SWEEP_LIMIT { return Failed(TooManyInputs); }
    InputSum(inputs);
    var total := CheckedSum(InputAmounts(inputs));
    if total.None? { return Failed(Overflow); }
    var fee := RequiredFee(config, EstimateSize(|inputs|, 1, config.ringSize), rate);
    if total.value <= fee { return Failed(InsufficientFunds); }
    if !crypto.works { return Failed(CryptoFailed); }
    var amount := total.value - fee;
    assert [amount][..0] == [];
    var pseudo, outputs := Assemble(InputAmounts(inputs), [amount], crypto);
    ConservedBalances(pseudo, outputs, fee);
    r := Built(Payment(inputs, pseudo, outputs, fee, 0, lease));
  }
}
