/** The transaction wire format: the printer and the strict parser of transaction.go, and the
    second printer of wallet/builder.go. */
module Wire {
  import opened Words
  import opened Blocks
  import opened Bytes

  const HEADER_SIZE: nat := 49
  const RING_SIZE: nat := 16

  /** What a count field of four bytes can hold. */
  type Cap = x: int | 0 <= x < 0x1_0000_0000

  /** The limits of a parser. */
  datatype Caps = Caps(inputs: Cap, outputs: Cap, proof: Cap, ring: Cap, signature: Cap)

  /** The limits of the node's parser. A signature has 96 + 64 * RING_SIZE bytes. */
  const PARSER: Caps := Caps(256, 256, 1024, RING_SIZE, 96 + 64 * RING_SIZE)

  /** The limits of the format itself. */
  const FORMAT: Caps := Caps(0xFFFF_FFFF, 0xFFFF_FFFF, 0xFFFF_FFFF, 0xFFFF_FFFF, 0xFFFF_FFFF)

  datatype Output = Output(
    publicKey: Bytes32, commitment: Bytes32, encryptedAmount: Bytes8, encryptedMemo: Bytes128, rangeProof: seq<Byte>)

  datatype Input = Input(
    keyImage: Bytes32, pseudoOutput: Bytes32, ringMembers: seq<Bytes32>, ringCommitments: seq<Bytes32>,
    signature: seq<Byte>)

  datatype Transaction = Transaction(
    version: Byte, publicKey: Bytes32, inputs: seq<Input>, outputs: seq<Output>, fee: U64)

  // ---------------------------------------------------------------- the format

  function EncodeOutput(o: Output): seq<Byte> {
    o.publicKey + o.commitment + o.encryptedAmount + o.encryptedMemo + ToLe(|o.rangeProof|, 4) + o.rangeProof
  }

  function EncodeKeys(ks: seq<Bytes32>): (s: seq<Byte>)
    ensures |s| == 32 * |ks|
  {
    if ks == [] then [] else EncodeKeys(ks[..|ks| - 1]) + ks[|ks| - 1]
  }

  function EncodeInput(i: Input): seq<Byte> {
    i.keyImage + i.pseudoOutput + ToLe(|i.ringMembers|, 4) + EncodeKeys(i.ringMembers)
    + EncodeKeys(i.ringCommitments) + ToLe(|i.signature|, 4) + i.signature
  }

  function EncodeMany<T>(encode: T -> seq<Byte>, xs: seq<T>): seq<Byte> {
    if xs == [] then [] else EncodeMany(encode, xs[..|xs| - 1]) + encode(xs[|xs| - 1])
  }

  function EncodeHeader(version: Byte, publicKey: Bytes32, inputs: nat, outputs: nat, fee: U64): (s: seq<Byte>)
    ensures |s| == HEADER_SIZE
  {
    [version] + publicKey + ToLe(inputs, 4) + ToLe(outputs, 4) + ToLe(fee, 8)
  }

  /** What signatures sign: everything but the inputs. */
  function EncodePrefix(tx: Transaction): seq<Byte> {
    EncodeHeader(tx.version, tx.publicKey, |tx.inputs|, |tx.outputs|, tx.fee) + EncodeMany(EncodeOutput, tx.outputs)
  }

  function Encode(tx: Transaction): seq<Byte> {
    EncodePrefix(tx) + EncodeMany(EncodeInput, tx.inputs)
  }

  // Where the fields are, byte by byte.

  lemma OutputLayout(o: Output)
    requires |o.rangeProof| < 0x1_0000_0000
    ensures var d := EncodeOutput(o);
      && |d| == 204 + |o.rangeProof|
      && Sub(d, 0, 32) == o.publicKey && Sub(d, 32, 32) == o.commitment
      && Sub(d, 64, 8) == o.encryptedAmount && Sub(d, 72, 128) == o.encryptedMemo
      && FromLe(Sub(d, 200, 4)) == |o.rangeProof| && Sub(d, 204, |o.rangeProof|) == o.rangeProof
  {
    var d := EncodeOutput(o);
    Limit4();
    FromToLe(|o.rangeProof|, 4);
    assert Sub(d, 200, 4) == ToLe(|o.rangeProof|, 4);
  }

  lemma {:induction false} KeysLayout(ks: seq<Bytes32>, j: nat)
    requires j < |ks|
    ensures Sub(EncodeKeys(ks), 32 * j, 32) == ks[j]
  {
    if j < |ks| - 1 {
      KeysLayout(ks[..|ks| - 1], j);
      assert Sub(EncodeKeys(ks), 32 * j, 32) == Sub(EncodeKeys(ks[..|ks| - 1]), 32 * j, 32);
    }
  }

  lemma InputLayout(i: Input)
    requires |i.ringMembers| < 0x1_0000_0000 && |i.signature| < 0x1_0000_0000
    ensures var d, n, m := EncodeInput(i), 32 * |i.ringMembers|, 32 * |i.ringCommitments|;
      && |d| == 72 + n + m + |i.signature|
      && Sub(d, 0, 32) == i.keyImage && Sub(d, 32, 32) == i.pseudoOutput
      && FromLe(Sub(d, 64, 4)) == |i.ringMembers|
      && Sub(d, 68, n) == EncodeKeys(i.ringMembers) && Sub(d, 68 + n, m) == EncodeKeys(i.ringCommitments)
      && FromLe(Sub(d, 68 + n + m, 4)) == |i.signature| && Sub(d, 72 + n + m, |i.signature|) == i.signature
  {
    var d, n, m := EncodeInput(i), 32 * |i.ringMembers|, 32 * |i.ringCommitments|;
    Limit4();
    FromToLe(|i.ringMembers|, 4);
    FromToLe(|i.signature|, 4);
    assert Sub(d, 64, 4) == ToLe(|i.ringMembers|, 4);
    assert Sub(d, 68 + n + m, 4) == ToLe(|i.signature|, 4);
  }

  lemma HeaderLayout(version: Byte, publicKey: Bytes32, inputs: nat, outputs: nat, fee: U64)
    requires inputs < 0x1_0000_0000 && outputs < 0x1_0000_0000
    ensures var d := EncodeHeader(version, publicKey, inputs, outputs, fee);
      && d[0] == version && Sub(d, 1, 32) == publicKey
      && FromLe(Sub(d, 33, 4)) == inputs && FromLe(Sub(d, 37, 4)) == outputs && FromLe(Sub(d, 41, 8)) == fee
  {
    var d := EncodeHeader(version, publicKey, inputs, outputs, fee);
    Limit4();
    Limit8();
    FromToLe(inputs, 4);
    FromToLe(outputs, 4);
    FromToLe(fee, 8);
    assert Sub(d, 33, 4) == ToLe(inputs, 4);
    assert Sub(d, 37, 4) == ToLe(outputs, 4);
    assert Sub(d, 41, 8) == ToLe(fee, 8);
  }

  /** The version byte, the key, the two counts and the fee, least significant byte first, then the
      outputs and then the inputs. */
  lemma Layout(tx: Transaction)
    requires |tx.inputs| < 0x1_0000_0000 && |tx.outputs| < 0x1_0000_0000
    ensures var d := Encode(tx);
      && |d| >= 49 && d[0] == tx.version && Sub(d, 1, 32) == tx.publicKey
      && FromLe(Sub(d, 33, 4)) == |tx.inputs| && FromLe(Sub(d, 37, 4)) == |tx.outputs| && FromLe(Sub(d, 41, 8)) == tx.fee
      && d[49..] == EncodeMany(EncodeOutput, tx.outputs) + EncodeMany(EncodeInput, tx.inputs)
  {
    var d, header := Encode(tx), EncodeHeader(tx.version, tx.publicKey, |tx.inputs|, |tx.outputs|, tx.fee);
    HeaderLayout(tx.version, tx.publicKey, |tx.inputs|, |tx.outputs|, tx.fee);
    assert d == header + (EncodeMany(EncodeOutput, tx.outputs) + EncodeMany(EncodeInput, tx.inputs));
    forall k: nat, n: nat | k + n <= 49 ensures Sub(d, k, n) == Sub(header, k, n) { }
  }

  ghost predicate EvenRing(i: Input) { |i.ringCommitments| == |i.ringMembers| }

  ghost predicate FitsOutput(c: Caps, o: Output) { |o.rangeProof| <= c.proof }

  ghost predicate FitsInput(c: Caps, i: Input) {
    |i.ringMembers| <= c.ring && EvenRing(i) && |i.signature| <= c.signature
  }

  /** Within the limits of a parser. */
  ghost predicate Fits(c: Caps, tx: Transaction) {
    && |tx.inputs| <= c.inputs && (forall i :: i in tx.inputs ==> FitsInput(c, i))
    && |tx.outputs| <= c.outputs && (forall o :: o in tx.outputs ==> FitsOutput(c, o))
  }

  // ---------------------------------------------------------------- the parser, as a function

  datatype Parsed<T> = Parsed(value: T, next: nat)

  function Number(d: seq<Byte>, off: nat, n: nat): nat
    requires off + n <= |d|
  {
    FromLe(Sub(d, off, n))
  }

  function ReadOutput(c: Caps, d: seq<Byte>, off: nat): Option<Parsed<Output>> {
    if off + 204 > |d| then None
    else
      var n := Number(d, off + 200, 4);
      if n > c.proof || off + 204 + n > |d| then None
      else Some(Parsed(Output(Sub(d, off, 32), Sub(d, off + 32, 32), Sub(d, off + 64, 8), Sub(d, off + 72, 128),
                              Sub(d, off + 204, n)), off + 204 + n))
  }

  function KeyAt(d: seq<Byte>, off: nat, j: nat): Bytes32
    requires off + 32 * (j + 1) <= |d|
  {
    Sub(d, off + 32 * j, 32)
  }

  function ReadKeys(d: seq<Byte>, off: nat, n: nat): (ks: seq<Bytes32>)
    requires off + 32 * n <= |d|
    ensures |ks| == n
  {
    seq(n, j requires 0 <= j < n => KeyAt(d, off, j))
  }

  function ReadSignature(c: Caps, d: seq<Byte>, off: nat): Option<seq<Byte>> {
    if off + 4 > |d| then None
    else
      var n := Number(d, off, 4);
      if n > c.signature || off + 4 + n > |d| then None else Some(Sub(d, off + 4, n))
  }

  function ReadInput(c: Caps, d: seq<Byte>, off: nat): Option<Parsed<Input>> {
    if off + 68 > |d| then None
    else
      var n := Number(d, off + 64, 4);
      if n > c.ring || off + 68 + 64 * n > |d| then None
      else
        var signature := ReadSignature(c, d, off + 68 + 64 * n);
        if signature.None? then None
        else Some(Parsed(Input(Sub(d, off, 32), Sub(d, off + 32, 32), ReadKeys(d, off + 68, n), ReadKeys(d, off + 68 + 32 * n, n),
                               signature.value), off + 72 + 64 * n + |signature.value|))
  }

  type Reader<!T> = (seq<Byte>, nat) -> Option<Parsed<T>>

  function OutputReader(c: Caps): Reader<Output> { (d: seq<Byte>, off: nat) => ReadOutput(c, d, off) }

  function InputReader(c: Caps): Reader<Input> { (d: seq<Byte>, off: nat) => ReadInput(c, d, off) }

  /** Reads n items, one after the other. */
  function ReadMany<T>(read: Reader<T>, d: seq<Byte>, off: nat, n: nat): Option<Parsed<seq<T>>> {
    if n == 0 then Some(Parsed([], off))
    else
      var front := ReadMany(read, d, off, n - 1);
      if front.None? then None
      else
        var x := read(d, front.value.next);
        if x.None? then None else Some(Parsed(front.value.value + [x.value.value], x.value.next))
  }

  /** The body after a header that has been read. */
  function ReadBody(c: Caps, d: seq<Byte>, inputs: nat, outputs: nat): Option<(seq<Output>, seq<Input>)> {
    var os := ReadMany(OutputReader(c), d, HEADER_SIZE, outputs);
    if os.None? then None
    else
      var ins := ReadMany(InputReader(c), d, os.value.next, inputs);
      if ins.None? || ins.value.next != |d| then None else Some((os.value.value, ins.value.value))
  }

  function Decode(c: Caps, d: seq<Byte>): Option<Transaction> {
    if |d| < HEADER_SIZE then None
    else
      var inputs, outputs, fee := Number(d, 33, 4), Number(d, 37, 4), FeeAt(d);
      if inputs > c.inputs || outputs > c.outputs then None
      else
        var body := ReadBody(c, d, inputs, outputs);
        if body.None? then None else Some(Transaction(d[0], Sub(d, 1, 32), body.value.1, body.value.0, fee))
  }

  function FeeAt(d: seq<Byte>): U64
    requires |d| >= HEADER_SIZE
  {
    ToFromLe(Sub(d, 41, 8));
    Limit8();
    Number(d, 41, 8)
  }

  // ---------------------------------------------------------------- exactness

  /** A number field holds the number that was written, if it fits the field. */
  lemma NumberExact(d: seq<Byte>, off: nat, n: nat, x: nat)
    requires off + n <= |d|
    ensures At(d, off, ToLe(x, n)) && x < Limit(n) <==> Number(d, off, n) == x
  {
    AtIsSub(d, off, ToLe(x, n));
    ToFromLe(Sub(d, off, n));
    if x < Limit(n) { FromToLe(x, n); }
  }

  lemma NumberExact4(d: seq<Byte>, off: nat, x: nat)
    requires off + 4 <= |d| && x < 0x1_0000_0000
    ensures At(d, off, ToLe(x, 4)) <==> Number(d, off, 4) == x
  {
    Limit4();
    NumberExact(d, off, 4, x);
  }

  lemma OutputFields(d: seq<Byte>, off: nat, o: Output)
    ensures At(d, off, EncodeOutput(o)) <==>
      && At(d, off, o.publicKey) && At(d, off + 32, o.commitment) && At(d, off + 64, o.encryptedAmount)
      && At(d, off + 72, o.encryptedMemo) && At(d, off + 200, ToLe(|o.rangeProof|, 4)) && At(d, off + 204, o.rangeProof)
  {
    var a := o.publicKey + o.commitment;
    var b := a + o.encryptedAmount;
    var c := b + o.encryptedMemo;
    var e := c + ToLe(|o.rangeProof|, 4);
    AtConcat(d, off, e, o.rangeProof);
    AtConcat(d, off, c, ToLe(|o.rangeProof|, 4));
    AtConcat(d, off, b, o.encryptedMemo);
    AtConcat(d, off, a, o.encryptedAmount);
    AtConcat(d, off, o.publicKey, o.commitment);
  }

  /** Reading an output succeeds exactly on its encoding. */
  lemma OutputExact(c: Caps, d: seq<Byte>, off: nat, o: Output, next: nat)
    ensures ReadOutput(c, d, off) == Some(Parsed(o, next)) <==>
      FitsOutput(c, o) && At(d, off, EncodeOutput(o)) && next == off + |EncodeOutput(o)|
  {
    OutputFields(d, off, o);
    AtIsSub(d, off, o.publicKey);
    AtIsSub(d, off + 32, o.commitment);
    AtIsSub(d, off + 64, o.encryptedAmount);
    AtIsSub(d, off + 72, o.encryptedMemo);
    AtIsSub(d, off + 204, o.rangeProof);
    if off + 204 <= |d| && |o.rangeProof| <= c.proof { NumberExact4(d, off + 200, |o.rangeProof|); }
  }

  lemma {:induction false} KeysExact(d: seq<Byte>, off: nat, ks: seq<Bytes32>)
    ensures At(d, off, EncodeKeys(ks)) <==> off + 32 * |ks| <= |d| && ReadKeys(d, off, |ks|) == ks
  {
    if ks == [] {
    } else {
      var front, k := ks[..|ks| - 1], ks[|ks| - 1];
      assert ks == front + [k];
      KeysExact(d, off, front);
      AtConcat(d, off, EncodeKeys(front), k);
      AtIsSub(d, off + 32 * |front|, k);
      if off + 32 * |ks| <= |d| { assert ReadKeys(d, off, |ks|) == ReadKeys(d, off, |front|) + [KeyAt(d, off, |front|)]; }
    }
  }

  lemma SignatureExact(c: Caps, d: seq<Byte>, off: nat, s: seq<Byte>)
    ensures ReadSignature(c, d, off) == Some(s) <==>
      |s| <= c.signature && At(d, off, ToLe(|s|, 4)) && At(d, off + 4, s)
  {
    AtIsSub(d, off + 4, s);
    if off + 4 <= |d| && |s| <= c.signature { NumberExact4(d, off, |s|); }
  }

  lemma InputFields(d: seq<Byte>, off: nat, i: Input)
    ensures var n, m := 32 * |i.ringMembers|, 32 * |i.ringCommitments|;
      At(d, off, EncodeInput(i)) <==>
      && At(d, off, i.keyImage) && At(d, off + 32, i.pseudoOutput) && At(d, off + 64, ToLe(|i.ringMembers|, 4))
      && At(d, off + 68, EncodeKeys(i.ringMembers)) && At(d, off + 68 + n, EncodeKeys(i.ringCommitments))
      && At(d, off + 68 + n + m, ToLe(|i.signature|, 4)) && At(d, off + 72 + n + m, i.signature)
  {
    var a := i.keyImage + i.pseudoOutput;
    var b := a + ToLe(|i.ringMembers|, 4);
    var c := b + EncodeKeys(i.ringMembers);
    var e := c + EncodeKeys(i.ringCommitments);
    var f := e + ToLe(|i.signature|, 4);
    AtConcat(d, off, f, i.signature);
    AtConcat(d, off, e, ToLe(|i.signature|, 4));
    AtConcat(d, off, c, EncodeKeys(i.ringCommitments));
    AtConcat(d, off, b, EncodeKeys(i.ringMembers));
    AtConcat(d, off, a, ToLe(|i.ringMembers|, 4));
    AtConcat(d, off, i.keyImage, i.pseudoOutput);
  }

  /** The parts of an input as the parser sees them. */
  ghost predicate InputParts(c: Caps, d: seq<Byte>, off: nat, i: Input) {
    var n := |i.ringMembers|;
    && n <= c.ring && off + 68 + 64 * n <= |d|
    && Sub(d, off, 32) == i.keyImage && Sub(d, off + 32, 32) == i.pseudoOutput && Number(d, off + 64, 4) == n
    && ReadKeys(d, off + 68, n) == i.ringMembers && ReadKeys(d, off + 68 + 32 * n, n) == i.ringCommitments
    && ReadSignature(c, d, off + 68 + 64 * n) == Some(i.signature)
  }

  lemma InputReads(c: Caps, d: seq<Byte>, off: nat, i: Input, next: nat)
    ensures ReadInput(c, d, off) == Some(Parsed(i, next)) <==>
      InputParts(c, d, off, i) && next == off + 72 + 64 * |i.ringMembers| + |i.signature|
  {
  }

  lemma InputHead(c: Caps, d: seq<Byte>, off: nat, keyImage: Bytes32, pseudoOutput: Bytes32, n: nat)
    requires n <= c.ring
    ensures At(d, off, keyImage) && At(d, off + 32, pseudoOutput) && At(d, off + 64, ToLe(n, 4)) <==>
      off + 68 <= |d| && Sub(d, off, 32) == keyImage && Sub(d, off + 32, 32) == pseudoOutput && Number(d, off + 64, 4) == n
  {
    AtIsSub(d, off, keyImage);
    AtIsSub(d, off + 32, pseudoOutput);
    if off + 68 <= |d| { NumberExact4(d, off + 64, n); }
  }

  /** What follows the ring size: both key lists and the signature. */
  ghost predicate RingParts(c: Caps, d: seq<Byte>, off: nat, n: nat, members: seq<Bytes32>, commitments: seq<Bytes32>, signature: seq<Byte>) {
    && off + 64 * n <= |d|
    && ReadKeys(d, off, n) == members && ReadKeys(d, off + 32 * n, n) == commitments
    && ReadSignature(c, d, off + 64 * n) == Some(signature)
  }

  lemma RingKeysExact(d: seq<Byte>, off: nat, n: nat, members: seq<Bytes32>, commitments: seq<Bytes32>)
    requires |members| == |commitments| == n
    ensures off + 64 * n <= |d| && ReadKeys(d, off, n) == members && ReadKeys(d, off + 32 * n, n) == commitments <==>
      At(d, off, EncodeKeys(members)) && At(d, off + 32 * n, EncodeKeys(commitments))
  {
    KeysExact(d, off, members);
    KeysExact(d, off + 32 * n, commitments);
  }

  lemma RingExact(c: Caps, d: seq<Byte>, off: nat, n: nat, members: seq<Bytes32>, commitments: seq<Bytes32>, signature: seq<Byte>)
    requires |members| == |commitments| == n && |signature| <= c.signature
    ensures RingParts(c, d, off, n, members, commitments, signature) <==>
      && At(d, off, EncodeKeys(members)) && At(d, off + 32 * n, EncodeKeys(commitments))
      && At(d, off + 64 * n, ToLe(|signature|, 4)) && At(d, off + 4 + 64 * n, signature)
  {
    RingKeysExact(d, off, n, members, commitments);
    SignatureExact(c, d, off + 64 * n, signature);
  }

  lemma InputPartsExact(c: Caps, d: seq<Byte>, off: nat, i: Input)
    requires FitsInput(c, i)
    ensures InputParts(c, d, off, i) <==> At(d, off, EncodeInput(i))
  {
    var n := |i.ringMembers|;
    InputFields(d, off, i);
    InputHead(c, d, off, i.keyImage, i.pseudoOutput, n);
    RingExact(c, d, off + 68, n, i.ringMembers, i.ringCommitments, i.signature);
  }

  lemma InputPartsFit(c: Caps, d: seq<Byte>, off: nat, i: Input)
    requires InputParts(c, d, off, i)
    ensures FitsInput(c, i)
  {
    SignatureExact(c, d, off + 68 + 64 * |i.ringMembers|, i.signature);
  }

  /** Reading an input succeeds exactly on its encoding. */
  lemma InputExact(c: Caps, d: seq<Byte>, off: nat, i: Input, next: nat)
    ensures ReadInput(c, d, off) == Some(Parsed(i, next)) <==>
      FitsInput(c, i) && At(d, off, EncodeInput(i)) && next == off + |EncodeInput(i)|
  {
    InputReads(c, d, off, i, next);
    if InputParts(c, d, off, i) { InputPartsFit(c, d, off, i); }
    if FitsInput(c, i) { InputPartsExact(c, d, off, i); }
  }

  /** Reading succeeds exactly on encodings of items that fit. */
  ghost predicate ExactAt<T(!new)>(read: Reader<T>, encode: T -> seq<Byte>, fits: T -> bool, d: seq<Byte>, off: nat, x: T, next: nat) {
    read(d, off) == Some(Parsed(x, next)) <==> fits(x) && At(d, off, encode(x)) && next == off + |encode(x)|
  }

  ghost predicate Exact<T(!new)>(read: Reader<T>, encode: T -> seq<Byte>, fits: T -> bool) {
    forall d, off, x, next {:trigger ExactAt(read, encode, fits, d, off, x, next)} :: ExactAt(read, encode, fits, d, off, x, next)
  }

  ghost predicate AllFit<T(!new)>(fits: T -> bool, xs: seq<T>) {
    forall i :: 0 <= i < |xs| ==> fits(xs[i])
  }

  /** A run of items is read exactly on the encoding of that run. */
  lemma {:induction false} ManyComplete<T(!new)>(read: Reader<T>, encode: T -> seq<Byte>, fits: T -> bool, d: seq<Byte>, off: nat, xs: seq<T>)
    requires Exact(read, encode, fits) && AllFit(fits, xs) && At(d, off, EncodeMany(encode, xs))
    ensures ReadMany(read, d, off, |xs|) == Some(Parsed(xs, off + |EncodeMany(encode, xs)|))
  {
    if xs != [] {
      var front, x := xs[..|xs| - 1], xs[|xs| - 1];
      AtConcat(d, off, EncodeMany(encode, front), encode(x));
      ManyComplete(read, encode, fits, d, off, front);
      ReadManyStep(read, encode, fits, d, off, front, x);
      assert xs == front + [x];
    }
  }

  lemma ReadManyStep<T(!new)>(read: Reader<T>, encode: T -> seq<Byte>, fits: T -> bool, d: seq<Byte>, off: nat, front: seq<T>, x: T)
    requires Exact(read, encode, fits) && fits(x)
    requires ReadMany(read, d, off, |front|) == Some(Parsed(front, off + |EncodeMany(encode, front)|))
    requires At(d, off + |EncodeMany(encode, front)|, encode(x))
    ensures ReadMany(read, d, off, |front| + 1) ==
      Some(Parsed(front + [x], off + |EncodeMany(encode, front)| + |encode(x)|))
  {
    var mid := off + |EncodeMany(encode, front)|;
    assert ExactAt(read, encode, fits, d, mid, x, mid + |encode(x)|);
  }

  lemma {:induction false} ManySound<T(!new)>(read: Reader<T>, encode: T -> seq<Byte>, fits: T -> bool, d: seq<Byte>, off: nat, n: nat)
    requires Exact(read, encode, fits) && off <= |d| && ReadMany(read, d, off, n).Some?
    ensures var r := ReadMany(read, d, off, n).value;
      && |r.value| == n && AllFit(fits, r.value)
      && At(d, off, EncodeMany(encode, r.value)) && r.next == off + |EncodeMany(encode, r.value)|
  {
    if n > 0 {
      ManySound(read, encode, fits, d, off, n - 1);
      var f := ReadMany(read, d, off, n - 1).value;
      var x := read(d, f.next).value;
      assert ExactAt(read, encode, fits, d, f.next, x.value, x.next);
      AtConcat(d, off, EncodeMany(encode, f.value), encode(x.value));
      assert (f.value + [x.value])[..n - 1] == f.value;
    }
  }

  ghost function OutputFits(c: Caps): Output -> bool { o => FitsOutput(c, o) }
  ghost function InputFits(c: Caps): Input -> bool { i => FitsInput(c, i) }

  lemma OutputReaderExact(c: Caps)
    ensures Exact(OutputReader(c), EncodeOutput, OutputFits(c))
  {
    forall d, off, x, next ensures ExactAt(OutputReader(c), EncodeOutput, OutputFits(c), d, off, x, next) { OutputExact(c, d, off, x, next); }
  }

  lemma InputReaderExact(c: Caps)
    ensures Exact(InputReader(c), EncodeInput, InputFits(c))
  {
    forall d, off, x, next ensures ExactAt(InputReader(c), EncodeInput, InputFits(c), d, off, x, next) { InputExact(c, d, off, x, next); }
  }

  lemma HeaderFields(d: seq<Byte>, version: Byte, publicKey: Bytes32, inputs: nat, outputs: nat, fee: U64)
    ensures At(d, 0, EncodeHeader(version, publicKey, inputs, outputs, fee)) <==>
      && At(d, 0, [version]) && At(d, 1, publicKey) && At(d, 33, ToLe(inputs, 4)) && At(d, 37, ToLe(outputs, 4))
      && At(d, 41, ToLe(fee, 8))
  {
    var a := [version] + publicKey;
    var b := a + ToLe(inputs, 4);
    var c := b + ToLe(outputs, 4);
    AtConcat(d, 0, c, ToLe(fee, 8));
    AtConcat(d, 0, b, ToLe(outputs, 4));
    AtConcat(d, 0, a, ToLe(inputs, 4));
    AtConcat(d, 0, [version], publicKey);
  }

  lemma HeaderExact(c: Caps, d: seq<Byte>, version: Byte, publicKey: Bytes32, inputs: nat, outputs: nat, fee: U64)
    requires |d| >= HEADER_SIZE && inputs <= c.inputs && outputs <= c.outputs
    ensures At(d, 0, EncodeHeader(version, publicKey, inputs, outputs, fee)) <==>
      d[0] == version && Sub(d, 1, 32) == publicKey && Number(d, 33, 4) == inputs && Number(d, 37, 4) == outputs && FeeAt(d) == fee
  {
    HeaderFields(d, version, publicKey, inputs, outputs, fee);
    AtIsSub(d, 0, [version]);
    assert Sub(d, 0, 1) == [d[0]];
    AtIsSub(d, 1, publicKey);
    NumberExact4(d, 33, inputs);
    NumberExact4(d, 37, outputs);
    Limit8();
    NumberExact(d, 41, 8, fee);
  }

  /** The body is read exactly on the encodings of the two lists, to the last byte. */
  lemma BodySound(c: Caps, d: seq<Byte>, inputs: nat, outputs: nat)
    requires |d| >= HEADER_SIZE && ReadBody(c, d, inputs, outputs).Some?
    ensures var (os, ins) := ReadBody(c, d, inputs, outputs).value;
      && |os| == outputs && |ins| == inputs && AllFit(OutputFits(c), os) && AllFit(InputFits(c), ins)
      && At(d, HEADER_SIZE, EncodeMany(EncodeOutput, os))
      && At(d, HEADER_SIZE + |EncodeMany(EncodeOutput, os)|, EncodeMany(EncodeInput, ins))
      && HEADER_SIZE + |EncodeMany(EncodeOutput, os)| + |EncodeMany(EncodeInput, ins)| == |d|
  {
    OutputReaderExact(c);
    InputReaderExact(c);
    var (os, ins) := ReadBody(c, d, inputs, outputs).value;
    ManySound(OutputReader(c), EncodeOutput, OutputFits(c), d, HEADER_SIZE, outputs);
    var mid := HEADER_SIZE + |EncodeMany(EncodeOutput, os)|;
    ManySound(InputReader(c), EncodeInput, InputFits(c), d, mid, inputs);
  }

  lemma OutputsComplete(c: Caps, d: seq<Byte>, off: nat, os: seq<Output>, next: nat)
    requires AllFit(OutputFits(c), os) && At(d, off, EncodeMany(EncodeOutput, os)) && next == off + |EncodeMany(EncodeOutput, os)|
    ensures ReadMany(OutputReader(c), d, off, |os|) == Some(Parsed(os, next))
  {
    OutputReaderExact(c);
    ManyComplete(OutputReader(c), EncodeOutput, OutputFits(c), d, off, os);
  }

  lemma InputsComplete(c: Caps, d: seq<Byte>, off: nat, ins: seq<Input>, next: nat)
    requires AllFit(InputFits(c), ins) && At(d, off, EncodeMany(EncodeInput, ins)) && next == off + |EncodeMany(EncodeInput, ins)|
    ensures ReadMany(InputReader(c), d, off, |ins|) == Some(Parsed(ins, next))
  {
    InputReaderExact(c);
    ManyComplete(InputReader(c), EncodeInput, InputFits(c), d, off, ins);
  }

  lemma BodyRead(c: Caps, d: seq<Byte>, mid: nat, os: seq<Output>, ins: seq<Input>)
    requires ReadMany(OutputReader(c), d, HEADER_SIZE, |os|) == Some(Parsed(os, mid))
    requires ReadMany(InputReader(c), d, mid, |ins|) == Some(Parsed(ins, |d|))
    ensures ReadBody(c, d, |ins|, |os|) == Some((os, ins))
  {
  }

  lemma BodyComplete(c: Caps, d: seq<Byte>, os: seq<Output>, ins: seq<Input>)
    requires AllFit(OutputFits(c), os) && AllFit(InputFits(c), ins)
    requires At(d, HEADER_SIZE, EncodeMany(EncodeOutput, os))
    requires At(d, HEADER_SIZE + |EncodeMany(EncodeOutput, os)|, EncodeMany(EncodeInput, ins))
    requires HEADER_SIZE + |EncodeMany(EncodeOutput, os)| + |EncodeMany(EncodeInput, ins)| == |d|
    ensures ReadBody(c, d, |ins|, |os|) == Some((os, ins))
  {
    var mid := HEADER_SIZE + |EncodeMany(EncodeOutput, os)|;
    OutputsComplete(c, d, HEADER_SIZE, os, mid);
    InputsComplete(c, d, mid, ins, |d|);
    BodyRead(c, d, mid, os, ins);
  }

  lemma EncodeParts(d: seq<Byte>, tx: Transaction)
    ensures d == Encode(tx) <==>
      && At(d, 0, EncodeHeader(tx.version, tx.publicKey, |tx.inputs|, |tx.outputs|, tx.fee))
      && At(d, HEADER_SIZE, EncodeMany(EncodeOutput, tx.outputs))
      && At(d, HEADER_SIZE + |EncodeMany(EncodeOutput, tx.outputs)|, EncodeMany(EncodeInput, tx.inputs))
      && |d| == HEADER_SIZE + |EncodeMany(EncodeOutput, tx.outputs)| + |EncodeMany(EncodeInput, tx.inputs)|
  {
    var head := EncodeHeader(tx.version, tx.publicKey, |tx.inputs|, |tx.outputs|, tx.fee);
    var os, ins := EncodeMany(EncodeOutput, tx.outputs), EncodeMany(EncodeInput, tx.inputs);
    assert Encode(tx) == head + (os + ins);
    AtAll(d, Encode(tx));
    AtConcat(d, 0, head, os + ins);
    AtConcat(d, HEADER_SIZE, os, ins);
  }

  /** Whatever the parser accepts fits the limits and is the printed form of its result: there
      is one encoding of each transaction. */
  lemma DecodeSound(c: Caps, d: seq<Byte>)
    requires Decode(c, d).Some?
    ensures Fits(c, Decode(c, d).value) && Encode(Decode(c, d).value) == d
  {
    var tx := Decode(c, d).value;
    BodySound(c, d, Number(d, 33, 4), Number(d, 37, 4));
    HeaderExact(c, d, tx.version, tx.publicKey, |tx.inputs|, |tx.outputs|, tx.fee);
    EncodeParts(d, tx);
    FitsIsAllFit(c, tx);
  }

  lemma FitsIsAllFit(c: Caps, tx: Transaction)
    ensures Fits(c, tx) <==>
      && |tx.inputs| <= c.inputs && AllFit(InputFits(c), tx.inputs)
      && |tx.outputs| <= c.outputs && AllFit(OutputFits(c), tx.outputs)
  {
  }

  /** The parser undoes the printer on every transaction within the limits. */
  lemma DecodeEncode(c: Caps, tx: Transaction)
    requires Fits(c, tx)
    ensures Decode(c, Encode(tx)) == Some(tx)
  {
    var d := Encode(tx);
    EncodeParts(d, tx);
    FitsIsAllFit(c, tx);
    HeaderExact(c, d, tx.version, tx.publicKey, |tx.inputs|, |tx.outputs|, tx.fee);
    BodyComplete(c, d, tx.outputs, tx.inputs);
  }

  /** Distinct transactions have distinct encodings, within the limits of the format alone. */
  lemma EncodeInjective(a: Transaction, b: Transaction)
    requires Fits(FORMAT, a) && Fits(FORMAT, b) && Encode(a) == Encode(b)
    ensures a == b
  {
    DecodeEncode(FORMAT, a);
    DecodeEncode(FORMAT, b);
  }

  // ---------------------------------------------------------------- the printers

  lemma OutputSize(o: Output)
    ensures |EncodeOutput(o)| == 204 + |o.rangeProof|
  {
  }

  lemma InputSize(i: Input)
    ensures |EncodeInput(i)| == 72 + 32 * |i.ringMembers| + 32 * |i.ringCommitments| + |i.signature|
  {
  }

  /** Writing the items of xs one by one stays within the space for all of them. */
  lemma {:induction false} ManyPrefix<T>(encode: T -> seq<Byte>, xs: seq<T>, k: nat)
    requires k < |xs|
    ensures EncodeMany(encode, xs[..k + 1]) == EncodeMany(encode, xs[..k]) + encode(xs[k])
    ensures |EncodeMany(encode, xs[..k + 1])| <= |EncodeMany(encode, xs)|
    decreases |xs|
  {
    assert xs[..k + 1][..k] == xs[..k];
    if k + 1 == |xs| {
      assert xs[..k + 1] == xs;
    } else {
      var front := xs[..|xs| - 1];
      assert front[..k + 1] == xs[..k + 1] && front[..k] == xs[..k];
      ManyPrefix(encode, front, k);
    }
  }

  method PrefixSize(os: seq<Output>) returns (n: nat)
    ensures n == HEADER_SIZE + |EncodeMany(EncodeOutput, os)|
  {
    n := 1 + 32 + 4 + 4 + 8;
    for k := 0 to |os|
      invariant n == HEADER_SIZE + |EncodeMany(EncodeOutput, os[..k])|
    {
      ManyPrefix(EncodeOutput, os, k);
      OutputSize(os[k]);
      n := n + 32 + 32 + 8 + 128 + 4 + |os[k].rangeProof|;
    }
    assert os[..|os|] == os;
  }

  /** The room the node's printer makes for an input: it counts the ring members twice. */
  ghost function InputRoom(i: Input): nat { 72 + 64 * |i.ringMembers| + |i.signature| }

  ghost function InputsRoom(ins: seq<Input>): nat {
    if ins == [] then 0 else InputsRoom(ins[..|ins| - 1]) + InputRoom(ins[|ins| - 1])
  }

  ghost function Room(tx: Transaction): nat { |EncodePrefix(tx)| + InputsRoom(tx.inputs) }

  /** Ring members less ring commitments, over all inputs. */
  ghost function Skew(ins: seq<Input>): int {
    if ins == [] then 0 else Skew(ins[..|ins| - 1]) + |ins[|ins| - 1].ringMembers| - |ins[|ins| - 1].ringCommitments|
  }

  lemma {:induction false} RoomSkew(ins: seq<Input>)
    ensures InputsRoom(ins) == |EncodeMany(EncodeInput, ins)| + 32 * Skew(ins)
  {
    if ins != [] {
      RoomSkew(ins[..|ins| - 1]);
      InputSize(ins[|ins| - 1]);
    }
  }

  lemma {:induction false} EvenSkew(ins: seq<Input>)
    requires forall i :: i in ins ==> EvenRing(i)
    ensures Skew(ins) == 0
  {
    if ins != [] {
      EvenSkew(ins[..|ins| - 1]);
      assert EvenRing(ins[|ins| - 1]);
    }
  }

  /** The room is the printed length exactly when there are as many members as commitments. */
  lemma RoomIsLength(tx: Transaction)
    ensures Room(tx) == |Encode(tx)| <==> Skew(tx.inputs) == 0
    ensures (forall i :: i in tx.inputs ==> EvenRing(i)) ==> Room(tx) == |Encode(tx)|
  {
    RoomSkew(tx.inputs);
    if forall i :: i in tx.inputs ==> EvenRing(i) { EvenSkew(tx.inputs); }
  }

  /** The size the source computes before printing. */
  method Size(tx: Transaction) returns (n: nat)
    ensures n == Room(tx)
  {
    n := PrefixSize(tx.outputs);
    for k := 0 to |tx.inputs|
      invariant n == |EncodePrefix(tx)| + InputsRoom(tx.inputs[..k])
    {
      assert tx.inputs[..k + 1][..k] == tx.inputs[..k];
      var ring := |tx.inputs[k].ringMembers|;
      n := n + 32 + 32 + 4 + ring * 32 + ring * 32 + 4 + |tx.inputs[k].signature|;
    }
    assert tx.inputs[..|tx.inputs|] == tx.inputs;
  }

  // Writing past the room: a copy is cut off at the end of the buffer, and a copy or a number
  // that would start past it (or a number that would end past it) stops the program. An offset
  // is None from then on.

  /** A buffer of n zeros after `bytes` were written to it from its start. */
  ghost function Fitted(bytes: seq<Byte>, n: nat): (r: seq<Byte>)
    ensures |r| == n && (|bytes| == n ==> r == bytes)
  {
    seq(n, i requires 0 <= i < n => if i < |bytes| then bytes[i] else 0)
  }

  ghost predicate Wrote(buf: seq<Byte>, off: Option<nat>, bytes: seq<Byte>) {
    off.Some? ==> off.value == |bytes| && buf == Fitted(bytes, |buf|)
  }

  /** Writing n more bytes moves the offset by n, and can only fail past the end. */
  ghost predicate Moved(off: Option<nat>, next: Option<nat>, n: nat, length: nat) {
    && (next.Some? ==> off.Some? && next.value == off.value + n)
    && (next.None? ==> off.None? || off.value + n > length)
  }

  method Copy(buf: array<Byte>, off: Option<nat>, s: seq<Byte>, ghost bytes: seq<Byte>) returns (next: Option<nat>)
    requires Wrote(buf[..], off, bytes)
    modifies buf
    ensures Wrote(buf[..], next, bytes + s)
    ensures next == if off.Some? && off.value <= buf.Length then Some(off.value + |s|) else None
  {
    if off.None? || off.value > buf.Length { return None; }
    var at := off.value;
    ghost var b0 := buf[..];
    for k := 0 to |s|
      invariant forall j :: 0 <= j < buf.Length ==> buf[j] == if at <= j < at + k then s[j - at] else b0[j]
    {
      if at + k < buf.Length { buf[at + k] := s[k]; }
    }
    assert buf[..] == Fitted(bytes + s, buf.Length);
    return Some(at + |s|);
  }

  method CopyNumber(buf: array<Byte>, off: Option<nat>, x: nat, n: nat, ghost bytes: seq<Byte>) returns (next: Option<nat>)
    requires Wrote(buf[..], off, bytes)
    modifies buf
    ensures Wrote(buf[..], next, bytes + ToLe(x, n))
    ensures next == if off.Some? && off.value + n <= buf.Length then Some(off.value + n) else None
  {
    if off.None? || off.value + n > buf.Length { return None; }
    next := Copy(buf, off, ToLe(x, n), bytes);
  }

  method CopyKeys(buf: array<Byte>, off: Option<nat>, ks: seq<Bytes32>, ghost bytes: seq<Byte>) returns (next: Option<nat>)
    requires Wrote(buf[..], off, bytes)
    modifies buf
    ensures Wrote(buf[..], next, bytes + EncodeKeys(ks))
    ensures Moved(off, next, 32 * |ks|, buf.Length)
  {
    next := off;
    assert bytes + EncodeKeys(ks[..0]) == bytes;
    for k := 0 to |ks|
      invariant Wrote(buf[..], next, bytes + EncodeKeys(ks[..k])) && Moved(off, next, 32 * k, buf.Length)
    {
      assert ks[..k + 1][..k] == ks[..k];
      assert bytes + EncodeKeys(ks[..k]) + ks[k] == bytes + EncodeKeys(ks[..k + 1]);
      next := Copy(buf, next, ks[k], bytes + EncodeKeys(ks[..k]));
    }
    assert ks[..|ks|] == ks;
  }

  method CopyHeader(buf: array<Byte>, version: Byte, publicKey: Bytes32, inputs: nat, outputs: nat, fee: U64) returns (next: Option<nat>)
    requires HEADER_SIZE <= buf.Length && buf[..] == Fitted([], buf.Length)
    modifies buf
    ensures next == Some(HEADER_SIZE) && Wrote(buf[..], next, EncodeHeader(version, publicKey, inputs, outputs, fee))
  {
    ghost var b: seq<Byte> := [];
    next := Copy(buf, Some(0), [version], b);
    b := b + [version];
    next := Copy(buf, next, publicKey, b);
    b := b + publicKey;
    next := CopyNumber(buf, next, inputs, 4, b);
    b := b + ToLe(inputs, 4);
    next := CopyNumber(buf, next, outputs, 4, b);
    b := b + ToLe(outputs, 4);
    next := CopyNumber(buf, next, fee, 8, b);
  }

  method CopyOutput(buf: array<Byte>, off: Option<nat>, o: Output, ghost bytes: seq<Byte>) returns (next: Option<nat>)
    requires Wrote(buf[..], off, bytes)
    modifies buf
    ensures Wrote(buf[..], next, bytes + EncodeOutput(o))
    ensures Moved(off, next, |EncodeOutput(o)|, buf.Length)
  {
    OutputSize(o);
    ghost var b := bytes;
    next := Copy(buf, off, o.publicKey, b);
    b := b + o.publicKey;
    next := Copy(buf, next, o.commitment, b);
    b := b + o.commitment;
    next := Copy(buf, next, o.encryptedAmount, b);
    b := b + o.encryptedAmount;
    next := Copy(buf, next, o.encryptedMemo, b);
    b := b + o.encryptedMemo;
    next := CopyNumber(buf, next, |o.rangeProof|, 4, b);
    b := b + ToLe(|o.rangeProof|, 4);
    next := Copy(buf, next, o.rangeProof, b);
    OutputChunks(bytes, o);
  }

  lemma OutputChunks(pre: seq<Byte>, o: Output)
    ensures pre + o.publicKey + o.commitment + o.encryptedAmount + o.encryptedMemo + ToLe(|o.rangeProof|, 4) + o.rangeProof
      == pre + EncodeOutput(o)
  {
  }

  lemma InputChunks(pre: seq<Byte>, i: Input)
    ensures pre + i.keyImage + i.pseudoOutput + ToLe(|i.ringMembers|, 4) + EncodeKeys(i.ringMembers)
      + EncodeKeys(i.ringCommitments) + ToLe(|i.signature|, 4) + i.signature == pre + EncodeInput(i)
  {
  }

  /** Writing an input fails exactly if its signature would start past the end. */
  method CopyInput(buf: array<Byte>, off: Option<nat>, i: Input, ghost bytes: seq<Byte>) returns (next: Option<nat>)
    requires Wrote(buf[..], off, bytes)
    modifies buf
    ensures Wrote(buf[..], next, bytes + EncodeInput(i))
    ensures next == if off.Some? && off.value + |EncodeInput(i)| - |i.signature| <= buf.Length then Some(off.value + |EncodeInput(i)|) else None
  {
    InputSize(i);
    ghost var b := bytes;
    next := Copy(buf, off, i.keyImage, b);
    b := b + i.keyImage;
    next := Copy(buf, next, i.pseudoOutput, b);
    b := b + i.pseudoOutput;
    next := CopyNumber(buf, next, |i.ringMembers|, 4, b);
    b := b + ToLe(|i.ringMembers|, 4);
    next := CopyKeys(buf, next, i.ringMembers, b);
    b := b + EncodeKeys(i.ringMembers);
    next := CopyKeys(buf, next, i.ringCommitments, b);
    b := b + EncodeKeys(i.ringCommitments);
    next := CopyNumber(buf, next, |i.signature|, 4, b);
    b := b + ToLe(|i.signature|, 4);
    next := Copy(buf, next, i.signature, b);
    InputChunks(bytes, i);
  }

  method CopyOutputs(buf: array<Byte>, off: Option<nat>, os: seq<Output>, ghost bytes: seq<Byte>) returns (next: Option<nat>)
    requires Wrote(buf[..], off, bytes)
    modifies buf
    ensures Wrote(buf[..], next, bytes + EncodeMany(EncodeOutput, os))
    ensures Moved(off, next, |EncodeMany(EncodeOutput, os)|, buf.Length)
  {
    next := off;
    assert bytes + EncodeMany(EncodeOutput, os[..0]) == bytes;
    for k := 0 to |os|
      invariant Wrote(buf[..], next, bytes + EncodeMany(EncodeOutput, os[..k]))
      invariant Moved(off, next, |EncodeMany(EncodeOutput, os[..k])|, buf.Length)
    {
      ManyPrefix(EncodeOutput, os, k);
      ghost var done := EncodeMany(EncodeOutput, os[..k]);
      assert bytes + done + EncodeOutput(os[k]) == bytes + (done + EncodeOutput(os[k]));
      next := CopyOutput(buf, next, os[k], bytes + done);
    }
    assert os[..|os|] == os;
  }

  /** Where the last signature starts, for a list of inputs written after `start` bytes. */
  ghost function LastStart(start: nat, ins: seq<Input>): nat {
    if ins == [] then 0 else start + |EncodeMany(EncodeInput, ins)| - |ins[|ins| - 1].signature|
  }

  lemma LastStartStep(start: nat, ins: seq<Input>, k: nat)
    requires k < |ins|
    ensures EncodeMany(EncodeInput, ins[..k + 1]) == EncodeMany(EncodeInput, ins[..k]) + EncodeInput(ins[k])
    ensures LastStart(start, ins[..k]) <= start + |EncodeMany(EncodeInput, ins[..k])|
    ensures LastStart(start, ins[..k + 1]) == start + |EncodeMany(EncodeInput, ins[..k])| + |EncodeInput(ins[k])| - |ins[k].signature|
    ensures |EncodeInput(ins[k])| >= |ins[k].signature|
  {
    ManyPrefix(EncodeInput, ins, k);
    InputSize(ins[k]);
  }

  method CopyInputs(buf: array<Byte>, off: nat, ins: seq<Input>, ghost bytes: seq<Byte>) returns (next: Option<nat>)
    requires Wrote(buf[..], Some(off), bytes)
    modifies buf
    ensures Wrote(buf[..], next, bytes + EncodeMany(EncodeInput, ins))
    ensures next.Some? <==> LastStart(off, ins) <= buf.Length
  {
    next := Some(off);
    assert bytes + EncodeMany(EncodeInput, ins[..0]) == bytes;
    for k := 0 to |ins|
      invariant Wrote(buf[..], next, bytes + EncodeMany(EncodeInput, ins[..k]))
      invariant next.Some? <==> LastStart(off, ins[..k]) <= buf.Length
    {
      LastStartStep(off, ins, k);
      ghost var done, more := EncodeMany(EncodeInput, ins[..k]), EncodeInput(ins[k]);
      assert bytes + done + more == bytes + (done + more);
      next := CopyInput(buf, next, ins[k], bytes + done);
    }
    assert ins[..|ins|] == ins;
  }

  /** Rings with so many more commitments than members that the last signature does not start
      within the room. */
  ghost predicate Overruns(tx: Transaction) {
    LastStart(|EncodePrefix(tx)|, tx.inputs) > Room(tx)
  }

  method CopyPrefix(buf: array<Byte>, version: Byte, publicKey: Bytes32, inputs: nat, outputs: seq<Output>, fee: U64) returns (off: nat)
    requires buf[..] == Fitted([], buf.Length) && HEADER_SIZE + |EncodeMany(EncodeOutput, outputs)| <= buf.Length
    modifies buf
    ensures Wrote(buf[..], Some(off), EncodeHeader(version, publicKey, inputs, |outputs|, fee) + EncodeMany(EncodeOutput, outputs))
  {
    ghost var head := EncodeHeader(version, publicKey, inputs, |outputs|, fee);
    var next := CopyHeader(buf, version, publicKey, inputs, |outputs|, fee);
    next := CopyOutputs(buf, next, outputs, head);
    off := next.value;
  }

  /** Printing always fills exactly the room made. It yields the wire form where the room is
      its length, in particular for even rings, and stops the program exactly on an overrun. */
  method Serialize(tx: Transaction) returns (r: Option<seq<Byte>>)
    ensures r == if Overruns(tx) then None else Some(Fitted(Encode(tx), Room(tx)))
    ensures (forall i :: i in tx.inputs ==> EvenRing(i)) ==> r == Some(Encode(tx))
  {
    RoomIsLength(tx);
    var size := Size(tx);
    var buf := new Byte[size](_ => 0);
    assert buf[..] == Fitted([], size);
    var off := CopyPrefix(buf, tx.version, tx.publicKey, |tx.inputs|, tx.outputs, tx.fee);
    var next := CopyInputs(buf, off, tx.inputs, EncodePrefix(tx));
    r := if next.Some? then Some(buf[..]) else None;
  }

  /** The preimage of the signing hash. */
  method SigningPreimage(tx: Transaction) returns (bytes: seq<Byte>)
    ensures bytes == EncodePrefix(tx)
  {
    var size := PrefixSize(tx.outputs);
    var buf := new Byte[size](_ => 0);
    assert buf[..] == Fitted([], size);
    var off := CopyPrefix(buf, tx.version, tx.publicKey, |tx.inputs|, tx.outputs, tx.fee);
    bytes := buf[..];
  }

  // ---------------------------------------------------------------- the wallet's printer

  const WALLET_VERSION: Byte := 1

  /** The wallet's prefix is the preimage the node signs and verifies. */
  method WalletPrefix(publicKey: Bytes32, inputCount: nat, outputs: seq<Output>, fee: U64) returns (bytes: seq<Byte>)
    ensures bytes == EncodeHeader(WALLET_VERSION, publicKey, inputCount, |outputs|, fee) + EncodeMany(EncodeOutput, outputs)
    ensures forall ins: seq<Input> :: |ins| == inputCount ==>
      bytes == EncodePrefix(Transaction(WALLET_VERSION, publicKey, ins, outputs, fee))
  {
    var size := PrefixSize(outputs);
    var buf := new Byte[size](_ => 0);
    assert buf[..] == Fitted([], size);
    var off := CopyPrefix(buf, WALLET_VERSION, publicKey, inputCount, outputs, fee);
    bytes := buf[..];
  }

  method WalletInputSize(inputs: seq<Input>) returns (n: nat)
    ensures n == |EncodeMany(EncodeInput, inputs)|
  {
    n := 0;
    for k := 0 to |inputs|
      invariant n == |EncodeMany(EncodeInput, inputs[..k])|
    {
      var i := inputs[k];
      ManyPrefix(EncodeInput, inputs, k);
      InputSize(i);
      n := n + 32 + 32 + 4 + |i.ringMembers| * 32 + |i.ringCommitments| * 32 + 4 + |i.signature|;
    }
    assert inputs[..|inputs|] == inputs;
  }

  /** The wallet's full form is the wire form. Its size counts members and commitments apart, so
      it needs no condition on the rings. */
  method WalletSerialize(publicKey: Bytes32, inputs: seq<Input>, outputs: seq<Output>, fee: U64) returns (bytes: seq<Byte>)
    ensures bytes == Encode(Transaction(WALLET_VERSION, publicKey, inputs, outputs, fee))
  {
    var prefix := WalletPrefix(publicKey, |inputs|, outputs, fee);
    var inputSize := WalletInputSize(inputs);
    bytes := AppendInputs(prefix, inputSize, inputs);
  }

  method AppendInputs(prefix: seq<Byte>, inputSize: nat, inputs: seq<Input>) returns (bytes: seq<Byte>)
    requires inputSize == |EncodeMany(EncodeInput, inputs)|
    ensures bytes == prefix + EncodeMany(EncodeInput, inputs)
  {
    var buf := new Byte[|prefix| + inputSize](_ => 0);
    assert buf[..] == Fitted([], buf.Length);
    var off := Copy(buf, Some(0), prefix, []);
    assert [] + prefix == prefix;
    off := CopyInputs(buf, off.value, inputs, prefix);
    bytes := buf[..];
  }

  /** The two printers agree exactly when there are as many members as commitments; otherwise
      the node's form has another length. */
  lemma PrintersAgree(tx: Transaction)
    ensures !Overruns(tx) && Fitted(Encode(tx), Room(tx)) == Encode(tx) <==> Skew(tx.inputs) == 0
  {
    RoomIsLength(tx);
  }

  /** One input and no outputs: the node's form overruns, falls short or is padded as the commitments
      outnumber the members by more than the signature makes up for, by less, or not at all. */
  lemma OneUnevenRing(i: Input, version: Byte, publicKey: Bytes32, fee: U64)
    ensures var tx, m, c := Transaction(version, publicKey, [i], [], fee), |i.ringMembers|, |i.ringCommitments|;
      && Skew(tx.inputs) == m - c
      && (Overruns(tx) <==> 32 * c > 32 * m + |i.signature|)
      && (Room(tx) < |Encode(tx)| <==> c > m) && (Room(tx) > |Encode(tx)| <==> c < m)
  {
    var ins := [i];
    var tx := Transaction(version, publicKey, ins, [], fee);
    InputSize(i);
    LastStartStep(|EncodePrefix(tx)|, ins, 0);
    assert ins[..0] == [] && ins[..1] == ins;
    assert |EncodeMany(EncodeInput, ins)| == |EncodeInput(i)|;
    assert Skew(ins) == Skew([]) + |i.ringMembers| - |i.ringCommitments|;
    RoomSkew(ins);
    assert |Encode(tx)| == |EncodePrefix(tx)| + |EncodeMany(EncodeInput, ins)|;
  }

  /** A transaction whose node form loses its last bytes, and one whose printing overruns. */
  lemma UnevenRings() returns (cut: Transaction, over: Transaction)
    ensures !Overruns(cut) && |Fitted(Encode(cut), Room(cut))| < |Encode(cut)| && Overruns(over)
  {
    var zero: Bytes32 := seq(32, _ => 0);
    var i, j := Input(zero, zero, [], [zero], zero), Input(zero, zero, [], [zero], []);
    cut, over := Transaction(1, zero, [i], [], 0), Transaction(1, zero, [j], [], 0);
    OneUnevenRing(i, 1, zero, 0);
    OneUnevenRing(j, 1, zero, 0);
  }

  // ---------------------------------------------------------------- the parser

  /** Once an item cannot be read, the run it belongs to cannot be read. */
  lemma {:induction false} ManyFails<T>(read: Reader<T>, d: seq<Byte>, off: nat, k: nat, n: nat)
    requires k <= n && ReadMany(read, d, off, k).None?
    ensures ReadMany(read, d, off, n).None?
    decreases n
  {
    if k < n { ManyFails(read, d, off, k, n - 1); }
  }

  method ParseOutput(d: seq<Byte>, at: nat) returns (r: Option<Parsed<Output>>)
    ensures r == ReadOutput(PARSER, d, at)
  {
    var off := at;
    if off + 32 + 32 + 8 + 128 + 4 > |d| { return None; }
    var publicKey := Sub(d, off, 32);
    off := off + 32;
    var commitment := Sub(d, off, 32);
    off := off + 32;
    var amount := Sub(d, off, 8);
    off := off + 8;
    var memo := Sub(d, off, 128);
    off := off + 128;
    var n := Number(d, off, 4);
    off := off + 4;
    if n > PARSER.proof { return None; }
    if off + n > |d| { return None; }
    var proof := Sub(d, off, n);
    off := off + n;
    return Some(Parsed(Output(publicKey, commitment, amount, memo, proof), off));
  }

  method ParseKeys(d: seq<Byte>, at: nat, n: nat) returns (ks: seq<Bytes32>, off: nat)
    requires at + 32 * n <= |d|
    ensures ks == ReadKeys(d, at, n) && off == at + 32 * n
  {
    ks, off := [], at;
    for j := 0 to n
      invariant off == at + 32 * j && |ks| == j && forall k :: 0 <= k < j ==> ks[k] == KeyAt(d, at, k)
    {
      ks := ks + [Sub(d, off, 32)];
      off := off + 32;
    }
  }

  method ParseInput(d: seq<Byte>, at: nat) returns (r: Option<Parsed<Input>>)
    ensures r == ReadInput(PARSER, d, at)
  {
    var off := at;
    if off + 32 + 32 + 4 > |d| { return None; }
    var keyImage := Sub(d, off, 32);
    off := off + 32;
    var pseudoOutput := Sub(d, off, 32);
    off := off + 32;
    var n := Number(d, off, 4);
    off := off + 4;
    if n > PARSER.ring { return None; }
    if off + n * 32 > |d| { return None; }
    var members, commitments;
    members, off := ParseKeys(d, off, n);
    if off + n * 32 > |d| { return None; }
    commitments, off := ParseKeys(d, off, n);
    if off + 4 > |d| { return None; }
    var sigLen := Number(d, off, 4);
    off := off + 4;
    if sigLen > PARSER.signature { return None; }
    if off + sigLen > |d| { return None; }
    var signature := Sub(d, off, sigLen);
    off := off + sigLen;
    return Some(Parsed(Input(keyImage, pseudoOutput, members, commitments, signature), off));
  }

  method ParseOutputs(d: seq<Byte>, at: nat, n: nat) returns (r: Option<Parsed<seq<Output>>>)
    ensures r == ReadMany(OutputReader(PARSER), d, at, n)
  {
    var os, off := [], at;
    for k := 0 to n
      invariant ReadMany(OutputReader(PARSER), d, at, k) == Some(Parsed(os, off))
    {
      var o := ParseOutput(d, off);
      if o.None? {
        ManyFails(OutputReader(PARSER), d, at, k + 1, n);
        return None;
      }
      os, off := os + [o.value.value], o.value.next;
    }
    return Some(Parsed(os, off));
  }

  method ParseInputs(d: seq<Byte>, at: nat, n: nat) returns (r: Option<Parsed<seq<Input>>>)
    ensures r == ReadMany(InputReader(PARSER), d, at, n)
  {
    var ins, off := [], at;
    for k := 0 to n
      invariant ReadMany(InputReader(PARSER), d, at, k) == Some(Parsed(ins, off))
    {
      var i := ParseInput(d, off);
      if i.None? {
        ManyFails(InputReader(PARSER), d, at, k + 1, n);
        return None;
      }
      assert InputReader(PARSER)(d, off) == i;
      ins, off := ins + [i.value.value], i.value.next;
    }
    return Some(Parsed(ins, off));
  }

  /** The limits in numbers. */
  ghost predicate WithinLimits(tx: Transaction) {
    && |tx.inputs| <= 256 && |tx.outputs| <= 256
    && (forall i :: i in tx.inputs ==>
         |i.ringMembers| <= 16 && |i.ringCommitments| == |i.ringMembers| && |i.signature| <= 1120)
    && (forall o :: o in tx.outputs ==> |o.rangeProof| <= 1024)
  }

  lemma ParserLimits(tx: Transaction)
    ensures Fits(PARSER, tx) <==> WithinLimits(tx)
  {
  }

  /** The strict parser: it accepts exactly the printed forms of transactions within its limits. */
  method DeserializeTx(d: seq<Byte>) returns (r: Option<Transaction>)
    ensures r == Decode(PARSER, d)
    ensures r.Some? ==> Fits(PARSER, r.value) && Encode(r.value) == d
    ensures forall tx :: Fits(PARSER, tx) && Encode(tx) == d ==> r == Some(tx)
    ensures r.Some? ==> WithinLimits(r.value)
    ensures forall tx :: WithinLimits(tx) && Encode(tx) == d ==> r == Some(tx)
  {
    forall tx ensures Fits(PARSER, tx) <==> WithinLimits(tx) { ParserLimits(tx); }
    forall tx | Fits(PARSER, tx) && Encode(tx) == d ensures Decode(PARSER, d) == Some(tx) { DecodeEncode(PARSER, tx); }
    if Decode(PARSER, d).Some? { DecodeSound(PARSER, d); }
    if |d| < HEADER_SIZE { return None; }
    var inputCount := Number(d, 33, 4);
    if inputCount > PARSER.inputs { return None; }
    var outputCount := Number(d, 37, 4);
    if outputCount > PARSER.outputs { return None; }
    var outputs := ParseOutputs(d, HEADER_SIZE, outputCount);
    if outputs.None? { return None; }
    var inputs := ParseInputs(d, outputs.value.next, inputCount);
    if inputs.None? || inputs.value.next != |d| { return None; }
    return Some(Transaction(d[0], Sub(d, 1, 32), inputs.value.value, outputs.value.value, FeeAt(d)));
  }

  // ---------------------------------------------------------------- lengths

  lemma {:induction false} ManyLength<T>(encode: T -> seq<Byte>, xs: seq<T>, least: nat)
    requires forall x :: |encode(x)| >= least
    ensures |EncodeMany(encode, xs)| >= least * |xs|
  {
    if xs != [] {
      ManyLength(encode, xs[..|xs| - 1], least);
      assert least * |xs| == least * (|xs| - 1) + least;
    }
  }

  lemma {:induction false} ItemLength<T>(encode: T -> seq<Byte>, xs: seq<T>, i: nat)
    requires i < |xs|
    ensures |encode(xs[i])| <= |EncodeMany(encode, xs)|
  {
    if i < |xs| - 1 { ItemLength(encode, xs[..|xs| - 1], i); }
  }

  /** A transaction of less than 2^32 bytes with even rings is within the limits of the format. */
  lemma ShortFits(tx: Transaction)
    requires |Encode(tx)| < 0x1_0000_0000 && forall i :: i in tx.inputs ==> EvenRing(i)
    ensures Fits(FORMAT, tx)
  {
    forall o ensures |EncodeOutput(o)| >= 1 { OutputSize(o); }
    forall i ensures |EncodeInput(i)| >= 1 { InputSize(i); }
    ManyLength(EncodeOutput, tx.outputs, 1);
    ManyLength(EncodeInput, tx.inputs, 1);
    forall k | 0 <= k < |tx.outputs| ensures FitsOutput(FORMAT, tx.outputs[k]) {
      ItemLength(EncodeOutput, tx.outputs, k);
      OutputSize(tx.outputs[k]);
    }
    forall k | 0 <= k < |tx.inputs| ensures FitsInput(FORMAT, tx.inputs[k]) {
      assert tx.inputs[k] in tx.inputs;
      ItemLength(EncodeInput, tx.inputs, k);
      InputSize(tx.inputs[k]);
    }
  }

  /** No transaction is as long as two digests, so a leaf of the Merkle tree is never the
      preimage of an inner node. */
  lemma NeverTwoDigests(tx: Transaction)
    ensures |Encode(tx)| != 64
  {
    forall o ensures |EncodeOutput(o)| >= 72 { OutputSize(o); }
    forall i ensures |EncodeInput(i)| >= 72 { InputSize(i); }
    ManyLength(EncodeOutput, tx.outputs, 72);
    ManyLength(EncodeInput, tx.inputs, 72);
  }
}
