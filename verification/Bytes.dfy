/** Byte strings and little-endian numbers. */
module Bytes {
  type Byte = x: int | 0 <= x < 256

  type Bytes8 = s: seq<Byte> | |s| == 8 witness seq(8, _ => 0)
  type Bytes32 = s: seq<Byte> | |s| == 32 witness seq(32, _ => 0)
  type Bytes128 = s: seq<Byte> | |s| == 128 witness seq(128, _ => 0)

  // ---------------------------------------------------------------- little-endian numbers

  /** Byte i of x, least significant first. */
  function Digit(x: nat, i: nat): Byte {
    if i == 0 then x % 256 else Digit(x / 256, i - 1)
  }

  /** The n low bytes of x, least significant first. */
  function ToLe(x: nat, n: nat): (s: seq<Byte>)
    ensures |s| == n
  {
    seq(n, i requires 0 <= i < n => Digit(x, i))
  }

  lemma ToLeStep(x: nat, n: nat)
    requires n > 0
    ensures ToLe(x, n) == [x % 256] + ToLe(x / 256, n - 1)
  {
  }

  function FromLe(s: seq<Byte>): nat {
    if s == [] then 0 else s[0] + 256 * FromLe(s[1..])
  }

  ghost function Limit(n: nat): (p: nat)
    ensures p > 0
  {
    if n == 0 then 1 else 256 * Limit(n - 1)
  }

  lemma {:induction false} FromToLe(x: nat, n: nat)
    requires x < Limit(n)
    ensures FromLe(ToLe(x, n)) == x
  {
    if n > 0 {
      ToLeStep(x, n);
      FromToLe(x / 256, n - 1);
      assert ToLe(x, n)[1..] == ToLe(x / 256, n - 1);
    }
  }

  lemma {:induction false} ToFromLe(s: seq<Byte>)
    ensures FromLe(s) < Limit(|s|) && ToLe(FromLe(s), |s|) == s
  {
    if s != [] {
      ToFromLe(s[1..]);
      ToLeStep(FromLe(s), |s|);
      assert FromLe(s) % 256 == s[0] && FromLe(s) / 256 == FromLe(s[1..]);
      assert s == [s[0]] + s[1..];
    }
  }

  lemma Limit4()
    ensures Limit(4) == 0x1_0000_0000
  {
    assert Limit(1) == 256 && Limit(2) == 0x1_0000 && Limit(3) == 0x100_0000;
  }

  lemma Limit8()
    ensures Limit(8) == 0x1_0000_0000_0000_0000
  {
    Limit4();
    assert Limit(5) == 0x100_0000_0000 && Limit(6) == 0x1_0000_0000_0000 && Limit(7) == 0x100_0000_0000_0000;
  }

  // ---------------------------------------------------------------- parts of a byte string

  /** The n bytes of d from position off. */
  function Sub(d: seq<Byte>, off: nat, n: nat): (s: seq<Byte>)
    requires off + n <= |d|
    ensures |s| == n
  {
    seq(n, i requires 0 <= i < n => d[off + i])
  }

  ghost predicate ByteAt(d: seq<Byte>, off: nat, s: seq<Byte>, i: nat)
    requires i < |s| && off + |s| <= |d|
  {
    d[off + i] == s[i]
  }

  /** The string s occurs in d at position off. */
  ghost predicate At(d: seq<Byte>, off: nat, s: seq<Byte>) {
    off + |s| <= |d| && forall i: nat {:trigger ByteAt(d, off, s, i)} :: i < |s| ==> ByteAt(d, off, s, i)
  }

  lemma AtIsSub(d: seq<Byte>, off: nat, s: seq<Byte>)
    ensures At(d, off, s) <==> off + |s| <= |d| && Sub(d, off, |s|) == s
  {
    if off + |s| <= |d| {
      if At(d, off, s) {
        forall i: nat | i < |s| ensures Sub(d, off, |s|)[i] == s[i] { assert ByteAt(d, off, s, i); }
      }
      if Sub(d, off, |s|) == s {
        forall i: nat | i < |s| ensures ByteAt(d, off, s, i) { assert Sub(d, off, |s|)[i] == s[i]; }
      }
    }
  }

  lemma AtConcat(d: seq<Byte>, off: nat, s: seq<Byte>, t: seq<Byte>)
    ensures At(d, off, s + t) <==> At(d, off, s) && At(d, off + |s|, t)
  {
    var u, mid := s + t, off + |s|;
    if At(d, off, u) {
      forall i: nat | i < |s| ensures ByteAt(d, off, s, i) { assert ByteAt(d, off, u, i); }
      forall i: nat | i < |t| ensures ByteAt(d, mid, t, i) { assert ByteAt(d, off, u, |s| + i); }
    }
    if At(d, off, s) && At(d, mid, t) {
      forall i: nat | i < |u| ensures ByteAt(d, off, u, i) {
        if i < |s| { assert ByteAt(d, off, s, i); } else { assert ByteAt(d, mid, t, i - |s|); }
      }
    }
  }

  /** A string that occurs at 0 and fills d is d. */
  lemma AtAll(d: seq<Byte>, s: seq<Byte>)
    ensures At(d, 0, s) && |s| == |d| <==> d == s
  {
    if At(d, 0, s) && |s| == |d| {
      forall i: nat | i < |s| ensures d[i] == s[i] { assert ByteAt(d, 0, s, i); }
    }
    if d == s {
      forall i: nat | i < |s| ensures ByteAt(d, 0, s, i) { }
    }
  }
}
