/** Words as bit sequences.

    A bit sequence, lowest bit first, stands both for an unsigned machine word (or a
    non-negative Python integer) and for the polynomial over GF(2) with those
    coefficients: `Xor` is addition and `Left` multiplication by x. Bytes stay integers
    and are taken apart with `BitsOf`. */
module Bits {

  type byte = b: int | 0 <= b < 256
  type bits = seq<bool>

  /** Bit i; there are only zeros beyond both ends. */
  predicate At(p: bits, i: int) {
    0 <= i < |p| && p[i]
  }

  function Max(m: nat, n: nat): nat {
    if m < n then n else m
  }

  function Xor(p: bits, q: bits): (r: bits)
    ensures |r| == Max(|p|, |q|)
    ensures forall i :: At(r, i) == (At(p, i) != At(q, i))
  {
    seq(Max(|p|, |q|), i => At(p, i) != At(q, i))
  }

  function And(p: bits, q: bits): (r: bits)
    ensures |r| == Max(|p|, |q|)
    ensures forall i :: At(r, i) == (At(p, i) && At(q, i))
  {
    seq(Max(|p|, |q|), i => At(p, i) && At(q, i))
  }

  /** p << 1 */
  function Left(p: bits): (r: bits)
    ensures |r| == |p| + 1
    ensures forall i :: At(r, i) == At(p, i - 1)
  {
    [false] + p
  }

  /** p << n, multiplication by x to the n */
  function Shift(p: bits, n: nat): (r: bits)
    ensures |r| == n + |p|
    ensures forall i :: At(r, i) == At(p, i - n)
  {
    Zeros(n) + p
  }

  /** p & (2^n - 1) */
  function Truncate(p: bits, n: nat): (r: bits)
    requires n <= |p|
    ensures |r| == n
    ensures forall i :: At(r, i) == (i < n && At(p, i))
  {
    p[..n]
  }

  function Zeros(n: nat): (r: bits)
    ensures |r| == n && forall i :: !At(r, i)
  {
    seq(n, _ => false)
  }

  lemma SameBits(p: bits, q: bits)
    requires |p| == |q| && forall i :: 0 <= i < |p| ==> At(p, i) == At(q, i)
    ensures p == q
  {
    forall i | 0 <= i < |p| ensures p[i] == q[i] {
      assert At(p, i) == At(q, i);
    }
  }

  // ----- values

  function Pow2(n: nat): (p: nat)
    ensures p > 0
  {
    if n == 0 then 1 else 2 * Pow2(n - 1)
  }

  function Value(p: bits): (v: nat)
    ensures v < Pow2(|p|)
  {
    if p == [] then 0 else (if p[0] then 1 else 0) + 2 * Value(p[1..])
  }

  function BitsOf(v: nat, n: nat): (p: bits)
    ensures |p| == n
    decreases n
  {
    if n == 0 then [] else [v % 2 == 1] + BitsOf(v / 2, n - 1)
  }

  /** Bit i of a number. */
  predicate Bit(v: nat, i: nat)
    decreases i
  {
    if i == 0 then v % 2 == 1 else Bit(v / 2, i - 1)
  }

  lemma {:induction false} BitOfBits(v: nat, n: nat, i: nat)
    requires i < n
    ensures BitsOf(v, n)[i] == Bit(v, i)
  {
    if i > 0 { BitOfBits(v / 2, n - 1, i - 1); }
  }

  lemma {:induction false} BitOfValue(p: bits, i: nat)
    ensures Bit(Value(p), i) == At(p, i)
  {
    if p == [] {
      BitOfZero(i);
    } else if i > 0 {
      BitOfValue(p[1..], i - 1);
    }
  }

  lemma {:induction false} BitOfZero(i: nat)
    ensures !Bit(0, i)
  {
    if i > 0 { BitOfZero(i - 1); }
  }

  /** Adding a power of two to a smaller number sets that bit and changes no lower one. */
  lemma {:induction false} BitOfSum(v: nat, n: nat, i: nat)
    requires v < Pow2(n) && i <= n
    ensures Bit(v + Pow2(n), i) == (i == n || Bit(v, i))
    ensures !Bit(v, n)
    decreases n
  {
    if n > 0 {
      assert (v + Pow2(n)) / 2 == v / 2 + Pow2(n - 1);
      BitOfSum(v / 2, n - 1, if i > 0 then i - 1 else 0);
    }
  }

  lemma {:induction false} ValueAppend(p: bits, q: bits)
    ensures Value(p + q) == Value(p) + Pow2(|p|) * Value(q)
  {
    if p == [] {
      assert p + q == q;
    } else {
      assert (p + q)[1..] == p[1..] + q;
      ValueAppend(p[1..], q);
      DoubleProduct(Pow2(|p| - 1), Value(q));
      assert Value(p + q) == (if p[0] then 1 else 0) + 2 * Value(p[1..] + q);
    }
  }

  lemma DoubleProduct(a: nat, b: nat)
    ensures 2 * a * b == 2 * (a * b)
  {
  }

  lemma {:induction false} ValueOfBits(v: nat, n: nat)
    requires v < Pow2(n)
    ensures Value(BitsOf(v, n)) == v
    decreases n
  {
    if n > 0 { ValueOfBits(v / 2, n - 1); }
  }

  lemma {:induction false} ValueInjective(p: bits, q: bits)
    requires |p| == |q| && Value(p) == Value(q)
    ensures p == q
  {
    if p != [] {
      ValueInjective(p[1..], q[1..]);
      assert p == [p[0]] + p[1..] && q == [q[0]] + q[1..];
    }
  }

  lemma {:induction false} ValuePower(n: nat)
    ensures Value(Zeros(n) + [true]) == Pow2(n)
  {
    var p := Zeros(n) + [true];
    if n == 0 {
      assert p == [true];
    } else {
      assert !At(Zeros(n), 0) && p[1..] == Zeros(n - 1) + [true];
      ValuePower(n - 1);
    }
  }

  lemma Pow2Of8()
    ensures Pow2(8) == 256
  {
  }

  lemma Pow2Of24()
    ensures Pow2(24) == 0x100_0000
  {
    assert Pow2(8) == 256;
    assert Pow2(16) == 0x1_0000;
  }

  // ----- weight and parity

  /** The number of one bits. */
  function Ones(p: bits): nat {
    if p == [] then 0 else Ones(p[..|p| - 1]) + if p[|p| - 1] then 1 else 0
  }

  /** True when the number of one bits is odd. */
  predicate Odd(p: bits) {
    if p == [] then false else Odd(p[..|p| - 1]) != p[|p| - 1]
  }

  lemma {:induction false} OddOnes(p: bits)
    ensures Odd(p) == (Ones(p) % 2 == 1)
  {
    if p != [] { OddOnes(p[..|p| - 1]); }
  }

  lemma {:induction false} OddXor(p: bits, q: bits)
    requires |p| == |q|
    ensures Odd(Xor(p, q)) == (Odd(p) != Odd(q))
  {
    if p != [] {
      var n := |p| - 1;
      OddXor(p[..n], q[..n]);
      assert Xor(p, q)[..n] == Xor(p[..n], q[..n]);
    }
  }

  lemma {:induction false} OddLeft(p: bits)
    ensures Odd(Left(p)) == Odd(p)
  {
    if p != [] {
      OddLeft(p[..|p| - 1]);
      assert Left(p)[..|p|] == Left(p[..|p| - 1]);
    }
  }

  // ----- bytes

  function AndByte(a: byte, b: byte): (r: byte)
  {
    Pow2Of8();
    Value(And(BitsOf(a, 8), BitsOf(b, 8)))
  }

  /** A bit of r is set if and only if it is set in both a and b. */
  ghost predicate IsAnd(r: byte, a: byte, b: byte) {
    forall i :: 0 <= i < 8 ==> Bit(r, i) == (Bit(a, i) && Bit(b, i))
  }

  lemma AndByteBits(a: byte, b: byte)
    ensures IsAnd(AndByte(a, b), a, b)
  {
    Pow2Of8();
    var p, q := BitsOf(a, 8), BitsOf(b, 8);
    hide Bit, BitsOf, Value;
    forall i | 0 <= i < 8 ensures Bit(Value(And(p, q)), i) == (Bit(a, i) && Bit(b, i)) {
      BitOfValue(And(p, q), i);
      BitOfBits(a, 8, i);
      BitOfBits(b, 8, i);
      assert At(And(p, q), i) == (At(p, i) && At(q, i));
    }
  }

  /** Programming an erased byte stores the data. */
  lemma AndErased(b: byte)
    ensures AndByte(255, b) == b
  {
    var p := BitsOf(b, 8);
    assert BitsOf(255, 8) == [true, true, true, true, true, true, true, true];
    SameBits(And(BitsOf(255, 8), p), p);
    Pow2Of8();
    ValueOfBits(b, 8);
  }

  /** n bytes that all hold 0xFF: erased flash, or a flushed page buffer. */
  function Blank(n: nat): (s: seq<byte>)
    ensures |s| == n && forall i :: 0 <= i < n ==> s[i] == 255
  {
    seq(n, _ => 255)
  }

  /** A 32-bit number as four bytes, least significant first. */
  function Le32(x: nat): (s: seq<byte>)
    ensures |s| == 4
  {
    [x % 256, x / 256 % 256, x / 65536 % 256, x / 16777216 % 256]
  }

  /** The bytes of a 32-bit number carry its value, the first one the least. */
  lemma Le32Value(x: nat)
    requires x < 0x1_0000_0000
    ensures var s := Le32(x); s[0] as int + 0x100 * s[1] as int + 0x1_0000 * s[2] as int + 0x100_0000 * s[3] as int == x
  {
    assert x / 65536 == x / 256 / 256;
    assert x / 16777216 == x / 65536 / 256;
  }

  function FromLe32(s: seq<byte>): nat
    requires |s| == 4
  {
    s[0] as int + 256 * s[1] as int + 65536 * s[2] as int + 16777216 * s[3] as int
  }

  function Le16(x: nat): (s: seq<byte>)
    ensures |s| == 2
  {
    [x % 256, x / 256 % 256]
  }

  function FromLe16(s: seq<byte>): nat
    requires |s| == 2
  {
    s[0] as int + 256 * s[1] as int
  }

  lemma Le16Value(x: nat)
    requires x < 0x1_0000
    ensures var s := Le16(x); s[0] as int + 0x100 * s[1] as int == x
  {
  }

  lemma Le32RoundTrip(x: nat)
    requires x < 0x1_0000_0000
    ensures FromLe32(Le32(x)) == x
  {
    assert x / 65536 == x / 256 / 256;
    assert x / 16777216 == x / 65536 / 256;
  }

  lemma Le16RoundTrip(x: nat)
    requires x < 0x1_0000
    ensures FromLe16(Le16(x)) == x
  {
  }
}
