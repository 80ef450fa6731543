/** The checksum of the XMEGA non-volatile memory controller (scripts/xusbboot/crc.py).

    `CrcWord` and the method `XmegaNvmCrc` follow the code. `Message` and `IsRemainder`
    are the independent definition: the checksum of n words w is the remainder of
    sum w[i] x^(n-1-i) by x^24 + x^23 + x^4 + x^3 + x + 1. What the checksum detects
    follows from the step being linear, reversible and parity-keeping. */
module NvmChecksum {
  import opened Bits

  type word = w: bits | |w| == 16 witness Zeros(16)
  type crc24 = c: bits | |c| == 24 witness Zeros(24)

  datatype Option<T> = None | Some(value: T)

  /** The default polynomial, 0x80001b. */
  const POLY: crc24 := [true, true, false, true, true, false, false, false,
                        false, false, false, false, false, false, false, false,
                        false, false, false, false, false, false, false, true]

  const ZERO: crc24 := Zeros(24)

  lemma PolyValue()
    ensures Value(POLY) == 0x80001b
  {
    var tail := Zeros(18) + [true];
    assert POLY == [true] + ([true] + ([false] + ([true] + ([true] + tail))));
    PolyTail();
    hide Value, Zeros;
    ValuePrepend(true, tail);
    ValuePrepend(true, [true] + tail);
    ValuePrepend(false, [true] + ([true] + tail));
    ValuePrepend(true, [false] + ([true] + ([true] + tail)));
    ValuePrepend(true, [true] + ([false] + ([true] + ([true] + tail))));
  }

  lemma PolyTail()
    ensures Value(Zeros(18) + [true]) == 0x4_0000
  {
    hide Value;
    ValuePower(18);
    assert Pow2(10) == 0x400;
  }

  lemma ValuePrepend(b: bool, p: bits)
    ensures Value([b] + p) == (if b then 1 else 0) + 2 * Value(p)
  {
    assert ([b] + p)[1..] == p;
  }

  lemma PolyBits(e: int)
    ensures At(POLY, e) <==> e == 0 || e == 1 || e == 3 || e == 4 || e == 23
  {
  }

  // ----- the code

  function U24(p: bits): crc24
    requires |p| >= 24
  {
    Truncate(p, 24)
  }

  function CrcWord(crc: crc24, w: word): crc24
  {
    var carry := crc[23];
    var shifted := if carry then U24(Xor(Left(crc), POLY)) else U24(Left(crc));
    Xor(shifted, w)
  }

  /** The register after the words ws, started at crc. */
  function CrcFrom(crc: crc24, ws: seq<word>): crc24
  {
    if ws == [] then crc else CrcWord(CrcFrom(crc, ws[..|ws| - 1]), ws[|ws| - 1])
  }

  function Crc(ws: seq<word>): crc24 {
    CrcFrom(ZERO, ws)
  }

  function WordOf(lo: byte, hi: byte): word {
    BitsOf(lo, 8) + BitsOf(hi, 8)
  }

  /** Consecutive byte pairs as words, low byte first. */
  function Words(data: seq<byte>): (ws: seq<word>)
    ensures |ws| == |data| / 2
  {
    if |data| < 2 then [] else [WordOf(data[0], data[1])] + Words(data[2..])
  }

  lemma {:induction false} WordAt(data: seq<byte>, n: nat)
    requires 2 * n + 1 < |data|
    ensures n < |Words(data)| && Words(data)[n] == WordOf(data[2 * n], data[2 * n + 1])
  {
    hide WordOf;
    if n > 0 {
      WordAt(data[2..], n - 1);
      assert data[2..][2 * (n - 1)] == data[2 * n] && data[2..][2 * (n - 1) + 1] == data[2 * n + 1];
    }
  }

  /** The checksum of a byte string of even length, as the number the code computes. */
  function NvmCrc(data: seq<byte>): (v: nat)
    ensures v < 0x100_0000
  {
    Pow2Of24();
    Value(Crc(Words(data)))
  }

  /** None stands for the StopIteration that a trailing odd byte raises. */
  method XmegaNvmCrc(data: seq<byte>) returns (crc: Option<nat>)
    ensures crc == if |data| % 2 == 0 then Some(NvmCrc(data)) else None
    ensures crc.Some? ==> IsChecksum(data, crc.value)
    ensures |data| == 2 ==> crc == Some(data[0] as int + 256 * data[1] as int)
  {
    var c: crc24 := ZERO;
    var i := 0;
    ghost var n: nat := 0;
    hide *;
    CrcStart(data);
    while i < |data|
      invariant 2 * n == i <= |data|
      invariant CrcAfter(data, n, c)
    {
      var lo := data[i];
      if i + 1 == |data| {
        Half(|data|, n);
        return None;
      }
      var hi := data[i + 1];
      CrcNext(data, n, c);
      c := CrcWord(c, WordOf(lo, hi));
      i, n := i + 2, n + 1;
    }
    Half(|data|, n);
    CrcEnd(data, n, c);
    CrcMeans(data);
    return Some(Value(c));
  }

  lemma Half(m: nat, n: nat)
    ensures m == 2 * n ==> m % 2 == 0
    ensures m == 2 * n + 1 ==> m % 2 == 1
  {
  }

  /** The register after the first n words of a byte string. */
  ghost predicate CrcAfter(data: seq<byte>, n: nat, c: crc24)
    requires 2 * n <= |data|
  {
    c == Crc(Words(data)[..n])
  }

  lemma CrcStart(data: seq<byte>)
    ensures CrcAfter(data, 0, ZERO)
  {
    hide Words;
  }

  lemma CrcNext(data: seq<byte>, n: nat, c: crc24)
    requires 2 * n + 2 <= |data| && CrcAfter(data, n, c)
    ensures CrcAfter(data, n + 1, CrcWord(c, WordOf(data[2 * n], data[2 * n + 1])))
  {
    hide Words, CrcWord, WordOf, Crc;
    WordAt(data, n);
    CrcStep(Words(data), n);
  }

  lemma CrcEnd(data: seq<byte>, n: nat, c: crc24)
    requires 2 * n == |data| && CrcAfter(data, n, c)
    ensures NvmCrc(data) == Value(c)
  {
    hide Words, Value, Crc;
    assert Words(data)[..n] == Words(data);
  }

  lemma CrcStep(ws: seq<word>, n: nat)
    requires n < |ws|
    ensures Crc(ws[..n + 1]) == CrcWord(Crc(ws[..n]), ws[n])
  {
    assert ws[..n + 1][..n] == ws[..n];
  }

  /** One step, bit by bit. */
  lemma CrcWordAt(crc: crc24, w: word, i: int)
    requires 0 <= i < 24
    ensures CrcWord(crc, w)[i] == ((At(crc, i - 1) != At(w, i)) != (crc[23] && At(POLY, i)))
  {
    assert CrcWord(crc, w)[i] == At(CrcWord(crc, w), i);
  }

  // ----- the checksum is a polynomial remainder

  /** The message polynomial: word i stands at x^(n-1-i), so neighbouring words overlap. */
  function Message(ws: seq<word>): bits {
    if ws == [] then [] else Xor(Shift(ws[0], |ws| - 1), Message(ws[1..]))
  }

  /** Coefficient e of the product of q and the generator. */
  predicate MultipleAt(q: bits, e: int) {
    (At(q, e - 24) != At(q, e - 23)) != ((At(q, e - 4) != At(q, e - 3)) != (At(q, e - 1) != At(q, e)))
  }

  /** The polynomial m is q times the generator plus r. */
  ghost predicate IsQuotient(m: bits, q: bits, r: crc24) {
    forall e :: At(m, e) == (MultipleAt(q, e) != At(r, e))
  }

  ghost predicate IsRemainder(m: bits, r: crc24) {
    exists q :: IsQuotient(m, q, r)
  }

  /** Horner's rule: the message polynomial grows at its low end. */
  lemma {:induction false} MessageSnoc(ws: seq<word>, w: word, e: int)
    ensures At(Message(ws + [w]), e) == (At(Message(ws), e - 1) != At(w, e))
  {
    if ws != [] {
      assert (ws + [w])[1..] == ws[1..] + [w];
      MessageSnoc(ws[1..], w, e);
      assert At(Message(ws), e - 1) == (At(ws[0], e - |ws|) != At(Message(ws[1..]), e - 1));
    } else {
      assert [w][1..] == [];
    }
  }

  /** The polynomial crc x^n + message of the n words ws. */
  function Extended(crc: crc24, ws: seq<word>): bits {
    Xor(Shift(crc, |ws|), Message(ws))
  }

  lemma {:induction false} CrcFromIsRemainder(crc: crc24, ws: seq<word>)
    ensures IsRemainder(Extended(crc, ws), CrcFrom(crc, ws))
  {
    if ws == [] {
      assert IsQuotient(Extended(crc, ws), [], crc);
    } else {
      var front, w := ws[..|ws| - 1], ws[|ws| - 1];
      assert front + [w] == ws;
      CrcFromIsRemainder(crc, front);
      forall e ensures At(Extended(crc, ws), e) == (At(Extended(crc, front), e - 1) != At(w, e)) {
        ExtendedSnoc(crc, front, w, e);
      }
      StepRemainder(Extended(crc, front), Extended(crc, ws), CrcFrom(crc, front), w);
    }
  }

  lemma ExtendedSnoc(crc: crc24, ws: seq<word>, w: word, e: int)
    ensures At(Extended(crc, ws + [w]), e) == (At(Extended(crc, ws), e - 1) != At(w, e))
  {
    MessageSnoc(ws, w, e);
  }

  /** The bit shifted out of the register is the next coefficient of the quotient. */
  lemma StepRemainder(m: bits, m': bits, c: crc24, w: word)
    requires IsRemainder(m, c)
    requires forall e :: At(m', e) == (At(m, e - 1) != At(w, e))
    ensures IsRemainder(m', CrcWord(c, w))
  {
    hide MultipleAt, CrcWord;
    var q :| IsQuotient(m, q, c);
    forall e ensures At(m', e) == (MultipleAt([c[23]] + q, e) != At(CrcWord(c, w), e)) {
      assert At(m', e) == (At(m, e - 1) != At(w, e));
      assert At(m, e - 1) == (MultipleAt(q, e - 1) != At(c, e - 1));
      StepCoefficient(q, c, w, e);
    }
    assert IsQuotient(m', [c[23]] + q, CrcWord(c, w));
  }

  lemma StepCoefficient(q: bits, c: crc24, w: word, e: int)
    ensures (MultipleAt([c[23]] + q, e) != At(CrcWord(c, w), e))
         == ((MultipleAt(q, e - 1) != At(c, e - 1)) != At(w, e))
  {
    MultipleStep(q, c[23], e);
    if 0 <= e < 24 { CrcWordAt(c, w, e); }
  }

  /** The generator is the polynomial of the code with x^24 made explicit. */
  lemma MultipleStep(q: bits, carry: bool, e: int)
    ensures MultipleAt([carry] + q, e) == (MultipleAt(q, e - 1) != (carry && (e == 24 || At(POLY, e))))
  {
    PolyBits(e);
    PrependAt(q, carry, e);
    PrependAt(q, carry, e - 1);
    PrependAt(q, carry, e - 3);
    PrependAt(q, carry, e - 4);
    PrependAt(q, carry, e - 23);
    PrependAt(q, carry, e - 24);
  }

  lemma PrependAt(q: bits, b: bool, e: int)
    ensures At([b] + q, e) == if e == 0 then b else At(q, e - 1)
  {
  }

  /** The checksum of every message is its remainder by the generator ... */
  lemma CrcIsRemainder(ws: seq<word>)
    ensures IsRemainder(Message(ws), Crc(ws))
  {
    CrcFromIsRemainder(ZERO, ws);
    EqualPolynomials(Extended(ZERO, ws), Message(ws), Crc(ws));
  }

  /** The words are the byte pairs of the data, the first byte of a pair the low one. */
  ghost predicate Pairs(data: seq<byte>, ws: seq<word>) {
    && |data| == 2 * |ws|
    && forall n :: 0 <= n < |ws| ==> Value(ws[n]) == data[2 * n] as int + 256 * data[2 * n + 1] as int
  }

  /** The number v is the remainder of the byte pairs of the data. */
  ghost predicate IsChecksum(data: seq<byte>, v: nat) {
    exists ws: seq<word>, r: crc24 :: Pairs(data, ws) && Value(r) == v && IsRemainder(Message(ws), r)
  }

  lemma NvmCrcIsChecksum(data: seq<byte>)
    requires |data| % 2 == 0
    ensures IsChecksum(data, NvmCrc(data))
  {
    var ws := Words(data);
    CrcIsRemainder(ws);
    WordsArePairs(data);
    hide Words, Pairs, IsRemainder, Message, Crc, Value;
    assert Pairs(data, ws) && Value(Crc(ws)) == NvmCrc(data) && IsRemainder(Message(ws), Crc(ws));
  }

  lemma WordsArePairs(data: seq<byte>)
    requires |data| % 2 == 0
    ensures Pairs(data, Words(data))
  {
    hide WordOf, Words, Value;
    forall n | 0 <= n < |Words(data)|
      ensures Value(Words(data)[n]) == data[2 * n] as int + 256 * data[2 * n + 1] as int
    {
      WordAt(data, n);
      WordValue(data[2 * n], data[2 * n + 1]);
    }
  }

  lemma WordValue(lo: byte, hi: byte)
    ensures Value(WordOf(lo, hi)) == lo as int + 256 * hi as int
  {
    Pow2Of8();
    hide Value, BitsOf;
    ValueOfBits(lo, 8);
    ValueOfBits(hi, 8);
    ValueAppend(BitsOf(lo, 8), BitsOf(hi, 8));
  }

  lemma CrcMeans(data: seq<byte>)
    requires |data| % 2 == 0
    ensures IsChecksum(data, NvmCrc(data))
    ensures |data| == 2 ==> NvmCrc(data) == data[0] as int + 256 * data[1] as int
  {
    hide IsChecksum, NvmCrc;
    NvmCrcIsChecksum(data);
    if |data| == 2 { TwoBytes(data); }
  }

  /** A byte string has one checksum. */
  lemma ChecksumUnique(data: seq<byte>, v: nat, w: nat)
    requires IsChecksum(data, v) && IsChecksum(data, w)
    ensures v == w
  {
    hide IsRemainder, Message, Value;
    var ws: seq<word>, r: crc24 :| Pairs(data, ws) && Value(r) == v && IsRemainder(Message(ws), r);
    var vs: seq<word>, s: crc24 :| Pairs(data, vs) && Value(s) == w && IsRemainder(Message(vs), s);
    forall n | 0 <= n < |ws| ensures ws[n] == vs[n] {
      ValueInjective(ws[n], vs[n]);
    }
    assert ws == vs;
    RemainderUnique(Message(ws), r, s);
  }

  /** The checksum of a single word is the word. */
  lemma TwoBytes(data: seq<byte>)
    requires |data| == 2
    ensures NvmCrc(data) == data[0] as int + 256 * data[1] as int
  {
    NvmCrcOfWord(WordOf(data[0], data[1]));
    WordValue(data[0], data[1]);
    assert data[2..] == [];
    assert Words(data[2..]) == [];
    assert Words(data) == [WordOf(data[0], data[1])];
    hide *;
  }

  lemma NvmCrcOfWord(w: word)
    ensures Value(Crc([w])) == Value(w)
  {
    hide CrcWord, Value, Zeros;
    CrcStep([w], 0);
    assert [w][..0] == [] && [w][..1] == [w];
    StepFromZero(w);
    ValueAppend(w, Zeros(8));
    ValueZeros(8);
  }

  lemma StepFromZero(w: word)
    ensures CrcWord(ZERO, w) == w + Zeros(8)
  {
    var c, d := CrcWord(ZERO, w), w + Zeros(8);
    assert !At(ZERO, 23);
    hide CrcWord, Zeros;
    forall i | 0 <= i < 24 ensures At(c, i) == At(d, i) {
      CrcWordAt(ZERO, w, i);
      assert !At(ZERO, i - 1);
      if i >= 16 { assert !At(Zeros(8), i - 16); }
    }
    SameBits(c, d);
  }

  lemma {:induction false} ValueZeros(n: nat)
    ensures Value(Zeros(n)) == 0
  {
    if n > 0 {
      assert !At(Zeros(n), 0) && Zeros(n)[1..] == Zeros(n - 1);
      ValueZeros(n - 1);
    }
  }

  lemma EqualPolynomials(m: bits, n: bits, r: crc24)
    requires IsRemainder(m, r) && forall e :: At(m, e) == At(n, e)
    ensures IsRemainder(n, r)
  {
    var q :| IsQuotient(m, q, r);
    assert IsQuotient(n, q, r);
  }

  /** ... and there is only one remainder. */
  lemma RemainderUnique(m: bits, r: crc24, s: crc24)
    requires IsRemainder(m, r) && IsRemainder(m, s)
    ensures r == s
  {
    var q :| IsQuotient(m, q, r);
    var p :| IsQuotient(m, p, s);
    var d := Xor(q, p);
    forall e ensures MultipleAt(d, e) == (At(r, e) != At(s, e)) {
      MultipleXor(q, p, e);
      assert At(m, e) == (MultipleAt(q, e) != At(r, e));
      assert At(m, e) == (MultipleAt(p, e) != At(s, e));
    }
    NoLowMultiple(d, |d|);
    forall i | 0 <= i < 24 ensures At(r, i) == At(s, i) {
      assert !MultipleAt(d, i);
    }
    SameBits(r, s);
  }

  lemma MultipleXor(q: bits, p: bits, e: int)
    ensures MultipleAt(Xor(q, p), e) == (MultipleAt(q, e) != MultipleAt(p, e))
  {
  }

  /** A multiple of the generator without coefficients from x^24 on is zero. */
  lemma {:induction false} NoLowMultiple(d: bits, n: nat)
    requires forall e :: e >= 24 ==> !MultipleAt(d, e)
    requires forall i :: i >= n ==> !At(d, i)
    ensures forall i :: !At(d, i)
    decreases n
  {
    if n > 0 {
      assert !MultipleAt(d, n - 1 + 24);
      NoLowMultiple(d, n - 1);
    }
  }

  // ----- linearity and concatenation

  function XorWords(a: seq<word>, b: seq<word>): (c: seq<word>)
    requires |a| == |b|
    ensures |c| == |a|
  {
    seq(|a|, i requires 0 <= i < |a| => Xor(a[i], b[i]))
  }

  lemma CrcWordXor(c: crc24, v: word, d: crc24, w: word)
    ensures CrcWord(Xor(c, d), Xor(v, w)) == Xor(CrcWord(c, v), CrcWord(d, w))
  {
    var l, r := CrcWord(Xor(c, d), Xor(v, w)), Xor(CrcWord(c, v), CrcWord(d, w));
    forall i | 0 <= i < 24 ensures At(l, i) == At(r, i) {
      CrcWordAt(Xor(c, d), Xor(v, w), i);
      CrcWordAt(c, v, i);
      CrcWordAt(d, w, i);
      assert At(Xor(c, d), 23) == (At(c, 23) != At(d, 23));
      assert At(l, i) == l[i] && At(r, i) == (At(CrcWord(c, v), i) != At(CrcWord(d, w), i));
    }
    SameBits(l, r);
  }

  /** On messages of equal length the checksum is additive. */
  lemma {:induction false} CrcXor(a: seq<word>, b: seq<word>)
    requires |a| == |b|
    ensures Crc(XorWords(a, b)) == Xor(Crc(a), Crc(b))
  {
    if a == [] {
      SameBits(Xor(ZERO, ZERO), ZERO);
    } else {
      var n := |a| - 1;
      CrcXor(a[..n], b[..n]);
      assert XorWords(a, b)[..n] == XorWords(a[..n], b[..n]);
      CrcWordXor(Crc(a[..n]), a[n], Crc(b[..n]), b[n]);
    }
  }

  lemma {:induction false} CrcFromAppend(crc: crc24, a: seq<word>, b: seq<word>)
    ensures CrcFrom(crc, a + b) == CrcFrom(CrcFrom(crc, a), b)
  {
    if b == [] {
      assert a + b == a;
    } else {
      var front := b[..|b| - 1];
      assert (a + b)[..|a + b| - 1] == a + front;
      CrcFromAppend(crc, a, front);
    }
  }

  /** crc(a ++ b) is x^|b| crc(a) + crc(b), reduced. */
  lemma CrcAppend(a: seq<word>, b: seq<word>)
    ensures IsRemainder(Xor(Shift(Crc(a), |b|), Crc(b)), Crc(a + b))
  {
    CrcFromAppend(ZERO, a, b);
    CrcFromIsRemainder(Crc(a), b);
    CrcIsRemainder(b);
    SumOfRemainders(Shift(Crc(a), |b|), Message(b), Crc(a + b), Crc(b));
  }

  lemma SumOfRemainders(s: bits, m: bits, r: crc24, c: crc24)
    requires IsRemainder(Xor(s, m), r) && IsRemainder(m, c)
    ensures IsRemainder(Xor(s, c), r)
  {
    var q :| IsQuotient(Xor(s, m), q, r);
    var p :| IsQuotient(m, p, c);
    forall e ensures At(Xor(s, c), e) == (MultipleAt(Xor(q, p), e) != At(r, e)) {
      MultipleXor(q, p, e);
      assert At(Xor(s, m), e) == (MultipleAt(q, e) != At(r, e));
      assert At(m, e) == (MultipleAt(p, e) != At(c, e));
    }
    assert IsQuotient(Xor(s, c), Xor(q, p), r);
  }

  // ----- what the checksum detects

  /** A step can be undone: neither register values nor words collide. */
  lemma CrcWordInjective(c: crc24, v: word, d: crc24, w: word)
    requires CrcWord(c, v) == CrcWord(d, w)
    ensures v == w ==> c == d
    ensures c == d ==> v == w
  {
    if v == w {
      SameStep(c, d, v, 0);
      PolyBits(0);
      forall i | 0 <= i < 24 ensures At(c, i) == At(d, i) {
        if i < 23 { SameStep(c, d, v, i + 1); }
      }
      SameBits(c, d);
    }
    if c == d {
      forall i | 0 <= i < 16 ensures At(v, i) == At(w, i) {
        CrcWordAt(c, v, i);
        CrcWordAt(d, w, i);
      }
      SameBits(v, w);
    }
  }

  lemma SameStep(c: crc24, d: crc24, w: word, i: int)
    requires CrcWord(c, w) == CrcWord(d, w) && 0 <= i < 24
    ensures (At(c, i - 1) != (c[23] && At(POLY, i))) == (At(d, i - 1) != (d[23] && At(POLY, i)))
  {
    CrcWordAt(c, w, i);
    CrcWordAt(d, w, i);
  }

  lemma {:induction false} CrcFromInjective(c: crc24, d: crc24, ws: seq<word>)
    requires CrcFrom(c, ws) == CrcFrom(d, ws)
    ensures c == d
  {
    if ws != [] {
      var front, w := ws[..|ws| - 1], ws[|ws| - 1];
      CrcWordInjective(CrcFrom(c, front), w, CrcFrom(d, front), w);
      CrcFromInjective(c, d, front);
    }
  }

  /** Every corruption of a single word is detected, at any position and any length. */
  lemma CrcDetectsWord(a: seq<word>, v: word, w: word, b: seq<word>)
    requires v != w
    ensures Crc(a + [v] + b) != Crc(a + [w] + b)
  {
    CrcFromAppend(ZERO, a + [v], b);
    CrcFromAppend(ZERO, a + [w], b);
    assert (a + [v])[..|a|] == a && (a + [w])[..|a|] == a;
    if Crc(a + [v] + b) == Crc(a + [w] + b) {
      CrcFromInjective(Crc(a + [v]), Crc(a + [w]), b);
      CrcWordInjective(Crc(a), v, Crc(a), w);
    }
  }

  lemma {:induction false} WordOfInjective(a: byte, b: byte, c: byte, d: byte)
    requires WordOf(a, b) == WordOf(c, d)
    ensures a == c && b == d
  {
    assert WordOf(a, b)[..8] == BitsOf(a, 8) && WordOf(a, b)[8..] == BitsOf(b, 8);
    assert WordOf(c, d)[..8] == BitsOf(c, 8) && WordOf(c, d)[8..] == BitsOf(d, 8);
    Pow2Of8();
    ValueOfBits(a, 8);
    ValueOfBits(b, 8);
    ValueOfBits(c, 8);
    ValueOfBits(d, 8);
  }

  /** The same for byte strings that differ at most at index m. */
  lemma {:induction false} CrcDetectsByte(a: seq<byte>, b: seq<byte>, m: nat)
    requires |a| == |b| && |a| % 2 == 0 && m < |a|
    requires forall i :: 0 <= i < |a| && i != m ==> a[i] == b[i]
    ensures NvmCrc(a) == NvmCrc(b) <==> a == b
  {
    if a[m] != b[m] {
      var k := m / 2;
      assert 2 * k + 1 < |a|;
      hide Words, Value, Crc, WordOf;
      WordsDiffer(a, b, k);
      CrcDetectsWordAt(Words(a), Words(b), k);
      if NvmCrc(a) == NvmCrc(b) { ValueInjective(Crc(Words(a)), Crc(Words(b))); }
    } else {
      assert a == b;
    }
  }

  lemma {:induction false} WordsDiffer(a: seq<byte>, b: seq<byte>, k: nat)
    requires |a| == |b| && 2 * k + 1 < |a|
    requires a[2 * k] != b[2 * k] || a[2 * k + 1] != b[2 * k + 1]
    requires forall i :: 0 <= i < |a| && i != 2 * k && i != 2 * k + 1 ==> a[i] == b[i]
    ensures k < |Words(a)| && |Words(b)| == |Words(a)| && Words(a)[k] != Words(b)[k]
    ensures forall i :: 0 <= i < |Words(a)| && i != k ==> Words(a)[i] == Words(b)[i]
  {
    hide Words, WordOf;
    WordAt(a, k);
    WordAt(b, k);
    if Words(a)[k] == Words(b)[k] {
      WordOfInjective(a[2 * k], a[2 * k + 1], b[2 * k], b[2 * k + 1]);
    }
    forall i | 0 <= i < |Words(a)| && i != k ensures Words(a)[i] == Words(b)[i] {
      WordAt(a, i);
      WordAt(b, i);
    }
  }

  lemma CrcDetectsWordAt(u: seq<word>, v: seq<word>, k: nat)
    requires |u| == |v| && k < |u| && u[k] != v[k]
    requires forall i :: 0 <= i < |u| && i != k ==> u[i] == v[i]
    ensures Crc(u) != Crc(v)
  {
    assert u == u[..k] + [u[k]] + u[k + 1..];
    assert v == u[..k] + [v[k]] + u[k + 1..];
    CrcDetectsWord(u[..k], u[k], v[k], u[k + 1..]);
  }

  /** Exactly the differences that are multiples of the generator go unnoticed. */
  lemma CrcDetects(a: seq<word>, b: seq<word>)
    requires |a| == |b|
    ensures Crc(a) == Crc(b) <==> IsRemainder(Message(XorWords(a, b)), ZERO)
  {
    hide Crc, Message, IsRemainder, XorWords;
    var x := XorWords(a, b);
    CrcXor(a, b);
    CrcIsRemainder(x);
    XorZero(Crc(a), Crc(b));
    if IsRemainder(Message(x), ZERO) {
      RemainderUnique(Message(x), ZERO, Crc(x));
    }
  }

  lemma XorZero(c: crc24, d: crc24)
    ensures Xor(c, d) == ZERO <==> c == d
  {
    if c == d {
      SameBits(Xor(c, d), ZERO);
    } else {
      var i :| 0 <= i < 24 && c[i] != d[i];
      assert At(Xor(c, d), i) && !At(ZERO, i);
    }
  }

  /** A change of v in one word and w in the next that cancel: w is v moved up by one place,
      none of its bits lost. */
  predicate Cancels(v: word, w: word) {
    !v[15] && !w[0] && forall i :: 0 <= i < 15 ==> v[i] == w[i + 1]
  }

  /** Of all changes to two neighbouring words, these are the ones that go unnoticed, at any
      position and any length. They include the flip of bit i in one word and of bit i + 1 in
      the next, so the checksum does not detect every pair of flipped bits. */
  lemma CrcDetectsPair(a: seq<word>, v: word, w: word, v': word, w': word, b: seq<word>)
    ensures Crc(a + [v, w] + b) == Crc(a + [v', w'] + b) <==> Cancels(Xor(v, v'), Xor(w, w'))
  {
    var c := Crc(a);
    CrcPair(a, v, w, b);
    CrcPair(a, v', w', b);
    var d, d' := CrcWord(CrcWord(c, v), w), CrcWord(CrcWord(c, v'), w');
    hide Crc, CrcWord, Cancels;
    if Cancels(Xor(v, v'), Xor(w, w')) {
      forall i | 0 <= i < 24 ensures At(d, i) == At(d', i) {
        PairBit(c, v, w, v', w', i);
      }
      SameBits(d, d');
    }
    if Crc(a + [v, w] + b) == Crc(a + [v', w'] + b) {
      CrcFromInjective(d, d', b);
      forall i | 0 <= i < 24 ensures At(Xor(v, v'), i - 1) == At(Xor(w, w'), i) {
        PairBit(c, v, w, v', w', i);
      }
      CancelsBits(Xor(v, v'), Xor(w, w'));
    }
  }

  lemma CrcPair(a: seq<word>, v: word, w: word, b: seq<word>)
    ensures Crc(a + [v, w] + b) == CrcFrom(CrcWord(CrcWord(Crc(a), v), w), b)
  {
    hide CrcWord;
    CrcFromAppend(ZERO, a + [v, w], b);
    CrcStep(a + [v, w], |a|);
    CrcStep(a + [v, w], |a| + 1);
    assert (a + [v, w])[..|a|] == a && (a + [v, w])[..|a| + 2] == a + [v, w];
  }

  lemma CancelsBits(v: word, w: word)
    requires forall i :: 0 <= i < 24 ==> At(v, i - 1) == At(w, i)
    ensures Cancels(v, w)
  {
    assert At(v, 0 - 1) == At(w, 0) && At(v, 16 - 1) == At(w, 16);
    forall i | 0 <= i < 15 ensures v[i] == w[i + 1] {
      assert At(v, i + 1 - 1) == At(w, i + 1);
    }
  }

  /** The bit shifted out depends on neither word. */
  lemma PairBit(c: crc24, v: word, w: word, v': word, w': word, i: int)
    requires 0 <= i < 24
    ensures CrcWord(CrcWord(c, v), w)[i] == CrcWord(CrcWord(c, v'), w')[i] <==>
            At(Xor(v, v'), i - 1) == At(Xor(w, w'), i)
    ensures Cancels(Xor(v, v'), Xor(w, w')) ==> At(Xor(v, v'), i - 1) == At(Xor(w, w'), i)
  {
    var e, e' := CrcWord(c, v), CrcWord(c, v');
    CrcWordAt(e, w, i);
    CrcWordAt(e', w', i);
    CrcWordAt(c, v, 23);
    CrcWordAt(c, v', 23);
    assert e[23] == e'[23];
    if i > 0 {
      CrcWordAt(c, v, i - 1);
      CrcWordAt(c, v', i - 1);
    }
    hide CrcWord;
    assert At(e, i - 1) == At(e', i - 1) <==> At(v, i - 1) == At(v', i - 1);
  }

  /** The number of positions at which the bits of two messages differ. */
  function BitDistance(a: seq<word>, b: seq<word>): nat
    requires |a| == |b|
  {
    if a == [] then 0
    else BitDistance(a[..|a| - 1], b[..|a| - 1]) + Ones(Xor(a[|a| - 1], b[|a| - 1]))
  }

  /** A step keeps parity: the polynomial has odd weight, and so has the bit shifted out. */
  lemma CrcWordParity(crc: crc24, w: word)
    ensures Odd(CrcWord(crc, w)) == (Odd(crc) != Odd(w))
  {
    var carry := crc[23];
    var poly: bits := (if carry then POLY else ZERO) + [false];
    var long := Xor(Left(crc), poly);
    OddXor(Left(crc), poly);
    OddLeft(crc);
    OddPoly();
    assert poly[..24] == if carry then POLY else ZERO;
    assert Odd(poly) == carry;
    assert long[24] == carry by { assert At(long, 24) == At(crc, 23); }
    var shifted := long[..24];
    var wide := w + Zeros(8);
    OddPadded(w, 8);
    OddXor(shifted, wide);
    forall i | 0 <= i < 24 ensures At(Xor(shifted, wide), i) == At(CrcWord(crc, w), i) {
      CrcWordAt(crc, w, i);
      assert At(shifted, i) == At(long, i) && At(wide, i) == At(w, i);
      assert At(poly, i) == (carry && At(POLY, i));
    }
    SameBits(Xor(shifted, wide), CrcWord(crc, w));
  }

  lemma OddPoly()
    ensures Odd(POLY) && !Odd(ZERO)
  {
    OddPadded([], 24);
    OddPadded(POLY[..5], 18);
    assert POLY[..23] == POLY[..5] + Zeros(18);
    assert ZERO == [] + Zeros(24);
    assert !Odd([true, true, false, true, true]) by {
      assert !Odd([true, true, false]) by { assert [true, true, false][..2] == [true, true]; }
      assert [true, true, false, true, true][..4] == [true, true, false, true];
      assert [true, true, false, true][..3] == [true, true, false];
    }
    assert POLY[..5] == [true, true, false, true, true];
  }

  lemma {:induction false} OddPadded(p: bits, n: nat)
    ensures Odd(p + Zeros(n)) == Odd(p)
    decreases n
  {
    if n == 0 {
      assert p + Zeros(n) == p;
    } else {
      OddPadded(p, n - 1);
      assert (p + Zeros(n))[..|p| + n - 1] == p + Zeros(n - 1);
    }
  }

  predicate OddDistance(a: seq<word>, b: seq<word>)
    requires |a| == |b|
  {
    if a == [] then false
    else OddDistance(a[..|a| - 1], b[..|a| - 1]) != Odd(Xor(a[|a| - 1], b[|a| - 1]))
  }

  lemma {:induction false} OddDistanceMeaning(a: seq<word>, b: seq<word>)
    requires |a| == |b|
    ensures OddDistance(a, b) == (BitDistance(a, b) % 2 == 1)
  {
    if a != [] {
      OddDistanceMeaning(a[..|a| - 1], b[..|a| - 1]);
      OddOnes(Xor(a[|a| - 1], b[|a| - 1]));
    }
  }

  lemma {:induction false} CrcOddDistance(a: seq<word>, b: seq<word>)
    requires |a| == |b|
    ensures (Odd(Crc(a)) != Odd(Crc(b))) == OddDistance(a, b)
  {
    if a == [] {
      assert Crc(a) == Crc(b);
    } else {
      var n := |a| - 1;
      CrcOddDistance(a[..n], b[..n]);
      CrcWordParity(Crc(a[..n]), a[n]);
      CrcWordParity(Crc(b[..n]), b[n]);
      OddXor(a[n], b[n]);
    }
  }

  /** Two checksums differ in parity exactly when an odd number of bits differ ... */
  lemma {:induction false} CrcParity(a: seq<word>, b: seq<word>)
    requires |a| == |b|
    ensures (Odd(Crc(a)) != Odd(Crc(b))) == (BitDistance(a, b) % 2 == 1)
  {
    CrcOddDistance(a, b);
    OddDistanceMeaning(a, b);
  }

  /** ... so every odd number of flipped bits is detected. */
  lemma {:induction false} CrcDetectsOddFlips(a: seq<word>, b: seq<word>)
    requires |a| == |b| && BitDistance(a, b) % 2 == 1
    ensures Crc(a) != Crc(b)
  {
    CrcParity(a, b);
  }
}
