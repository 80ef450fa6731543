/** The CRC-32 helper of scripts/xusbboot/crc.py.

    The helper shifts its register to the left, feeds each byte lowest bit first, and
    reverses the complemented register at the end. The independent reference is the
    right-shifting form of section 8 of RFC 1952 with the constant 0xEDB88320. Python
    integers are unbounded, but every value the helper keeps has at most 32 bits, and the
    negative number ~crc is only ever masked, so 32-bit words agree with it. */
module Crc32 {

  const POLY: bv32 := 0x04C11DB7
  const REFLECTED_POLY: bv32 := 0xEDB88320

  // ----- the code

  /** One round of calc_crc32_byte, for one input bit. */
  function LeftStep(crc: bv32, bit: bv32): bv32 {
    if bit ^ ((crc >> 31) & 1) != 0 then (crc << 1) ^ POLY else crc << 1
  }

  function Reverse32(x0: bv32): bv32 {
    var x1 := ((x0 & 0x55555555) << 1) | ((x0 >> 1) & 0x55555555);
    var x2 := ((x1 & 0x33333333) << 2) | ((x1 >> 2) & 0x33333333);
    var x3 := ((x2 & 0x0F0F0F0F) << 4) | ((x2 >> 4) & 0x0F0F0F0F);
    (x3 << 24) | ((x3 & 0xFF00) << 8) | ((x3 >> 8) & 0xFF00) | (x3 >> 24)
  }

  function Low(x: bv32): bv32 {
    x & 1
  }

  function Half(x: bv32): bv32 {
    x >> 1
  }

  /** Addition of polynomials. */
  function Add(x: bv32, y: bv32): bv32 {
    x ^ y
  }

  /** byte >> n, one place at a time. */
  function Rest(b: bv32, n: nat): bv32 {
    if n == 0 then b else Half(Rest(b, n - 1))
  }

  method CalcCrc32Byte(crc: bv32, b: bv32) returns (r: bv32)
    requires b <= 0xFF
    ensures Reverse32(r) == RightByte(Reverse32(crc), b)
  {
    hide *;
    r := crc;
    Start(crc, b);
    for n := 0 to 8
      invariant InStep(r, crc, b, n)
    {
      Next(r, crc, b, n);
      r := LeftStep(r, Low(Rest(b, n)));
    }
    Finish(r, crc, b);
  }

  /** After n bits of b the left register is the reversal of the right one, in which the
      bits of b still to come are already added. */
  predicate InStep(r: bv32, crc: bv32, b: bv32, n: nat) {
    Add(Reverse32(r), Rest(b, n)) == RightSteps(Add(Reverse32(crc), b), n)
  }

  method CalcCrc32(data: seq<bv32>) returns (r: bv32)
    requires forall i :: 0 <= i < |data| ==> data[i] <= 0xFF
    ensures r == RightCrc(data)
  {
    var crc: bv32 := 0xFFFFFFFF;
    ReverseOnes();
    hide Reverse32, RightByte;
    for i := 0 to |data|
      invariant Reverse32(crc) == RightRegister(data[..i])
    {
      crc := CalcCrc32Byte(crc, data[i]);
      assert data[..i + 1][..i] == data[..i];
    }
    assert data[..|data|] == data;
    ReverseComplement(crc);
    r := Reverse32(!crc);
  }

  // ----- the reference

  function RightStep(c: bv32): bv32 {
    if c & 1 != 0 then REFLECTED_POLY ^ (c >> 1) else c >> 1
  }

  function RightSteps(c: bv32, n: nat): bv32 {
    if n == 0 then c else RightStep(RightSteps(c, n - 1))
  }

  function RightByte(c: bv32, b: bv32): bv32 {
    RightSteps(Add(c, b), 8)
  }

  function RightRegister(data: seq<bv32>): bv32 {
    if data == [] then 0xFFFFFFFF else RightByte(RightRegister(data[..|data| - 1]), data[|data| - 1])
  }

  function RightCrc(data: seq<bv32>): bv32 {
    !RightRegister(data)
  }

  /** The CRC of the empty string and of the letter a. */
  lemma KnownValues()
    ensures RightCrc([]) == 0 && RightCrc([0x61]) == 0xE8B7BE43
  {
    assert [0x61 as bv32][..0] == [];
    var x := Add(0xFFFFFFFF, 0x61);
    assert RightCrc([0x61]) == !RightSteps(x, 8);
    assert RightSteps(x, 1) == 0x7FFFFFCF;
    assert RightSteps(x, 2) == 0xD2477CC7;
    assert RightSteps(x, 3) == 0x849B3D43;
    assert RightSteps(x, 4) == 0xAFF51D81;
    assert RightSteps(x, 5) == 0xBA420DE0;
    assert RightSteps(x, 6) == 0x5D2106F0;
    assert RightSteps(x, 7) == 0x2E908378;
    assert RightSteps(x, 8) == 0x174841BC;
  }

  // ----- bit reversal

  /** reverse32 moves bit i to bit 31 - i. */
  lemma ReverseBit(x: bv32, i: bv32)
    requires i < 32
    ensures (Reverse32(x) >> i) & 1 == (x >> (31 - i)) & 1
  {
  }

  /** Reversal turns a left shift into a right one and exchanges the end bits. */
  lemma ReverseShiftLeft(x: bv32)
    ensures Reverse32(x << 1) == Reverse32(x) >> 1
  {
  }

  lemma ReverseEnds(x: bv32)
    ensures Reverse32(x) >> 31 == x & 1
    ensures Reverse32(x) & 1 == x >> 31
  {
  }

  lemma ReverseTwice(x: bv32)
    ensures Reverse32(Reverse32(x)) == x
  {
  }

  lemma ReverseComplement(x: bv32)
    ensures Reverse32(!x) == !Reverse32(x)
  {
  }

  lemma ReverseOnes()
    ensures Reverse32(0xFFFFFFFF) == 0xFFFFFFFF
  {
  }

  /** Reversal turns a left step on an input bit into a right step that has the remaining
      input added into the register. */
  lemma StepsCommute(crc: bv32, rest: bv32)
    ensures Reverse32(LeftStep(crc, rest & 1)) ^ (rest >> 1) == RightStep(Reverse32(crc) ^ rest)
  {
    if (rest & 1) ^ ((crc >> 31) & 1) != 0 {
      StepsCommuteOne(crc, rest);
    } else {
      StepsCommuteZero(crc, rest);
    }
  }

  lemma StepsCommuteZero(crc: bv32, rest: bv32)
    requires (rest & 1) ^ ((crc >> 31) & 1) == 0
    ensures Reverse32(LeftStep(crc, rest & 1)) ^ (rest >> 1) == RightStep(Reverse32(crc) ^ rest)
  {
    hide Reverse32;
    ReverseShiftLeft(crc);
    ReverseEnds(crc);
    TopBit(crc);
    RightStepZero(Reverse32(crc), rest);
  }

  lemma StepsCommuteOne(crc: bv32, rest: bv32)
    requires (rest & 1) ^ ((crc >> 31) & 1) != 0
    ensures Reverse32(LeftStep(crc, rest & 1)) ^ (rest >> 1) == RightStep(Reverse32(crc) ^ rest)
  {
    hide Reverse32;
    ReverseLeftOne(crc);
    ReverseEnds(crc);
    TopBit(crc);
    RightStepOne(Reverse32(crc), rest);
  }

  lemma ReverseLeftOne(crc: bv32)
    ensures Reverse32((crc << 1) ^ POLY) == (Reverse32(crc) >> 1) ^ REFLECTED_POLY
  {
  }

  lemma TopBit(crc: bv32)
    ensures (crc >> 31) & 1 == crc >> 31
  {
  }

  lemma RightStepZero(c: bv32, rest: bv32)
    requires (c & 1) ^ (rest & 1) == 0
    ensures RightStep(c ^ rest) == (c >> 1) ^ (rest >> 1)
  {
  }

  lemma RightStepOne(c: bv32, rest: bv32)
    requires (c & 1) ^ (rest & 1) != 0
    ensures RightStep(c ^ rest) == ((c >> 1) ^ REFLECTED_POLY) ^ (rest >> 1)
  {
  }

  lemma Start(crc: bv32, b: bv32)
    ensures InStep(crc, crc, b, 0)
  {
  }

  lemma Next(r: bv32, crc: bv32, b: bv32, n: nat)
    requires InStep(r, crc, b, n)
    ensures InStep(LeftStep(r, Low(Rest(b, n))), crc, b, n + 1)
  {
    hide Add, Half, Low, Reverse32, LeftStep, RightStep;
    NextBit(r, Rest(b, n));
  }

  /** StepsCommute for a solver that need not look inside the words. */
  lemma NextBit(r: bv32, rest: bv32)
    ensures Add(Reverse32(LeftStep(r, Low(rest))), Half(rest)) == RightStep(Add(Reverse32(r), rest))
  {
    hide Reverse32;
    calc {
      Add(Reverse32(LeftStep(r, Low(rest))), Half(rest));
      { assert Low(rest) == rest & 1; }
      Add(Reverse32(LeftStep(r, rest & 1)), Half(rest));
      Reverse32(LeftStep(r, rest & 1)) ^ (rest >> 1);
      { StepsCommute(r, rest); }
      RightStep(Reverse32(r) ^ rest);
      RightStep(Add(Reverse32(r), rest));
    }
  }

  lemma Finish(r: bv32, crc: bv32, b: bv32)
    requires b <= 0xFF && InStep(r, crc, b, 8)
    ensures Reverse32(r) == RightByte(Reverse32(crc), b)
  {
    NothingLeft(b);
  }

  lemma NothingLeft(b: bv32)
    requires b <= 0xFF
    ensures Rest(b, 8) == 0
  {
    assert Rest(b, 1) == b >> 1;
    assert Rest(b, 2) == b >> 1 >> 1;
    assert Rest(b, 4) == b >> 1 >> 1 >> 1 >> 1;
    assert Rest(b, 6) == b >> 1 >> 1 >> 1 >> 1 >> 1 >> 1;
  }
}
