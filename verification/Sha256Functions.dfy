/** The functions of FIPS 180-4, section 4.1.2, on uint32_t (common/Sha256.cpp:23, 29-40). */
module Sha256Functions {
  import opened Bits

  function Rotr(x: bv32, n: nat): bv32
    requires n <= 32
  {
    (x >> n) | (x << (32 - n))
  }

  function Shr(x: bv32, n: nat): bv32
    requires n <= 32
  {
    x >> n
  }

  function Xor(a: bv32, b: bv32, c: bv32): bv32 { a ^ b ^ c }
  function BigSigma0(w: bv32): bv32 { Xor(Rotr(w, 2), Rotr(w, 13), Rotr(w, 22)) }
  function BigSigma1(w: bv32): bv32 { Xor(Rotr(w, 6), Rotr(w, 11), Rotr(w, 25)) }
  function SmallSigma0(w: bv32): bv32 { Xor(Rotr(w, 7), Rotr(w, 18), Shr(w, 3)) }
  function SmallSigma1(w: bv32): bv32 { Xor(Rotr(w, 17), Rotr(w, 19), Shr(w, 10)) }
  function Choice(e: bv32, f: bv32, g: bv32): bv32 { (e & f) ^ (!e & g) }
  function Majority(a: bv32, b: bv32, c: bv32): bv32 { (a & b) ^ (a & c) ^ (b & c) }

  // ---------------------------------------------------------------- their digits

  function Half(w: bv32): bv32 { w >> 1 }
  predicate Odd(w: bv32) { w & 1 == 1 }

  const HALVING: Halving<bv32> := Halving(Half, Odd)

  predicate XorBit(a: bool, b: bool, c: bool) { (a != b) != c }
  predicate ChoiceBit(e: bool, f: bool, g: bool) { if e then f else g }
  predicate MajorityBit(a: bool, b: bool, c: bool) { (a && b) || (a && c) || (b && c) }

  lemma LowDigit(a: bv32)
    ensures a & 1 == 0 || a & 1 == 1
  {
  }

  lemma XorShifts(a: bv32, b: bv32, c: bv32)
    ensures (a ^ b ^ c) >> 1 == (a >> 1) ^ (b >> 1) ^ (c >> 1)
  {
  }

  lemma XorLow(a: bv32, b: bv32, c: bv32)
    ensures (a ^ b ^ c) & 1 == 1 <==> (((a & 1 == 1) != (b & 1 == 1)) != (c & 1 == 1))
  {
    LowDigit(a); LowDigit(b); LowDigit(c);
    assert (a ^ b ^ c) & 1 == (a & 1) ^ (b & 1) ^ (c & 1);
  }

  lemma XorHalves(a: bv32, b: bv32, c: bv32)
    ensures Half(Xor(a, b, c)) == Xor(Half(a), Half(b), Half(c))
  {
    XorShifts(a, b, c);
  }

  lemma XorOdd(a: bv32, b: bv32, c: bv32)
    ensures Odd(Xor(a, b, c)) == XorBit(Odd(a), Odd(b), Odd(c))
  {
    XorLow(a, b, c);
  }

  lemma XorDigitwise(a: bv32, b: bv32, c: bv32)
    ensures Digitwise(HALVING, Xor, XorBit, a, b, c)
  {
    XorHalves(a, b, c);
    XorOdd(a, b, c);
  }

  lemma ChoiceShifts(e: bv32, f: bv32, g: bv32)
    ensures ((e & f) ^ (!e & g)) >> 1 == ((e >> 1) & (f >> 1)) ^ (!(e >> 1) & (g >> 1))
  {
  }

  lemma ChoiceLow(e: bv32, f: bv32, g: bv32)
    ensures ((e & f) ^ (!e & g)) & 1 == if e & 1 == 1 then f & 1 else g & 1
  {
  }

  lemma ChoiceHalves(e: bv32, f: bv32, g: bv32)
    ensures Half(Choice(e, f, g)) == Choice(Half(e), Half(f), Half(g))
  {
    ChoiceShifts(e, f, g);
  }

  lemma ChoiceOdd(e: bv32, f: bv32, g: bv32)
    ensures Odd(Choice(e, f, g)) == ChoiceBit(Odd(e), Odd(f), Odd(g))
  {
    ChoiceLow(e, f, g);
  }

  lemma ChoiceDigitwise(e: bv32, f: bv32, g: bv32)
    ensures Digitwise(HALVING, Choice, ChoiceBit, e, f, g)
  {
    ChoiceHalves(e, f, g);
    ChoiceOdd(e, f, g);
  }

  lemma MajorityShifts(a: bv32, b: bv32, c: bv32)
    ensures ((a & b) ^ (a & c) ^ (b & c)) >> 1 == ((a >> 1) & (b >> 1)) ^ ((a >> 1) & (c >> 1)) ^ ((b >> 1) & (c >> 1))
  {
  }

  lemma MajorityLow(a: bv32, b: bv32, c: bv32)
    ensures ((a & b) ^ (a & c) ^ (b & c)) & 1 == if a & 1 == b & 1 then a & 1 else c & 1
  {
  }

  lemma MajorityHalves(a: bv32, b: bv32, c: bv32)
    ensures Half(Majority(a, b, c)) == Majority(Half(a), Half(b), Half(c))
  {
    MajorityShifts(a, b, c);
  }

  lemma MajorityOdd(a: bv32, b: bv32, c: bv32)
    ensures Odd(Majority(a, b, c)) == MajorityBit(Odd(a), Odd(b), Odd(c))
  {
    LowDigit(a); LowDigit(b); LowDigit(c);
    MajorityLow(a, b, c);
  }

  lemma MajorityDigitwise(a: bv32, b: bv32, c: bv32)
    ensures Digitwise(HALVING, Majority, MajorityBit, a, b, c)
  {
    MajorityHalves(a, b, c);
    MajorityOdd(a, b, c);
  }

  // ---------------------------------------------------------------- shifts and rotations

  function Rotation(n: nat): bv32 -> bv32
    requires n <= 32
  {
    w => Rotr(w, n)
  }

  function Shift(n: nat): bv32 -> bv32
    requires n <= 32
  {
    w => Shr(w, n)
  }

  lemma MiddleDigit()
    ensures OneDigit(HALVING, 0, 0x8000, 15)
  {
    assert OneDigit(HALVING, 0, 0x8, 3);
    assert OneDigit(HALVING, 0, 0x80, 7);
    assert OneDigit(HALVING, 0, 0x800, 11);
  }

  lemma TopDigit()
    ensures Blank(HALVING, 0) && OneDigit(HALVING, 0, 0x8000_0000, 31)
  {
    MiddleDigit();
    assert OneDigit(HALVING, 0, 0x8_0000, 19);
    assert OneDigit(HALVING, 0, 0x80_0000, 23);
    assert OneDigit(HALVING, 0, 0x800_0000, 27);
  }

  lemma Shift1()
    ensures Shifts(HALVING, Shift(1), 1)
  {
    ShiftByOne(HALVING, Shift(1));
  }

  lemma Shift2()
    ensures Shifts(HALVING, Shift(2), 2)
  {
    Shift1();
    forall w ensures Composed(Shift(1), Shift(1), Shift(2), w) {}
    ShiftTwice(HALVING, Shift(1), 1, Shift(1), 1, Shift(2));
  }

  lemma Shift3()
    ensures Shifts(HALVING, Shift(3), 3)
  {
    Shift2(); Shift1();
    forall w ensures Composed(Shift(2), Shift(1), Shift(3), w) {}
    ShiftTwice(HALVING, Shift(2), 2, Shift(1), 1, Shift(3));
  }

  lemma Shift5()
    ensures Shifts(HALVING, Shift(5), 5)
  {
    Shift3(); Shift2();
    forall w ensures Composed(Shift(3), Shift(2), Shift(5), w) {}
    ShiftTwice(HALVING, Shift(3), 3, Shift(2), 2, Shift(5));
  }

  lemma Shift10()
    ensures Shifts(HALVING, Shift(10), 10)
  {
    Shift5();
    forall w ensures Composed(Shift(5), Shift(5), Shift(10), w) {}
    ShiftTwice(HALVING, Shift(5), 5, Shift(5), 5, Shift(10));
  }

  lemma Shift8()
    ensures Shifts(HALVING, Shift(8), 8)
  {
    Shift5(); Shift3();
    forall w ensures Composed(Shift(5), Shift(3), Shift(8), w) {}
    ShiftTwice(HALVING, Shift(5), 5, Shift(3), 3, Shift(8));
  }

  lemma Shift16()
    ensures Shifts(HALVING, Shift(16), 16)
  {
    Shift8();
    forall w ensures Composed(Shift(8), Shift(8), Shift(16), w) {}
    ShiftTwice(HALVING, Shift(8), 8, Shift(8), 8, Shift(16));
  }

  /** A word has 32 digits. */
  lemma NoMoreDigits(w: bv32, i: nat)
    requires i >= 32
    ensures !Bit(HALVING, w, i)
  {
    Shift16();
    var v := Shift(16)(w);
    assert Shift(16)(v) == 0;
    assert Bit(HALVING, Shift(16)(v), i - 32) == Bit(HALVING, v, i - 16) == Bit(HALVING, w, i);
    TopDigit();
    BlankBits(HALVING, 0, i - 32);
  }

  lemma XorBits(a: bv32, b: bv32, c: bv32, i: nat)
    ensures Bit(HALVING, a ^ b ^ c, i) == XorBit(Bit(HALVING, a, i), Bit(HALVING, b, i), Bit(HALVING, c, i))
  {
    forall x, y, z ensures Digitwise(HALVING, Xor, XorBit, x, y, z) { XorDigitwise(x, y, z); }
    DigitwiseBits(HALVING, Xor, XorBit, a, b, c, i);
  }

  lemma ChoiceBits(e: bv32, f: bv32, g: bv32, i: nat)
    ensures Bit(HALVING, Choice(e, f, g), i) == ChoiceBit(Bit(HALVING, e, i), Bit(HALVING, f, i), Bit(HALVING, g, i))
  {
    forall x, y, z ensures Digitwise(HALVING, Choice, ChoiceBit, x, y, z) { ChoiceDigitwise(x, y, z); }
    DigitwiseBits(HALVING, Choice, ChoiceBit, e, f, g, i);
  }

  lemma MajorityBits(a: bv32, b: bv32, c: bv32, i: nat)
    ensures Bit(HALVING, Majority(a, b, c), i) == MajorityBit(Bit(HALVING, a, i), Bit(HALVING, b, i), Bit(HALVING, c, i))
  {
    forall x, y, z ensures Digitwise(HALVING, Majority, MajorityBit, x, y, z) { MajorityDigitwise(x, y, z); }
    DigitwiseBits(HALVING, Majority, MajorityBit, a, b, c, i);
  }

  lemma RotrByOne(w: bv32)
    ensures TurnsOnce(HALVING, Xor, 0, 0x8000_0000, Rotation(1), w)
  {
  }

  lemma Rotation1()
    ensures Rotates(HALVING, Rotation(1), 1)
  {
    forall x, y, z ensures Digitwise(HALVING, Xor, XorBit, x, y, z) { XorDigitwise(x, y, z); }
    forall w ensures TurnsOnce(HALVING, Xor, 0, 0x8000_0000, Rotation(1), w) { RotrByOne(w); }
    forall w ensures !Bit(HALVING, w, WIDTH) { NoMoreDigits(w, WIDTH); }
    TopDigit();
    RotateOnce(HALVING, Xor, XorBit, 0, 0x8000_0000, Rotation(1));
  }

  lemma Rotation2()
    ensures Rotates(HALVING, Rotation(2), 2)
  {
    Rotation1();
    forall w ensures Composed(Rotation(1), Rotation(1), Rotation(2), w) {}
    RotateTwice(HALVING, Rotation(1), 1, Rotation(1), 1, Rotation(2));
  }

  lemma Rotation4()
    ensures Rotates(HALVING, Rotation(4), 4)
  {
    Rotation2();
    forall w ensures Composed(Rotation(2), Rotation(2), Rotation(4), w) {}
    RotateTwice(HALVING, Rotation(2), 2, Rotation(2), 2, Rotation(4));
  }

  lemma Rotation6()
    ensures Rotates(HALVING, Rotation(6), 6)
  {
    Rotation4(); Rotation2();
    forall w ensures Composed(Rotation(4), Rotation(2), Rotation(6), w) {}
    RotateTwice(HALVING, Rotation(4), 4, Rotation(2), 2, Rotation(6));
  }

  lemma Rotation7()
    ensures Rotates(HALVING, Rotation(7), 7)
  {
    Rotation6(); Rotation1();
    forall w ensures Composed(Rotation(6), Rotation(1), Rotation(7), w) {}
    RotateTwice(HALVING, Rotation(6), 6, Rotation(1), 1, Rotation(7));
  }

  lemma Rotation11()
    ensures Rotates(HALVING, Rotation(11), 11)
  {
    Rotation7(); Rotation4();
    forall w ensures Composed(Rotation(7), Rotation(4), Rotation(11), w) {}
    RotateTwice(HALVING, Rotation(7), 7, Rotation(4), 4, Rotation(11));
  }

  lemma Rotation13()
    ensures Rotates(HALVING, Rotation(13), 13)
  {
    Rotation11(); Rotation2();
    forall w ensures Composed(Rotation(11), Rotation(2), Rotation(13), w) {}
    RotateTwice(HALVING, Rotation(11), 11, Rotation(2), 2, Rotation(13));
  }

  lemma Rotation17()
    ensures Rotates(HALVING, Rotation(17), 17)
  {
    Rotation13(); Rotation4();
    forall w ensures Composed(Rotation(13), Rotation(4), Rotation(17), w) {}
    RotateTwice(HALVING, Rotation(13), 13, Rotation(4), 4, Rotation(17));
  }

  lemma Rotation18()
    ensures Rotates(HALVING, Rotation(18), 18)
  {
    Rotation17(); Rotation1();
    forall w ensures Composed(Rotation(17), Rotation(1), Rotation(18), w) {}
    RotateTwice(HALVING, Rotation(17), 17, Rotation(1), 1, Rotation(18));
  }

  lemma Rotation19()
    ensures Rotates(HALVING, Rotation(19), 19)
  {
    Rotation17(); Rotation2();
    forall w ensures Composed(Rotation(17), Rotation(2), Rotation(19), w) {}
    RotateTwice(HALVING, Rotation(17), 17, Rotation(2), 2, Rotation(19));
  }

  lemma Rotation22()
    ensures Rotates(HALVING, Rotation(22), 22)
  {
    Rotation11();
    forall w ensures Composed(Rotation(11), Rotation(11), Rotation(22), w) {}
    RotateTwice(HALVING, Rotation(11), 11, Rotation(11), 11, Rotation(22));
  }

  lemma Rotation25()
    ensures Rotates(HALVING, Rotation(25), 25)
  {
    Rotation18(); Rotation7();
    forall w ensures Composed(Rotation(18), Rotation(7), Rotation(25), w) {}
    RotateTwice(HALVING, Rotation(18), 18, Rotation(7), 7, Rotation(25));
  }


  // ---------------------------------------------------------------- the four sigmas

  predicate Digit(w: bv32, i: nat) {
    Bit(HALVING, w, i)
  }

  lemma XorLaw()
    ensures forall x, y, z :: Digitwise(HALVING, Xor, XorBit, x, y, z)
  {
    forall x, y, z ensures Digitwise(HALVING, Xor, XorBit, x, y, z) { XorDigitwise(x, y, z); }
  }

  lemma BigSigma0Adds(w: bv32)
    ensures Adds(Xor, Rotation(2), Rotation(13), Rotation(22), BigSigma0, w)
  {
  }

  lemma BigSigma0Bits(w: bv32, i: nat)
    requires i < 32
    ensures Digit(BigSigma0(w), i) == XorBit(Digit(w, (i + 2) % 32), Digit(w, (i + 13) % 32), Digit(w, (i + 22) % 32))
  {
    XorLaw(); Rotation2(); Rotation13(); Rotation22();
    BigSigma0Adds(w);
    ThreeRotations(HALVING, Xor, XorBit, Rotation(2), 2, Rotation(13), 13, Rotation(22), 22, BigSigma0, w, i);
  }

  lemma BigSigma1Adds(w: bv32)
    ensures Adds(Xor, Rotation(6), Rotation(11), Rotation(25), BigSigma1, w)
  {
  }

  lemma BigSigma1Bits(w: bv32, i: nat)
    requires i < 32
    ensures Digit(BigSigma1(w), i) == XorBit(Digit(w, (i + 6) % 32), Digit(w, (i + 11) % 32), Digit(w, (i + 25) % 32))
  {
    XorLaw(); Rotation6(); Rotation11(); Rotation25();
    BigSigma1Adds(w);
    ThreeRotations(HALVING, Xor, XorBit, Rotation(6), 6, Rotation(11), 11, Rotation(25), 25, BigSigma1, w, i);
  }

  lemma SmallSigma0Adds(w: bv32)
    ensures Adds(Xor, Rotation(7), Rotation(18), Shift(3), SmallSigma0, w)
  {
  }

  lemma SmallSigma0Bits(w: bv32, i: nat)
    requires i < 32
    ensures Digit(SmallSigma0(w), i) == XorBit(Digit(w, (i + 7) % 32), Digit(w, (i + 18) % 32), Digit(w, i + 3))
  {
    XorLaw(); Rotation7(); Rotation18(); Shift3();
    SmallSigma0Adds(w);
    TwoRotationsAndShift(HALVING, Xor, XorBit, Rotation(7), 7, Rotation(18), 18, Shift(3), 3, SmallSigma0, w, i);
  }

  lemma SmallSigma1Adds(w: bv32)
    ensures Adds(Xor, Rotation(17), Rotation(19), Shift(10), SmallSigma1, w)
  {
  }

  lemma SmallSigma1Bits(w: bv32, i: nat)
    requires i < 32
    ensures Digit(SmallSigma1(w), i) == XorBit(Digit(w, (i + 17) % 32), Digit(w, (i + 19) % 32), Digit(w, i + 10))
  {
    XorLaw(); Rotation17(); Rotation19(); Shift10();
    SmallSigma1Adds(w);
    TwoRotationsAndShift(HALVING, Xor, XorBit, Rotation(17), 17, Rotation(19), 19, Shift(10), 10, SmallSigma1, w, i);
  }
}
