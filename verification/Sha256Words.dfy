/** uint32_t words for SHA-256, the constants, and the printed digest (common/Sha256.cpp). */
module Sha256Words {
  import opened Sha256
  import F = Sha256Functions
  import opened Bits

  type Uint32 = x: nat | x < 0x1_0000_0000

  /** Eight rows of eight. */
  const K: seq<seq<Uint32>> := [
    [0x428a2f98, 0x71374491, 0xb5c0fbcf, 0xe9b5dba5, 0x3956c25b, 0x59f111f1, 0x923f82a4, 0xab1c5ed5],
    [0xd807aa98, 0x12835b01, 0x243185be, 0x550c7dc3, 0x72be5d74, 0x80deb1fe, 0x9bdc06a7, 0xc19bf174],
    [0xe49b69c1, 0xefbe4786, 0x0fc19dc6, 0x240ca1cc, 0x2de92c6f, 0x4a7484aa, 0x5cb0a9dc, 0x76f988da],
    [0x983e5152, 0xa831c66d, 0xb00327c8, 0xbf597fc7, 0xc6e00bf3, 0xd5a79147, 0x06ca6351, 0x14292967],
    [0x27b70a85, 0x2e1b2138, 0x4d2c6dfc, 0x53380d13, 0x650a7354, 0x766a0abb, 0x81c2c92e, 0x92722c85],
    [0xa2bfe8a1, 0xa81a664b, 0xc24b8b70, 0xc76c51a3, 0xd192e819, 0xd6990624, 0xf40e3585, 0x106aa070],
    [0x19a4c116, 0x1e376c08, 0x2748774c, 0x34b0bcb5, 0x391c0cb3, 0x4ed8aa4a, 0x5b9cca4f, 0x682e6ff3],
    [0x748f82ee, 0x78a5636f, 0x84c87814, 0x8cc70208, 0x90befffa, 0xa4506ceb, 0xbef9a3f7, 0xc67178f2]
  ]

  const H0: seq<Uint32> := [
    0x6a09e667, 0xbb67ae85, 0x3c6ef372, 0xa54ff53a, 0x510e527f, 0x9b05688c, 0x1f83d9ab, 0x5be0cd19
  ]

  // ---------------------------------------------------------------- FIPS 180-4, section 4.1.2

  const OPS: Ops<Uint32> := Ops(Word, Add, Ch, Maj, BigSigma0, BigSigma1, SmallSigma0, SmallSigma1, Constant,
                                Eight(H0[0], H0[1], H0[2], H0[3], H0[4], H0[5], H0[6], H0[7]))

  function Word(a: Byte, b: Byte, c: Byte, d: Byte): Uint32 {
    a as nat * 0x100_0000 + b as nat * 0x1_0000 + c as nat * 0x100 + d as nat
  }

  function Add(x: Uint32, y: Uint32): Uint32 {
    (x + y) % 0x1_0000_0000
  }

  function Ch(x: Uint32, y: Uint32, z: Uint32): Uint32 {
    F.Choice(x as bv32, y as bv32, z as bv32) as Uint32
  }

  function Maj(x: Uint32, y: Uint32, z: Uint32): Uint32 {
    F.Majority(x as bv32, y as bv32, z as bv32) as Uint32
  }

  function BigSigma0(x: Uint32): Uint32 { F.BigSigma0(x as bv32) as Uint32 }
  function BigSigma1(x: Uint32): Uint32 { F.BigSigma1(x as bv32) as Uint32 }
  function SmallSigma0(x: Uint32): Uint32 { F.SmallSigma0(x as bv32) as Uint32 }
  function SmallSigma1(x: Uint32): Uint32 { F.SmallSigma1(x as bv32) as Uint32 }

  function Constant(t: nat): Uint32 {
    if t < 64 then K[t / 8][t % 8] else 0
  }

  lemma Wraps(x: nat, y: nat)
    ensures (x % 0x1_0000_0000 + y) % 0x1_0000_0000 == (x + y) % 0x1_0000_0000
  {
  }

  lemma SumsWrap(a: nat, b: nat, c: nat, x: nat, y: nat)
    requires x == (a + b) % 0x1_0000_0000 && y == (b + c) % 0x1_0000_0000
    ensures (x + c) % 0x1_0000_0000 == (a + y) % 0x1_0000_0000
  {
    Wraps(a + b, c);
    Wraps(b + c, a);
  }

  lemma AddAssociates(a: Uint32, b: Uint32, c: Uint32)
    ensures Associates(OPS, a, b, c)
  {
    SumsWrap(a, b, c, Add(a, b), Add(b, c));
  }

  /** Addition is modulo 2^32; the order of summands does not matter. */
  lemma WordsSum()
    ensures Sums(OPS)
    ensures forall x, y :: OPS.add(x, y) as nat == (x as nat + y as nat) % 0x1_0000_0000
  {
    forall a, b, c ensures Associates(OPS, a, b, c) { AddAssociates(a, b, c); }
    assert forall a, b :: Commutes(OPS, a, b);
  }

  // ---------------------------------------------------------------- the functions, digit by digit

  function Half(x: Uint32): Uint32 { x / 2 }
  predicate Odd(x: Uint32) { x % 2 == 1 }

  const NUMBERS: Halving<Uint32> := Halving(Half, Odd)

  /** Binary digit i of a number, the lowest being digit 0. */
  predicate Digit(x: Uint32, i: nat) {
    Bit(NUMBERS, x, i)
  }

  lemma TwiceAndOne(v: bv32)
    requires (v as nat) < 0x8000_0000
    ensures ((v << 1) | 1) as nat == 2 * (v as nat) + 1
  {
  }

  lemma Twice(v: bv32)
    requires (v as nat) < 0x8000_0000
    ensures (v << 1) as nat == 2 * (v as nat)
  {
  }

  lemma HalfOfTwice(v: bv32)
    requires (v as nat) < 0x8000_0000
    ensures (v << 1) >> 1 == v && ((v << 1) | 1) >> 1 == v
  {
  }

  /** One more digit at the low end. */
  function Longer(v: bv32, odd: bool): bv32 {
    if odd then (v << 1) | 1 else v << 1
  }

  lemma LongerValue(v: bv32, x: nat)
    requires x < 0x1_0000_0000 && v as nat == x / 2
    ensures Longer(v, x % 2 == 1) as nat == x
  {
    if x % 2 == 1 { TwiceAndOne(v); } else { Twice(v); }
  }

  lemma LongerHalf(v: bv32, odd: bool)
    requires (v as nat) < 0x8000_0000
    ensures F.Half(Longer(v, odd)) == v
  {
    HalfOfTwice(v);
  }

  /** A number as a word, from its digits. */
  function ToBits(x: Uint32): bv32 {
    if x == 0 then 0 else Longer(ToBits(x / 2), x % 2 == 1)
  }

  lemma {:induction false} BitsValue(x: Uint32)
    ensures ToBits(x) as nat == x
    decreases x
  {
    if x > 0 {
      BitsValue(x / 2);
      LongerValue(ToBits(x / 2), x);
    }
  }

  lemma Converted(x: Uint32, w: bv32)
    requires w as nat == x
    ensures x as bv32 == w
  {
  }

  lemma BitsHalve(x: Uint32)
    ensures F.Half(ToBits(x)) == ToBits(x / 2)
  {
    if x > 0 {
      BitsValue(x / 2);
      LongerHalf(ToBits(x / 2), x % 2 == 1);
    }
  }

  lemma LongerLow(v: bv32, odd: bool)
    ensures F.Odd(Longer(v, odd)) == odd
  {
  }

  lemma BitsLow(x: Uint32)
    ensures F.Odd(ToBits(x)) <==> x % 2 == 1
  {
    if x > 0 { LongerLow(ToBits(x / 2), x % 2 == 1); }
  }

  lemma BitsMirror(x: Uint32)
    ensures Mirrors(NUMBERS, F.HALVING, ToBits, x)
  {
    BitsHalve(x);
    BitsLow(x);
  }

  lemma DigitsAgree(x: Uint32, i: nat)
    ensures F.Digit(x as bv32, i) == Digit(x, i)
  {
    forall y ensures Mirrors(NUMBERS, F.HALVING, ToBits, y) { BitsMirror(y); }
    MirrorsBits(NUMBERS, F.HALVING, ToBits, x, i);
    BitsValue(x);
    Converted(x, ToBits(x));
  }

  lemma Wrapped(w: bv32)
    ensures (w as Uint32) as bv32 == w
  {
  }

  /** Digit i of a sigma is the exclusive or of the digits that its three moves bring there. */
  lemma BigSigma0Digits(x: Uint32, i: nat)
    requires i < 32
    ensures Digit(OPS.big0(x), i)
         == ((Digit(x, (i + 2) % 32) != Digit(x, (i + 13) % 32)) != Digit(x, (i + 22) % 32))
  {
    F.BigSigma0Bits(x as bv32, i);
    Wrapped(F.BigSigma0(x as bv32));
    DigitsAgree(x, (i + 2) % 32);
    DigitsAgree(x, (i + 13) % 32);
    DigitsAgree(x, (i + 22) % 32);
    DigitsAgree(OPS.big0(x), i);
  }

  lemma BigSigma1Digits(x: Uint32, i: nat)
    requires i < 32
    ensures Digit(OPS.big1(x), i)
         == ((Digit(x, (i + 6) % 32) != Digit(x, (i + 11) % 32)) != Digit(x, (i + 25) % 32))
  {
    F.BigSigma1Bits(x as bv32, i);
    Wrapped(F.BigSigma1(x as bv32));
    DigitsAgree(x, (i + 6) % 32);
    DigitsAgree(x, (i + 11) % 32);
    DigitsAgree(x, (i + 25) % 32);
    DigitsAgree(OPS.big1(x), i);
  }

  /** What the shift moves in at the top is zero. */
  lemma SmallSigma0Digits(x: Uint32, i: nat)
    requires i < 32
    ensures Digit(OPS.small0(x), i)
         == ((Digit(x, (i + 7) % 32) != Digit(x, (i + 18) % 32)) != (i + 3 < 32 && Digit(x, i + 3)))
  {
    F.SmallSigma0Bits(x as bv32, i);
    Wrapped(F.SmallSigma0(x as bv32));
    DigitsAgree(x, (i + 7) % 32);
    DigitsAgree(x, (i + 18) % 32);
    DigitsAgree(x, i + 3);
    if i + 3 >= 32 { F.NoMoreDigits(x as bv32, i + 3); }
    DigitsAgree(OPS.small0(x), i);
  }

  lemma SmallSigma1Digits(x: Uint32, i: nat)
    requires i < 32
    ensures Digit(OPS.small1(x), i)
         == ((Digit(x, (i + 17) % 32) != Digit(x, (i + 19) % 32)) != (i + 10 < 32 && Digit(x, i + 10)))
  {
    F.SmallSigma1Bits(x as bv32, i);
    Wrapped(F.SmallSigma1(x as bv32));
    DigitsAgree(x, (i + 17) % 32);
    DigitsAgree(x, (i + 19) % 32);
    DigitsAgree(x, i + 10);
    if i + 10 >= 32 { F.NoMoreDigits(x as bv32, i + 10); }
    DigitsAgree(OPS.small1(x), i);
  }

  lemma ChWord(e: Uint32, f: Uint32, g: Uint32)
    ensures OPS.ch(e, f, g) as bv32 == F.Choice(e as bv32, f as bv32, g as bv32)
  {
    Wrapped(F.Choice(e as bv32, f as bv32, g as bv32));
  }

  /** Ch selects. */
  lemma ChDigits(e: Uint32, f: Uint32, g: Uint32, i: nat)
    ensures Digit(OPS.ch(e, f, g), i) == ((Digit(e, i) && Digit(f, i)) || (!Digit(e, i) && Digit(g, i)))
  {
    F.ChoiceBits(e as bv32, f as bv32, g as bv32, i);
    ChWord(e, f, g);
    DigitsAgree(e, i);
    DigitsAgree(f, i);
    DigitsAgree(g, i);
    DigitsAgree(OPS.ch(e, f, g), i);
  }

  /** Maj is the majority. */
  lemma MajDigits(a: Uint32, b: Uint32, c: Uint32, i: nat)
    ensures Digit(OPS.maj(a, b, c), i) == ((Digit(a, i) && Digit(b, i)) || (Digit(a, i) && Digit(c, i)) || (Digit(b, i) && Digit(c, i)))
  {
    F.MajorityBits(a as bv32, b as bv32, c as bv32, i);
    Wrapped(F.Majority(a as bv32, b as bv32, c as bv32));
    DigitsAgree(a, i);
    DigitsAgree(b, i);
    DigitsAgree(c, i);
    DigitsAgree(OPS.maj(a, b, c), i);
  }

  /** A word is the value of its four bytes, most significant first. */
  lemma WordIsValue(a: Byte, b: Byte, c: Byte, d: Byte)
    ensures OPS.word(a, b, c, d) == Value([a, b, c, d])
  {
    assert [a, b, c, d][..3] == [a, b, c] && [a, b, c][..2] == [a, b] && [a, b][..1] == [a] && [a][..0] == [];
    assert Value([a]) == a as nat && Value([a, b]) == Value([a]) * 0x100 + b as nat;
    assert Value([a, b, c]) == Value([a, b]) * 0x100 + c as nat;
    assert Value([a, b, c, d]) == Value([a, b, c]) * 0x100 + d as nat;
  }

  // ---------------------------------------------------------------- sections 4.2.2 and 5.3.3

  /** The first 64 primes, in rows of eight. */
  const PRIMES: seq<seq<nat>> := [
    [2, 3, 5, 7, 11, 13, 17, 19],
    [23, 29, 31, 37, 41, 43, 47, 53],
    [59, 61, 67, 71, 73, 79, 83, 89],
    [97, 101, 103, 107, 109, 113, 127, 131],
    [137, 139, 149, 151, 157, 163, 167, 173],
    [179, 181, 191, 193, 197, 199, 211, 223],
    [227, 229, 233, 239, 241, 251, 257, 263],
    [269, 271, 277, 281, 283, 293, 307, 311]
  ]

  /** The whole part of the cube root of p. */
  function CubeWhole(p: nat): nat {
    if p < 8 then 1 else if p < 27 then 2 else if p < 64 then 3 else if p < 125 then 4 else if p < 216 then 5 else 6
  }

  /** k is the first 32 bits of the fractional part of the cube root of p. */
  predicate CubeFraction(p: nat, k: nat) {
    var x := CubeWhole(p) * 0x1_0000_0000 + k;
    x * x * x <= p * 0x1_0000_0000_0000_0000_0000_0000 < (x + 1) * (x + 1) * (x + 1)
  }

  function SquareWhole(p: nat): nat {
    if p < 4 then 1 else if p < 9 then 2 else if p < 16 then 3 else 4
  }

  predicate SquareFraction(p: nat, k: nat) {
    var x := SquareWhole(p) * 0x1_0000_0000 + k;
    x * x <= p * 0x1_0000_0000_0000_0000 < (x + 1) * (x + 1)
  }

  ghost predicate CubeRow(ps: seq<nat>, ks: seq<Uint32>) {
    |ps| == |ks| == 8 && forall j | 0 <= j < 8 :: CubeFraction(ps[j], ks[j])
  }

  lemma Row0()
    ensures CubeRow(PRIMES[0], K[0])
  {
    assert PRIMES[0] == [2, 3, 5, 7, 11, 13, 17, 19];
    assert K[0] == [0x428a2f98, 0x71374491, 0xb5c0fbcf, 0xe9b5dba5, 0x3956c25b, 0x59f111f1, 0x923f82a4, 0xab1c5ed5];
    assert CubeFraction(2, 0x428a2f98) && CubeFraction(3, 0x71374491) && CubeFraction(5, 0xb5c0fbcf) && CubeFraction(7, 0xe9b5dba5);
    assert CubeFraction(11, 0x3956c25b) && CubeFraction(13, 0x59f111f1) && CubeFraction(17, 0x923f82a4) && CubeFraction(19, 0xab1c5ed5);
  }

  lemma Row1()
    ensures CubeRow(PRIMES[1], K[1])
  {
    assert PRIMES[1] == [23, 29, 31, 37, 41, 43, 47, 53];
    assert K[1] == [0xd807aa98, 0x12835b01, 0x243185be, 0x550c7dc3, 0x72be5d74, 0x80deb1fe, 0x9bdc06a7, 0xc19bf174];
    assert CubeFraction(23, 0xd807aa98) && CubeFraction(29, 0x12835b01) && CubeFraction(31, 0x243185be) && CubeFraction(37, 0x550c7dc3);
    assert CubeFraction(41, 0x72be5d74) && CubeFraction(43, 0x80deb1fe) && CubeFraction(47, 0x9bdc06a7) && CubeFraction(53, 0xc19bf174);
  }

  lemma Row2()
    ensures CubeRow(PRIMES[2], K[2])
  {
    assert PRIMES[2] == [59, 61, 67, 71, 73, 79, 83, 89];
    assert K[2] == [0xe49b69c1, 0xefbe4786, 0x0fc19dc6, 0x240ca1cc, 0x2de92c6f, 0x4a7484aa, 0x5cb0a9dc, 0x76f988da];
    assert CubeFraction(59, 0xe49b69c1) && CubeFraction(61, 0xefbe4786) && CubeFraction(67, 0x0fc19dc6) && CubeFraction(71, 0x240ca1cc);
    assert CubeFraction(73, 0x2de92c6f) && CubeFraction(79, 0x4a7484aa) && CubeFraction(83, 0x5cb0a9dc) && CubeFraction(89, 0x76f988da);
  }

  lemma Row3()
    ensures CubeRow(PRIMES[3], K[3])
  {
    assert PRIMES[3] == [97, 101, 103, 107, 109, 113, 127, 131];
    assert K[3] == [0x983e5152, 0xa831c66d, 0xb00327c8, 0xbf597fc7, 0xc6e00bf3, 0xd5a79147, 0x06ca6351, 0x14292967];
    assert CubeFraction(97, 0x983e5152) && CubeFraction(101, 0xa831c66d) && CubeFraction(103, 0xb00327c8) && CubeFraction(107, 0xbf597fc7);
    assert CubeFraction(109, 0xc6e00bf3) && CubeFraction(113, 0xd5a79147) && CubeFraction(127, 0x06ca6351) && CubeFraction(131, 0x14292967);
  }

  lemma Row4()
    ensures CubeRow(PRIMES[4], K[4])
  {
    assert PRIMES[4] == [137, 139, 149, 151, 157, 163, 167, 173];
    assert K[4] == [0x27b70a85, 0x2e1b2138, 0x4d2c6dfc, 0x53380d13, 0x650a7354, 0x766a0abb, 0x81c2c92e, 0x92722c85];
    assert CubeFraction(137, 0x27b70a85) && CubeFraction(139, 0x2e1b2138) && CubeFraction(149, 0x4d2c6dfc) && CubeFraction(151, 0x53380d13);
    assert CubeFraction(157, 0x650a7354) && CubeFraction(163, 0x766a0abb) && CubeFraction(167, 0x81c2c92e) && CubeFraction(173, 0x92722c85);
  }

  lemma Row5()
    ensures CubeRow(PRIMES[5], K[5])
  {
    assert PRIMES[5] == [179, 181, 191, 193, 197, 199, 211, 223];
    assert K[5] == [0xa2bfe8a1, 0xa81a664b, 0xc24b8b70, 0xc76c51a3, 0xd192e819, 0xd6990624, 0xf40e3585, 0x106aa070];
    assert CubeFraction(179, 0xa2bfe8a1) && CubeFraction(181, 0xa81a664b) && CubeFraction(191, 0xc24b8b70) && CubeFraction(193, 0xc76c51a3);
    assert CubeFraction(197, 0xd192e819) && CubeFraction(199, 0xd6990624) && CubeFraction(211, 0xf40e3585) && CubeFraction(223, 0x106aa070);
  }

  lemma Row6()
    ensures CubeRow(PRIMES[6], K[6])
  {
    assert PRIMES[6] == [227, 229, 233, 239, 241, 251, 257, 263];
    assert K[6] == [0x19a4c116, 0x1e376c08, 0x2748774c, 0x34b0bcb5, 0x391c0cb3, 0x4ed8aa4a, 0x5b9cca4f, 0x682e6ff3];
    assert CubeFraction(227, 0x19a4c116) && CubeFraction(229, 0x1e376c08) && CubeFraction(233, 0x2748774c) && CubeFraction(239, 0x34b0bcb5);
    assert CubeFraction(241, 0x391c0cb3) && CubeFraction(251, 0x4ed8aa4a) && CubeFraction(257, 0x5b9cca4f) && CubeFraction(263, 0x682e6ff3);
  }

  lemma Row7()
    ensures CubeRow(PRIMES[7], K[7])
  {
    assert PRIMES[7] == [269, 271, 277, 281, 283, 293, 307, 311];
    assert K[7] == [0x748f82ee, 0x78a5636f, 0x84c87814, 0x8cc70208, 0x90befffa, 0xa4506ceb, 0xbef9a3f7, 0xc67178f2];
    assert CubeFraction(269, 0x748f82ee) && CubeFraction(271, 0x78a5636f) && CubeFraction(277, 0x84c87814) && CubeFraction(281, 0x8cc70208);
    assert CubeFraction(283, 0x90befffa) && CubeFraction(293, 0xa4506ceb) && CubeFraction(307, 0xbef9a3f7) && CubeFraction(311, 0xc67178f2);
  }

  /** The round constants come from the cube roots of the first 64 primes, in order. */
  lemma RoundConstants()
    ensures forall i | 0 <= i < 8 :: CubeRow(PRIMES[i], K[i])
    ensures forall t | 0 <= t < 64 :: OPS.k(t) == K[t / 8][t % 8]
  {
    Row0(); Row1(); Row2(); Row3(); Row4(); Row5(); Row6(); Row7();
  }

  /** The initial hash value comes from the square roots of the first eight primes. */
  lemma InitialValue()
    ensures forall t | 0 <= t < 8 :: SquareFraction(PRIMES[0][t], H0[t])
    ensures var i := OPS.initial; [i.a, i.b, i.c, i.d, i.e, i.f, i.g, i.h] == H0
  {
  }

  // ---------------------------------------------------------------- the printed digest

  const DIGITS: string := "0123456789abcdef"

  /** n as lower-case hexadecimal digits, with leading zeros. */
  function HexWord(x: nat, n: nat): (s: string)
    ensures |s| == n
  {
    if n == 0 then "" else HexWord(x / 16, n - 1) + [DIGITS[x % 16]]
  }

  function Hex(d: Eight<Uint32>): (s: string)
    ensures |s| == 64
  {
    HexWord(d.a, 8) + HexWord(d.b, 8) + HexWord(d.c, 8) + HexWord(d.d, 8)
    + HexWord(d.e, 8) + HexWord(d.f, 8) + HexWord(d.g, 8) + HexWord(d.h, 8)
  }

  lemma DigitsDiffer(i: nat, j: nat)
    requires i < 16 && j < 16 && DIGITS[i] == DIGITS[j]
    ensures i == j
  {
  }

  function Sixteens(n: nat): nat {
    if n == 0 then 1 else 16 * Sixteens(n - 1)
  }

  lemma {:induction false} HexTells(x: nat, y: nat, n: nat, bound: nat)
    requires HexWord(x, n) == HexWord(y, n) && bound == Sixteens(n)
    ensures x < bound && y < bound ==> x == y
    decreases n
  {
    if n > 0 {
      var s, t := HexWord(x, n), HexWord(y, n);
      assert s[..n - 1] == HexWord(x / 16, n - 1) && t[..n - 1] == HexWord(y / 16, n - 1);
      HexTells(x / 16, y / 16, n - 1, Sixteens(n - 1));
      assert s[n - 1] == t[n - 1];
      DigitsDiffer(x % 16, y % 16);
    }
  }

  lemma HexWordsTell(x: Uint32, y: Uint32)
    requires HexWord(x, 8) == HexWord(y, 8)
    ensures x == y
  {
    assert Sixteens(4) == 0x1_0000 && Sixteens(8) == 0x1_0000_0000;
    HexTells(x, y, 8, Sixteens(8));
  }

  lemma HexParts(d: Eight<Uint32>)
    ensures var s := Hex(d);
            && s[..8] == HexWord(d.a, 8) && s[8..16] == HexWord(d.b, 8)
            && s[16..24] == HexWord(d.c, 8) && s[24..32] == HexWord(d.d, 8)
            && s[32..40] == HexWord(d.e, 8) && s[40..48] == HexWord(d.f, 8)
            && s[48..56] == HexWord(d.g, 8) && s[56..] == HexWord(d.h, 8)
  {
  }

  /** Reading hexadecimal digits, most significant first. */
  function FromHex(s: string): nat {
    if s == "" then 0 else FromHex(s[..|s| - 1]) * 16 + DigitValue(s[|s| - 1])
  }

  function DigitValue(c: char): nat {
    if '0' <= c <= '9' then (c - '0') as nat else if 'a' <= c <= 'f' then (c - 'a') as nat + 10 else 0
  }

  lemma DigitReads(i: nat)
    requires i < 16
    ensures DigitValue(DIGITS[i]) == i
  {
  }

  lemma {:induction false} HexReads(x: nat, n: nat, bound: nat)
    requires bound == Sixteens(n) && x < bound
    ensures FromHex(HexWord(x, n)) == x
    decreases n
  {
    if n > 0 {
      HexReads(x / 16, n - 1, Sixteens(n - 1));
      DigitReads(x % 16);
      assert HexWord(x, n)[..n - 1] == HexWord(x / 16, n - 1);
    }
  }

  lemma WordReads(x: Uint32)
    ensures FromHex(HexWord(x, 8)) == x
  {
    assert Sixteens(4) == 0x1_0000 && Sixteens(8) == 0x1_0000_0000;
    HexReads(x, 8, Sixteens(8));
  }

  /** The printed digest is the eight words in order, each readable as eight hexadecimal digits. */
  lemma HexReadsBack(d: Eight<Uint32>)
    ensures var s := Hex(d);
            && FromHex(s[..8]) == d.a && FromHex(s[8..16]) == d.b && FromHex(s[16..24]) == d.c && FromHex(s[24..32]) == d.d
            && FromHex(s[32..40]) == d.e && FromHex(s[40..48]) == d.f && FromHex(s[48..56]) == d.g && FromHex(s[56..]) == d.h
  {
    HexParts(d);
    WordReads(d.a); WordReads(d.b); WordReads(d.c); WordReads(d.d);
    WordReads(d.e); WordReads(d.f); WordReads(d.g); WordReads(d.h);
  }

  /** Comparing printed digests is comparing digests. */
  lemma SameHexSameDigest(x: Eight<Uint32>, y: Eight<Uint32>)
    ensures Hex(x) == Hex(y) <==> x == y
  {
    if Hex(x) == Hex(y) {
      HexParts(x);
      HexParts(y);
      HexWordsTell(x.a, y.a);
      HexWordsTell(x.b, y.b);
      HexWordsTell(x.c, y.c);
      HexWordsTell(x.d, y.d);
      HexWordsTell(x.e, y.e);
      HexWordsTell(x.f, y.f);
      HexWordsTell(x.g, y.g);
      HexWordsTell(x.h, y.h);
    }
  }

  /** FIPS 180-4 SHA-256, printed. */
  function Printed(data: seq<Byte>): (s: string)
    ensures |s| == 64
  {
    Hex(Digest(OPS, data))
  }

  /** Comparing what is printed is comparing digests. */
  lemma PrintedTells(a: seq<Byte>, b: seq<Byte>)
    ensures Printed(a) == Printed(b) <==> Digest(OPS, a) == Digest(OPS, b)
  {
    SameHexSameDigest(Digest(OPS, a), Digest(OPS, b));
  }

  /** sha256_buffer. */
  method Sha256Buffer(data: seq<Byte>) returns (hex: string)
    ensures hex == Printed(data)
  {
    WordsSum();
    var digest := HashBuffer(OPS, data);
    hex := Hex(digest);
  }
}
