/** CRC16-Modbus (common/ModbusRtu.cpp; MODBUS over Serial Line V1.02, section 6.2.2) and what it detects. */
module ModbusCrc {
  import G = LinearRegister

  /** uint16_t with the generator of CRC16-Modbus. */
  const OPS: G.Ops<bv16> := G.Ops(Xor, Half, Odd, 0, 1, 0xA001)

  function Xor(a: bv16, b: bv16): bv16 { a ^ b }
  function Half(x: bv16): bv16 { x >> 1 }
  predicate Odd(x: bv16) { x & 1 == 1 }

  function Feed(c: bv16, b: bv8): bv16 {
    G.Turns(OPS, c ^ (b as bv16), 8)
  }

  function Register(c: bv16, data: seq<bv8>): bv16 {
    if data == [] then c else Feed(Register(c, data[..|data| - 1]), data[|data| - 1])
  }

  function Crc(data: seq<bv8>): bv16 {
    Register(0xFFFF, data)
  }

  /** crc16_modbus. */
  method Crc16(data: seq<bv8>) returns (crc: bv16)
    ensures crc == Crc(data)
  {
    crc := 0xFFFF;
    for i := 0 to |data|
      invariant crc == Register(0xFFFF, data[..i])
    {
      ghost var before := crc;
      crc := TurnByte(crc ^ (data[i] as bv16));
      assert data[..i + 1][..i] == data[..i];
      assert crc == Feed(before, data[i]);
    }
    assert data[..|data|] == data;
  }

  /** The inner loop. */
  method TurnByte(c: bv16) returns (crc: bv16)
    ensures crc == G.Turns(OPS, c, 8)
  {
    crc := c;
    for j := 0 to 8
      invariant G.Turns(OPS, crc, 8 - j) == G.Turns(OPS, c, 8)
    {
      if crc & 1 == 1 {
        crc := (crc >> 1) ^ 0xA001;
      } else {
        crc := crc >> 1;
      }
    }
  }

  // ---------------------------------------------------------------- the known check value

  ghost predicate Gives(data: seq<bv8>, crc: bv16) {
    Crc(data) == crc
  }

  lemma GivesNext(data: seq<bv8>, b: bv8, before: bv16, after: bv16, longer: seq<bv8>)
    requires Gives(data, before) && Feed(before, b) == after && longer == data + [b]
    ensures Gives(longer, after)
  {
    assert longer[..|data|] == data;
  }

  lemma TwoDigits()
    ensures Gives([0x31, 0x32], 0xF595)
  {
    GivesNext([], 0x31, 0xFFFF, 0x947E, [0x31]);
    GivesNext([0x31], 0x32, 0x947E, 0xF595, [0x31, 0x32]);
  }

  lemma FourDigits()
    ensures Gives([0x31, 0x32, 0x33, 0x34], 0x30BA)
  {
    TwoDigits();
    GivesNext([0x31, 0x32], 0x33, 0xF595, 0x7A75, [0x31, 0x32, 0x33]);
    GivesNext([0x31, 0x32, 0x33], 0x34, 0x7A75, 0x30BA, [0x31, 0x32, 0x33, 0x34]);
  }

  lemma SixDigits()
    ensures Gives([0x31, 0x32, 0x33, 0x34, 0x35, 0x36], 0x32E4)
  {
    FourDigits();
    GivesNext([0x31, 0x32, 0x33, 0x34], 0x35, 0x30BA, 0xA471, [0x31, 0x32, 0x33, 0x34, 0x35]);
    GivesNext([0x31, 0x32, 0x33, 0x34, 0x35], 0x36, 0xA471, 0x32E4, [0x31, 0x32, 0x33, 0x34, 0x35, 0x36]);
  }

  lemma EightDigits()
    ensures Gives([0x31, 0x32, 0x33, 0x34, 0x35, 0x36, 0x37, 0x38], 0x37DD)
  {
    SixDigits();
    GivesNext([0x31, 0x32, 0x33, 0x34, 0x35, 0x36], 0x37, 0x32E4, 0x9D73, [0x31, 0x32, 0x33, 0x34, 0x35, 0x36, 0x37]);
    GivesNext([0x31, 0x32, 0x33, 0x34, 0x35, 0x36, 0x37], 0x38, 0x9D73, 0x37DD, [0x31, 0x32, 0x33, 0x34, 0x35, 0x36, 0x37, 0x38]);
  }

  /** The digits 1 to 9: 0x4B37 is the check value by which this CRC is catalogued, and it depends on the
      generator, on the start value and on the order of bits and bytes. */
  lemma CheckValue()
    ensures Gives([0x31, 0x32, 0x33, 0x34, 0x35, 0x36, 0x37, 0x38, 0x39], 0x4B37)
  {
    EightDigits();
    GivesNext([0x31, 0x32, 0x33, 0x34, 0x35, 0x36, 0x37, 0x38], 0x39, 0x37DD, 0x4B37, [0x31, 0x32, 0x33, 0x34, 0x35, 0x36, 0x37, 0x38, 0x39]);
  }

  // ---------------------------------------------------------------- numbers of few bits

  /** m shifted up n times. */
  function Up(m: bv16, n: nat): bv16 {
    if n == 0 then m else Up(m, n - 1) << 1
  }

  lemma UpValues()
    ensures Up(1, 15) == 0x8000 && Up(0xFFFF, 8) == 0xFF00 && Up(0xFFFF, 16) == 0
  {
    assert Up(1, 5) == 0x20;
    assert Up(1, 10) == 0x400;
    assert Up(0xFFFF, 4) == 0xFFF0;
    assert Up(0xFFFF, 8) == 0xFF00;
    assert Up(0xFFFF, 12) == 0xF000;
  }

  /** A number with no bit from n on has at most n bits; one with bit n does not. */
  lemma {:induction false} LowFits(x: bv16, n: nat)
    requires x & Up(0xFFFF, n) == 0
    ensures G.Fits(OPS, x, n)
    decreases n
  {
    if n == 0 {
      AllBits(x);
    } else {
      BitsMove(x, Up(0xFFFF, n - 1));
      LowFits(Half(x), n - 1);
    }
  }

  lemma {:induction false} HighDoesNotFit(x: bv16, n: nat)
    requires x & Up(1, n) != 0
    ensures !G.Fits(OPS, x, n)
    decreases n
  {
    if n == 0 {
      ZeroHasNoBit(x, 1);
    } else {
      BitsMove(x, Up(1, n - 1));
      HighDoesNotFit(Half(x), n - 1);
    }
  }

  lemma AllBits(x: bv16)
    requires x & 0xFFFF == 0
    ensures x == 0
  {
  }

  lemma ZeroHasNoBit(x: bv16, m: bv16)
    requires x & m != 0
    ensures x != 0
  {
  }

  lemma BitsMove(x: bv16, m: bv16)
    ensures x & (m << 1) == 0 <==> (x >> 1) & m == 0
  {
  }

  lemma ByteFits(b: bv8)
    ensures G.Fits(OPS, b as bv16, 8)
  {
    UpValues();
    assert (b as bv16) & 0xFF00 == 0;
    LowFits(b as bv16, 8);
  }

  // ---------------------------------------------------------------- the laws hold

  lemma Associates(a: bv16, b: bv16, c: bv16)
    ensures (a ^ b) ^ c == a ^ (b ^ c)
  {
  }

  lemma Commutes(a: bv16, b: bv16)
    ensures a ^ b == b ^ a
  {
  }

  lemma Cancels(a: bv16)
    ensures a ^ 0 == a && 0 ^ a == a && a ^ a == 0
  {
  }

  lemma Bitwise(a: bv16, b: bv16)
    ensures Half(Xor(a, b)) == Xor(Half(a), Half(b))
    ensures Odd(Xor(a, b)) == (Odd(a) != Odd(b))
  {
    XorShifts(a, b);
    XorLowBit(a, b);
  }

  lemma XorShifts(a: bv16, b: bv16)
    ensures (a ^ b) >> 1 == (a >> 1) ^ (b >> 1)
  {
  }

  lemma XorLowBit(a: bv16, b: bv16)
    ensures (a ^ b) & 1 == 1 <==> ((a & 1 == 1) != (b & 1 == 1))
  {
    assert a & 1 == 0 || a & 1 == 1;
    assert b & 1 == 0 || b & 1 == 1;
    assert (a ^ b) & 1 == (a & 1) ^ (b & 1);
  }

  lemma TopBit(a: bv16)
    ensures a >> 1 == 0 && a & 1 != 1 ==> a == 0
    ensures ((a >> 1) ^ 0xA001) & 0x8000 != 0
    ensures a & 0 == 0
  {
  }

  lemma SixteenBits(a: bv16)
    ensures G.Fits(OPS, a, 16)
  {
    UpValues();
    TopBit(a);
    LowFits(a, 16);
  }

  lemma FedBackBit(a: bv16)
    ensures !G.Fits(OPS, (a >> 1) ^ 0xA001, 15)
  {
    UpValues();
    TopBit(a);
    HighDoesNotFit((a >> 1) ^ 0xA001, 15);
  }

  lemma Sixteen(a: bv16)
    ensures G.Sixteen(OPS, a)
  {
    SixteenBits(a);
    FedBackBit(a);
    TopBit(a);
  }

  lemma GeneratorIsOdd()
    ensures G.Parity(OPS, 0xA001, 16)
  {
    assert !G.Parity(OPS, 0, 0);
    assert G.Parity(OPS, 0x1, 1);
    assert !G.Parity(OPS, 0x5, 3);
    assert !G.Parity(OPS, 0x50, 7);
    assert !G.Parity(OPS, 0x500, 11);
    assert !G.Parity(OPS, 0x5000, 15);
  }

  lemma MedialLaw(a: bv16, b: bv16, c: bv16, d: bv16)
    ensures G.Medial(OPS, a, b, c, d)
  {
    forall x, y, z ensures G.Associative(OPS, x, y, z) { Associates(x, y, z); }
    forall x, y ensures G.Commutative(OPS, x, y) { Commutes(x, y); }
    G.MedialFollows(OPS, a, b, c, d);
  }

  lemma CancelsLaw(a: bv16)
    ensures G.Cancels(OPS, a)
  {
    Cancels(a);
  }

  lemma BitwiseLaw(a: bv16, b: bv16)
    ensures G.Bitwise(OPS, a, b)
  {
    Bitwise(a, b);
  }

  lemma ConstantsLaw()
    ensures G.Constants(OPS)
  {
    GeneratorIsOdd();
  }

  lemma Lawful()
    ensures G.Lawful(OPS)
  {
    forall a, b, c, d ensures G.Medial(OPS, a, b, c, d) { MedialLaw(a, b, c, d); }
    forall a ensures G.Cancels(OPS, a) { CancelsLaw(a); }
    forall a, b ensures G.Bitwise(OPS, a, b) { BitwiseLaw(a, b); }
    forall a ensures G.Sixteen(OPS, a) { Sixteen(a); }
    ConstantsLaw();
  }
}
