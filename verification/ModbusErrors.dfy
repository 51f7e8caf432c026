/** Which transmission errors the CRC of a Modbus RTU frame detects (common/ModbusRtu.cpp:35-40, 63-75). */
module ModbusErrors {
  import F = Flatten
  import G = LinearRegister
  import opened ModbusCrc

  /** The bits of a message in the order they go over the line: bytes in order, low bit first. */
  function Bits(data: seq<bv8>): (bits: seq<bool>)
    ensures |bits| == 8 * |data|
  {
    F.FlatLength(ByteBits, data);
    F.Flat(ByteBits, data)
  }

  function ByteBits(b: bv8): (bits: seq<bool>)
    ensures |bits| == 8
  {
    G.LowBits(OPS, b as bv16, 8)
  }

  /** A frame whose CRC, taken over its own CRC bytes too, is zero. */
  predicate Passes(frame: seq<bv8>) {
    Crc(frame) == 0
  }

  /** The word sent low byte first. */
  function Word(lo: bv8, hi: bv8): bv16 {
    (lo as bv16) | ((hi as bv16) << 8)
  }

  // ---------------------------------------------------------------- bytes are bits

  lemma FeedIsBits(c: bv16, b: bv8)
    ensures Feed(c, b) == G.FeedBits(OPS, c, ByteBits(b))
  {
    Lawful();
    ByteFits(b);
    G.TurnsAreBits(OPS, c, b as bv16, 8);
  }

  lemma {:induction false} RegisterIsBits(c: bv16, data: seq<bv8>)
    ensures Register(c, data) == G.FeedBits(OPS, c, Bits(data))
    decreases |data|
  {
    if data != [] {
      var n := |data| - 1;
      RegisterIsBits(c, data[..n]);
      FeedIsBits(Register(c, data[..n]), data[n]);
      G.Concat(OPS, c, Bits(data[..n]), ByteBits(data[n]));
    }
  }

  function Halves(x: bv16, n: nat): bv16
    decreases n
  {
    if n == 0 then x else Halves(Half(x), n - 1)
  }

  lemma {:induction false} LowBitsSplit(x: bv16, n: nat, m: nat)
    ensures G.LowBits(OPS, x, n + m) == G.LowBits(OPS, x, n) + G.LowBits(OPS, Halves(x, n), m)
    decreases n
  {
    if n > 0 {
      LowBitsSplit(Half(x), n - 1, m);
    }
  }

  /** x and y have the same n low bits. */
  ghost predicate SameLow(x: bv16, y: bv16, n: nat)
    decreases n
  {
    n == 0 || (Odd(x) == Odd(y) && SameLow(Half(x), Half(y), n - 1))
  }

  lemma {:induction false} SameLowBits(x: bv16, y: bv16, n: nat)
    requires SameLow(x, y, n)
    ensures G.LowBits(OPS, x, n) == G.LowBits(OPS, y, n)
    decreases n
  {
    if n > 0 {
      SameLowBits(Half(x), Half(y), n - 1);
    }
  }

  /** z has no bit among its n lowest. */
  ghost predicate Clear(z: bv16, n: nat)
    decreases n
  {
    n == 0 || (!Odd(z) && Clear(Half(z), n - 1))
  }

  lemma LowByteClear(z: bv16)
    requires z & 0xFF == 0
    ensures z & 1 != 1 && (z >> 1) & 1 != 1 && (z >> 1 >> 1) & 1 != 1 && (z >> 1 >> 1 >> 1) & 1 != 1
    ensures (z >> 1 >> 1 >> 1 >> 1) & 1 != 1 && (z >> 1 >> 1 >> 1 >> 1 >> 1) & 1 != 1
    ensures (z >> 1 >> 1 >> 1 >> 1 >> 1 >> 1) & 1 != 1
    ensures (z >> 1 >> 1 >> 1 >> 1 >> 1 >> 1 >> 1) & 1 != 1
  {
  }

  lemma ByteClear(z: bv16)
    requires z & 0xFF == 0
    ensures Clear(z, 8)
  {
    LowByteClear(z);
    assert Clear(z >> 1 >> 1 >> 1 >> 1, 4);
  }

  lemma {:induction false} ClearSum(x: bv16, y: bv16, n: nat)
    requires Clear(Xor(x, y), n)
    ensures SameLow(x, y, n)
    decreases n
  {
    if n > 0 {
      Bitwise(x, y);
      ClearSum(Half(x), Half(y), n - 1);
    }
  }

  lemma EightShifts(x: bv16)
    ensures x >> 1 >> 1 >> 1 >> 1 >> 1 >> 1 >> 1 >> 1 == x >> 8
  {
  }

  lemma HalvesMany(x: bv16)
    ensures Halves(x, 8) == x >> 1 >> 1 >> 1 >> 1 >> 1 >> 1 >> 1 >> 1
  {
  }

  lemma WordParts(lo: bv8, hi: bv8)
    ensures Xor(Word(lo, hi), lo as bv16) & 0xFF == 0
    ensures Word(lo, hi) >> 8 == hi as bv16
  {
  }

  lemma LowHalf(lo: bv8, hi: bv8)
    ensures G.LowBits(OPS, Word(lo, hi), 8) == ByteBits(lo)
  {
    WordParts(lo, hi);
    ByteClear(Xor(Word(lo, hi), lo as bv16));
    ClearSum(Word(lo, hi), lo as bv16, 8);
    SameLowBits(Word(lo, hi), lo as bv16, 8);
  }

  lemma HighHalf(lo: bv8, hi: bv8)
    ensures Halves(Word(lo, hi), 8) == hi as bv16
  {
    WordParts(lo, hi);
    HalvesMany(Word(lo, hi));
    EightShifts(Word(lo, hi));
  }

  lemma WordBits(lo: bv8, hi: bv8)
    ensures G.LowBits(OPS, Word(lo, hi), 16) == ByteBits(lo) + ByteBits(hi)
  {
    LowHalf(lo, hi);
    HighHalf(lo, hi);
    LowBitsSplit(Word(lo, hi), 8, 8);
  }

  lemma Associate(a: seq<bool>, b: seq<bool>, c: seq<bool>)
    ensures a + (b + c) == (a + b) + c
  {
  }

  lemma BitsOfTwo(data: seq<bv8>, lo: bv8, hi: bv8)
    ensures Bits(data + [lo, hi]) == Bits(data) + G.LowBits(OPS, Word(lo, hi), 16)
  {
    F.FlatSnoc(ByteBits, data, lo);
    F.FlatSnoc(ByteBits, data + [lo], hi);
    assert data + [lo, hi] == data + [lo] + [hi];
    WordBits(lo, hi);
    Associate(Bits(data), ByteBits(lo), ByteBits(hi));
  }

  lemma XorZero(c: bv16, w: bv16)
    ensures Xor(c, w) == 0 <==> c == w
  {
  }

  // ---------------------------------------------------------------- what passes, what is caught

  /** Two more bytes bring the register to zero exactly if they are its contents, low byte first. */
  lemma RegisterTakesWord(c: bv16, w: bv16)
    ensures G.FeedBits(OPS, c, G.LowBits(OPS, w, 16)) == 0 <==> c == w
  {
    Lawful();
    SixteenBits(w);
    G.TurnsAreBits(OPS, c, w, 16);
    G.TurnsFaithful(OPS, Xor(c, w), 16);
    XorZero(c, w);
  }

  /** Comparing the CRC of the body with the two bytes received is testing the CRC of the whole frame. */
  lemma CrcMatchesIffRegisterZero(data: seq<bv8>, lo: bv8, hi: bv8)
    ensures Crc(data) == Word(lo, hi) <==> Passes(data + [lo, hi])
  {
    var w := Word(lo, hi);
    RegisterIsBits(0xFFFF, data);
    RegisterIsBits(0xFFFF, data + [lo, hi]);
    BitsOfTwo(data, lo, hi);
    G.Concat(OPS, 0xFFFF, Bits(data), G.LowBits(OPS, w, 16));
    RegisterTakesWord(Crc(data), w);
  }

  /** An error goes undetected exactly when its pattern, fed into an empty register, leaves it empty:
      neither the message nor the initial value matters. */
  lemma UndetectedIffPatternClears(frame: seq<bv8>, received: seq<bv8>)
    requires Passes(frame) && |received| == |frame|
    ensures Passes(received) <==> G.FeedBits(OPS, 0, G.Diff(Bits(frame), Bits(received))) == 0
  {
    Lawful();
    RegisterIsBits(0xFFFF, frame);
    RegisterIsBits(0xFFFF, received);
    G.DifferenceFeeds(OPS, 0xFFFF, 0xFFFF, Bits(frame), Bits(received));
    assert G.Cancels(OPS, 0xFFFF);
    assert G.Cancels(OPS, Crc(received));
  }

  /** Every error burst of up to sixteen consecutive bits is detected, wherever it starts. */
  lemma BurstIsCaught(frame: seq<bv8>, received: seq<bv8>, from: nat)
    requires Passes(frame) && |received| == |frame| && Bits(received) != Bits(frame)
    requires forall i | 0 <= i < 8 * |frame| && !(from <= i < from + 16) :: Bits(received)[i] == Bits(frame)[i]
    ensures !Passes(received)
  {
    Lawful();
    G.BurstDifference(OPS, Bits(frame), Bits(received), from);
    UndetectedIffPatternClears(frame, received);
  }

  /** Every error that flips an odd number of bits is detected. */
  lemma OddErrorIsCaught(frame: seq<bv8>, received: seq<bv8>)
    requires Passes(frame) && |received| == |frame|
    requires G.Ones(G.Diff(Bits(frame), Bits(received))) % 2 == 1
    ensures !Passes(received)
  {
    Lawful();
    G.OddErrorLeavesMark(OPS, G.Diff(Bits(frame), Bits(received)));
    UndetectedIffPatternClears(frame, received);
  }

  // ---------------------------------------------------------------- errors counted in bytes

  lemma SameByte(x: bv8, y: bv8)
    requires x as bv16 == y as bv16
    ensures x == y
  {
  }

  lemma BytesTell(x: bv8, y: bv8)
    requires ByteBits(x) == ByteBits(y)
    ensures x == y
  {
    ByteFits(x);
    ByteFits(y);
    Lawful();
    G.LowBitsTell(OPS, x as bv16, y as bv16, 8);
    SameByte(x, y);
  }

  lemma BitsTell(a: seq<bv8>, b: seq<bv8>)
    requires |a| == |b| && Bits(a) == Bits(b)
    ensures a == b
  {
    F.FlatTells(ByteBits, a, b);
    forall k | 0 <= k < |a| ensures a[k] == b[k] {
      BytesTell(a[k], b[k]);
    }
  }

  /** Any change confined to two adjacent bytes of an accepted frame, CRC bytes included, is detected. */
  lemma AdjacentBytesAreCaught(frame: seq<bv8>, received: seq<bv8>, at: nat)
    requires Passes(frame) && |received| == |frame| && received != frame
    requires forall k | 0 <= k < |frame| && k != at && k != at + 1 :: received[k] == frame[k]
    ensures !Passes(received)
  {
    if Bits(received) == Bits(frame) {
      BitsTell(received, frame);
      assert false;
    }
    forall i | 0 <= i < 8 * |frame| && !(8 * at <= i < 8 * at + 16)
      ensures Bits(received)[i] == Bits(frame)[i]
    {
      F.SameElementSameBit(ByteBits, received, frame, i);
    }
    BurstIsCaught(frame, received, 8 * at);
  }
}
