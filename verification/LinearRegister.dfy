/** Error detection by a sixteen-bit linear feedback shift register over GF(2), for any representation of
    the register that satisfies the laws below. The laws are named predicates, so that a proof instantiates
    exactly the ones it uses. Module ModbusCrc supplies uint16_t and the generator of CRC16-Modbus. */
module LinearRegister {

  datatype Ops<!R> = Ops(
    add: (R, R) -> R,    // sum over GF(2)
    half: R -> R,        // shift towards the low end
    odd: R -> bool,      // the low bit
    zero: R, one: R,
    poly: R)             // what is fed back

  function Bit<R>(o: Ops<R>, b: bool): R {
    if b then o.one else o.zero
  }

  /** One turn of the register. */
  function Turn<R>(o: Ops<R>, c: R): R {
    if o.odd(c) then o.add(o.half(c), o.poly) else o.half(c)
  }

  function Turns<R>(o: Ops<R>, c: R, n: nat): R
    decreases n
  {
    if n == 0 then c else Turns(o, Turn(o, c), n - 1)
  }

  function FeedBits<R>(o: Ops<R>, c: R, bits: seq<bool>): R
    decreases |bits|
  {
    if bits == [] then c
    else Turn(o, o.add(FeedBits(o, c, bits[..|bits| - 1]), Bit(o, bits[|bits| - 1])))
  }

  /** The n low bits of x, least significant first. */
  function LowBits<R>(o: Ops<R>, x: R, n: nat): (bits: seq<bool>)
    ensures |bits| == n
    decreases n
  {
    if n == 0 then [] else [o.odd(x)] + LowBits(o, o.half(x), n - 1)
  }

  /** x has at most n bits. */
  ghost predicate Fits<R>(o: Ops<R>, x: R, n: nat)
    decreases n
  {
    if n == 0 then x == o.zero else Fits(o, o.half(x), n - 1)
  }

  /** Whether the number of ones among the n low bits of x is odd. */
  function Parity<R>(o: Ops<R>, x: R, n: nat): bool
    decreases n
  {
    if n == 0 then false else o.odd(x) != Parity(o, o.half(x), n - 1)
  }

  // ---------------------------------------------------------------- the laws

  ghost predicate Medial<R>(o: Ops<R>, a: R, b: R, c: R, d: R) {
    o.add(o.add(a, b), o.add(c, d)) == o.add(o.add(a, c), o.add(b, d))
  }

  ghost predicate Associative<R>(o: Ops<R>, a: R, b: R, c: R) {
    o.add(o.add(a, b), c) == o.add(a, o.add(b, c))
  }

  ghost predicate Commutative<R>(o: Ops<R>, a: R, b: R) {
    o.add(a, b) == o.add(b, a)
  }

  lemma MedialFollows<R(!new)>(o: Ops<R>, a: R, b: R, c: R, d: R)
    requires forall x, y, z :: Associative(o, x, y, z)
    requires forall x, y :: Commutative(o, x, y)
    ensures Medial(o, a, b, c, d)
  {
    assert Associative(o, a, b, o.add(c, d)) && Associative(o, b, c, d) && Commutative(o, b, c);
    assert Associative(o, c, b, d) && Associative(o, a, c, o.add(b, d));
  }

  ghost predicate Cancels<R>(o: Ops<R>, a: R) {
    o.add(a, o.zero) == a && o.add(o.zero, a) == a && o.add(a, a) == o.zero
  }

  ghost predicate Bitwise<R>(o: Ops<R>, a: R, b: R) {
    o.half(o.add(a, b)) == o.add(o.half(a), o.half(b)) && o.odd(o.add(a, b)) == (o.odd(a) != o.odd(b))
  }

  ghost predicate Sixteen<R>(o: Ops<R>, a: R) {
    && Fits(o, a, 16)
    && (o.half(a) == o.zero && !o.odd(a) ==> a == o.zero)
    && !Fits(o, o.add(o.half(a), o.poly), 15)   // feeding back sets the top bit
  }

  ghost predicate Constants<R>(o: Ops<R>) {
    && o.half(o.zero) == o.zero && !o.odd(o.zero)
    && o.half(o.one) == o.zero && o.odd(o.one)
    && Parity(o, o.poly, 16)                    // the generator is divisible by x + 1
  }

  ghost predicate Lawful<R(!new)>(o: Ops<R>) {
    && Constants(o)
    && (forall a, b, c, d :: Medial(o, a, b, c, d))
    && (forall a :: Cancels(o, a))
    && (forall a, b :: Bitwise(o, a, b))
    && (forall a :: Sixteen(o, a))
  }

  // ---------------------------------------------------------------- one turn

  lemma BitSum<R(!new)>(o: Ops<R>, a: bool, b: bool)
    requires Lawful(o)
    ensures o.add(Bit(o, a), Bit(o, b)) == Bit(o, a != b)
  {
    assert Cancels(o, o.zero) && Cancels(o, o.one);
  }

  lemma TurnLinear<R(!new)>(o: Ops<R>, a: R, b: R)
    requires Lawful(o)
    ensures Turn(o, o.add(a, b)) == o.add(Turn(o, a), Turn(o, b))
  {
    var p := if o.odd(a) then o.poly else o.zero;
    var q := if o.odd(b) then o.poly else o.zero;
    assert Cancels(o, o.poly) && Cancels(o, o.zero) && Cancels(o, o.half(a)) && Cancels(o, o.half(b));
    assert Bitwise(o, a, b) && Medial(o, o.half(a), p, o.half(b), q) && Cancels(o, o.add(o.half(a), o.half(b)));
  }

  lemma TurnFaithful<R(!new)>(o: Ops<R>, a: R)
    requires Lawful(o)
    ensures Turn(o, a) == o.zero <==> a == o.zero
  {
    assert Sixteen(o, a);
    FitsMore(o, o.zero, 0, 15);
  }

  lemma {:induction false} FitsMore<R(!new)>(o: Ops<R>, x: R, n: nat, m: nat)
    requires Lawful(o) && Fits(o, x, n) && n <= m
    ensures Fits(o, x, m)
    decreases m
  {
    if m > 0 {
      if n == 0 { FitsMore(o, x, 0, m - 1); } else { FitsMore(o, o.half(x), n - 1, m - 1); }
    }
  }

  lemma LowBit<R(!new)>(o: Ops<R>, c: R, b: bool)
    requires Lawful(o)
    ensures o.half(o.add(c, Bit(o, b))) == o.half(c) && o.odd(o.add(c, Bit(o, b))) == (o.odd(c) != b)
  {
    assert Bitwise(o, c, Bit(o, b)) && Cancels(o, o.half(c));
  }

  /** Adding a number at once is adding its low bit now and the rest after the turn. */
  lemma TurnSplits<R(!new)>(o: Ops<R>, c: R, x: R)
    requires Lawful(o)
    ensures Turn(o, o.add(c, x)) == o.add(Turn(o, o.add(c, Bit(o, o.odd(x)))), o.half(x))
  {
    LowBit(o, c, o.odd(x));
    assert Bitwise(o, c, x) && Medial(o, o.half(c), o.half(x), o.poly, o.zero);
    assert Cancels(o, o.poly) && Cancels(o, o.half(x)) && Medial(o, o.half(c), o.poly, o.half(x), o.zero);
  }

  lemma {:induction false} Concat<R(!new)>(o: Ops<R>, c: R, a: seq<bool>, b: seq<bool>)
    ensures FeedBits(o, c, a + b) == FeedBits(o, FeedBits(o, c, a), b)
    decreases |b|
  {
    if b == [] {
      assert a + b == a;
    } else {
      var n := |b| - 1;
      assert (a + b)[..|a| + n] == a + b[..n];
      Concat(o, c, a, b[..n]);
    }
  }

  lemma First<R(!new)>(o: Ops<R>, c: R, bits: seq<bool>)
    requires bits != []
    ensures FeedBits(o, c, bits) == FeedBits(o, Turn(o, o.add(c, Bit(o, bits[0]))), bits[1..])
  {
    assert bits == bits[..1] + bits[1..];
    Concat(o, c, bits[..1], bits[1..]);
    assert bits[..1] == [bits[0]] && [bits[0]][..0] == [];
    assert FeedBits(o, c, []) == c;
  }

  /** Feeding a whole number at once is feeding its bits. */
  lemma {:induction false} TurnsAreBits<R(!new)>(o: Ops<R>, c: R, x: R, n: nat)
    requires Lawful(o) && Fits(o, x, n)
    ensures Turns(o, o.add(c, x), n) == FeedBits(o, c, LowBits(o, x, n))
    decreases n
  {
    if n == 0 {
      assert Cancels(o, c);
    } else {
      TurnSplits(o, c, x);
      TurnsAreBits(o, Turn(o, o.add(c, Bit(o, o.odd(x)))), o.half(x), n - 1);
      First(o, c, LowBits(o, x, n));
      assert LowBits(o, x, n)[1..] == LowBits(o, o.half(x), n - 1);
    }
  }

  lemma {:induction false} TurnsLinear<R(!new)>(o: Ops<R>, a: R, b: R, n: nat)
    requires Lawful(o)
    ensures Turns(o, o.add(a, b), n) == o.add(Turns(o, a, n), Turns(o, b, n))
    decreases n
  {
    if n > 0 {
      TurnLinear(o, a, b);
      TurnsLinear(o, Turn(o, a), Turn(o, b), n - 1);
    }
  }

  lemma {:induction false} TurnsFaithful<R(!new)>(o: Ops<R>, c: R, n: nat)
    requires Lawful(o)
    ensures Turns(o, c, n) == o.zero <==> c == o.zero
    decreases n
  {
    if n > 0 {
      TurnFaithful(o, c);
      TurnsFaithful(o, Turn(o, c), n - 1);
    }
  }

  /** Two registers that sum to nothing are the same. */
  lemma NoDifference<R(!new)>(o: Ops<R>, x: R, y: R)
    requires Lawful(o) && o.add(x, y) == o.zero
    ensures x == y
  {
    assert Medial(o, x, o.zero, x, y) && Cancels(o, x) && Cancels(o, y);
  }

  lemma HalfAndLowBit<R(!new)>(o: Ops<R>, x: R, y: R)
    requires Lawful(o) && o.half(x) == o.half(y) && o.odd(x) == o.odd(y)
    ensures x == y
  {
    assert Bitwise(o, x, y) && Cancels(o, o.half(x)) && Sixteen(o, o.add(x, y));
    NoDifference(o, x, y);
  }

  /** The bits that a number has tell which number it is. */
  lemma {:induction false} LowBitsTell<R(!new)>(o: Ops<R>, x: R, y: R, n: nat)
    requires Lawful(o) && Fits(o, x, n) && Fits(o, y, n) && LowBits(o, x, n) == LowBits(o, y, n)
    ensures x == y
    decreases n
  {
    if n > 0 {
      var s, t := LowBits(o, x, n), LowBits(o, y, n);
      assert s[0] == t[0] && s[1..] == LowBits(o, o.half(x), n - 1) && t[1..] == LowBits(o, o.half(y), n - 1);
      LowBitsTell(o, o.half(x), o.half(y), n - 1);
      HalfAndLowBit(o, x, y);
    }
  }

  // ---------------------------------------------------------------- differences

  /** The positions where two equally long bit strings differ. */
  function Diff(a: seq<bool>, b: seq<bool>): (d: seq<bool>)
    requires |a| == |b|
    ensures |d| == |a|
    ensures forall i | 0 <= i < |a| :: d[i] == (a[i] != b[i])
  {
    seq(|a|, i requires 0 <= i < |a| => a[i] != b[i])
  }

  /** The sum of two registers is the register of the difference. */
  lemma {:induction false} DifferenceFeeds<R(!new)>(o: Ops<R>, c: R, d: R, a: seq<bool>, b: seq<bool>)
    requires Lawful(o) && |a| == |b|
    ensures o.add(FeedBits(o, c, a), FeedBits(o, d, b)) == FeedBits(o, o.add(c, d), Diff(a, b))
    decreases |a|
  {
    if a != [] {
      var n := |a| - 1;
      DifferenceFeeds(o, c, d, a[..n], b[..n]);
      assert Diff(a, b)[..n] == Diff(a[..n], b[..n]);
      var x, y := FeedBits(o, c, a[..n]), FeedBits(o, d, b[..n]);
      TurnLinear(o, o.add(x, Bit(o, a[n])), o.add(y, Bit(o, b[n])));
      assert Medial(o, x, Bit(o, a[n]), y, Bit(o, b[n]));
      BitSum(o, a[n], b[n]);
    }
  }

  lemma {:induction false} ZerosFaithful<R(!new)>(o: Ops<R>, c: R, bits: seq<bool>)
    requires Lawful(o) && forall k | 0 <= k < |bits| :: !bits[k]
    ensures FeedBits(o, c, bits) == o.zero <==> c == o.zero
    decreases |bits|
  {
    if bits != [] {
      var x := FeedBits(o, c, bits[..|bits| - 1]);
      ZerosFaithful(o, c, bits[..|bits| - 1]);
      assert Cancels(o, x);
      TurnFaithful(o, x);
    }
  }

  // ---------------------------------------------------------------- bursts

  /** A register that at most sixteen bits bring to zero held just those bits. */
  lemma {:induction false} BitsThatClear<R(!new)>(o: Ops<R>, c: R, bits: seq<bool>)
    requires Lawful(o) && |bits| <= 16 && FeedBits(o, c, bits) == o.zero
    ensures Fits(o, c, |bits|)
    ensures c == o.zero ==> forall k | 0 <= k < |bits| :: !bits[k]
    decreases |bits|
  {
    if bits != [] {
      var y := o.add(c, Bit(o, bits[0]));
      First(o, c, bits);
      BitsThatClear(o, Turn(o, y), bits[1..]);
      FitsMore(o, Turn(o, y), |bits| - 1, 15);
      assert Sixteen(o, y);
      LowBit(o, c, bits[0]);
      if c == o.zero {
        assert !bits[0];
        assert Cancels(o, c);
        forall k | 0 <= k < |bits| ensures !bits[k] {
          if k > 0 { assert bits[k] == bits[1..][k - 1]; }
        }
      }
    }
  }

  /** An error burst of up to sixteen bits leaves a mark on an empty register. */
  lemma BurstLeavesMark<R(!new)>(o: Ops<R>, d: seq<bool>, from: nat, k: nat)
    requires Lawful(o) && from <= k < from + 16 && k < |d| && d[k]
    requires forall i | 0 <= i < |d| && !(from <= i < from + 16) :: !d[i]
    ensures FeedBits(o, o.zero, d) != o.zero
  {
    var to := if from + 16 <= |d| then from + 16 else |d|;
    assert d == d[..from] + (d[from..to] + d[to..]);
    Concat(o, o.zero, d[..from], d[from..to] + d[to..]);
    Concat(o, o.zero, d[from..to], d[to..]);
    ZerosFaithful(o, o.zero, d[..from]);
    ZerosFaithful(o, FeedBits(o, o.zero, d[from..to]), d[to..]);
    assert d[from..to][k - from];
    if FeedBits(o, o.zero, d[from..to]) == o.zero {
      BitsThatClear(o, o.zero, d[from..to]);
    }
  }

  lemma BurstDifference<R(!new)>(o: Ops<R>, a: seq<bool>, b: seq<bool>, from: nat)
    requires Lawful(o) && |a| == |b| && a != b
    requires forall i | 0 <= i < |a| && !(from <= i < from + 16) :: b[i] == a[i]
    ensures FeedBits(o, o.zero, Diff(a, b)) != o.zero
  {
    var k :| 0 <= k < |a| && a[k] != b[k];
    BurstLeavesMark(o, Diff(a, b), from, k);
  }

  // ---------------------------------------------------------------- parity

  function Ones(bits: seq<bool>): nat {
    if bits == [] then 0 else Ones(bits[..|bits| - 1]) + if bits[|bits| - 1] then 1 else 0
  }

  lemma {:induction false} ParityLinear<R(!new)>(o: Ops<R>, a: R, b: R, n: nat)
    requires Lawful(o)
    ensures Parity(o, o.add(a, b), n) == (Parity(o, a, n) != Parity(o, b, n))
    decreases n
  {
    if n > 0 {
      assert Bitwise(o, a, b);
      ParityLinear(o, o.half(a), o.half(b), n - 1);
    }
  }

  lemma {:induction false} ParityOfFew<R(!new)>(o: Ops<R>, x: R, n: nat)
    requires Lawful(o) && Fits(o, x, n)
    ensures Parity(o, x, n + 1) == Parity(o, x, n)
    decreases n
  {
    if n == 0 {
      assert Parity(o, o.half(x), 0) == false;
    } else {
      ParityOfFew(o, o.half(x), n - 1);
    }
  }

  lemma {:induction false} ParityOfBit<R(!new)>(o: Ops<R>, b: bool, n: nat)
    requires Lawful(o)
    ensures n > 0 ==> Parity(o, Bit(o, b), n) == b
    decreases n
  {
    if n > 1 {
      ParityOfBit(o, false, n - 1);
    }
  }

  /** A turn keeps the parity of the register. */
  lemma TurnKeepsParity<R(!new)>(o: Ops<R>, a: R)
    requires Lawful(o)
    ensures Parity(o, Turn(o, a), 16) == Parity(o, a, 16)
  {
    assert Sixteen(o, a);
    ParityOfFew(o, o.half(a), 15);
    ParityLinear(o, o.half(a), o.poly, 16);
  }

  lemma FeedingFlipsParity<R(!new)>(o: Ops<R>, x: R, b: bool, width: nat)
    requires Lawful(o) && width == 16
    ensures Parity(o, Turn(o, o.add(x, Bit(o, b))), width) == (Parity(o, x, width) != b)
  {
    TurnKeepsParity(o, o.add(x, Bit(o, b)));
    ParityLinear(o, x, Bit(o, b), width);
    ParityOfBit(o, b, width);
  }

  lemma OneMore(bits: seq<bool>)
    requires bits != []
    ensures Ones(bits) % 2 == 1 <==> (Ones(bits[..|bits| - 1]) % 2 == 1) != bits[|bits| - 1]
  {
    Flip(Ones(bits[..|bits| - 1]));
  }

  lemma Flip(n: nat)
    ensures (n + 1) % 2 == 1 <==> n % 2 != 1
  {
  }

  lemma {:induction false} ParityCountsBits<R(!new)>(o: Ops<R>, bits: seq<bool>, width: nat)
    requires Lawful(o) && width == 16
    ensures Parity(o, FeedBits(o, o.zero, bits), width) <==> Ones(bits) % 2 == 1
    decreases |bits|
  {
    if bits == [] {
      ParityOfBit(o, false, width);
    } else {
      var n := |bits| - 1;
      ParityCountsBits(o, bits[..n], width);
      FeedingFlipsParity(o, FeedBits(o, o.zero, bits[..n]), bits[n], width);
      OneMore(bits);
    }
  }

  /** An odd number of flipped bits leaves a mark on an empty register. */
  lemma OddErrorLeavesMark<R(!new)>(o: Ops<R>, d: seq<bool>)
    requires Lawful(o) && Ones(d) % 2 == 1
    ensures FeedBits(o, o.zero, d) != o.zero
  {
    ParityCountsBits(o, d, 16);
    ParityOfBit(o, false, 16);
  }
}
