/** The binary digits of words, for any type of words that can be halved and told odd from even. Functions on
    words are described by what they do to digit i; module Sha256Functions supplies uint32_t. */
module Bits {

  const WIDTH := 32

  datatype Halving<!W> = Halving(half: W -> W, odd: W -> bool)

  /** Digit i of w, the lowest being digit 0. */
  predicate Bit<W>(o: Halving<W>, w: W, i: nat)
    decreases i
  {
    if i == 0 then o.odd(w) else Bit(o, o.half(w), i - 1)
  }

  // ---------------------------------------------------------------- digit by digit

  /** f works on each digit by itself, as g does. */
  ghost predicate Digitwise<W>(o: Halving<W>, f: (W, W, W) -> W, g: (bool, bool, bool) -> bool, a: W, b: W, c: W) {
    && o.half(f(a, b, c)) == f(o.half(a), o.half(b), o.half(c))
    && o.odd(f(a, b, c)) == g(o.odd(a), o.odd(b), o.odd(c))
  }

  lemma {:induction false} DigitwiseBits<W(!new)>(
      o: Halving<W>, f: (W, W, W) -> W, g: (bool, bool, bool) -> bool, a: W, b: W, c: W, i: nat)
    requires forall x, y, z :: Digitwise(o, f, g, x, y, z)
    ensures Bit(o, f(a, b, c), i) == g(Bit(o, a, i), Bit(o, b, i), Bit(o, c, i))
    decreases i
  {
    assert Digitwise(o, f, g, a, b, c);
    if i > 0 {
      DigitwiseBits(o, f, g, o.half(a), o.half(b), o.half(c), i - 1);
    }
  }

  // ---------------------------------------------------------------- another form of the same words

  ghost predicate Mirrors<V, W>(o: Halving<V>, p: Halving<W>, f: V -> W, x: V) {
    p.half(f(x)) == f(o.half(x)) && p.odd(f(x)) == o.odd(x)
  }

  lemma {:induction false} MirrorsBits<V(!new), W>(o: Halving<V>, p: Halving<W>, f: V -> W, x: V, i: nat)
    requires forall y :: Mirrors(o, p, f, y)
    ensures Bit(p, f(x), i) == Bit(o, x, i)
    decreases i
  {
    assert Mirrors(o, p, f, x);
    if i > 0 {
      MirrorsBits(o, p, f, o.half(x), i - 1);
    }
  }

  // ---------------------------------------------------------------- shifts

  /** h is f and then g. */
  ghost predicate Composed<W>(f: W -> W, g: W -> W, h: W -> W, w: W) {
    h(w) == g(f(w))
  }

  /** f moves every digit down by n. */
  ghost predicate Shifts<W(!new)>(o: Halving<W>, f: W -> W, n: nat) {
    forall w, i: nat :: Bit(o, f(w), i) == Bit(o, w, i + n)
  }

  lemma ShiftByOne<W(!new)>(o: Halving<W>, f: W -> W)
    requires forall w :: f(w) == o.half(w)
    ensures Shifts(o, f, 1)
  {
    forall w, i: nat ensures Bit(o, f(w), i) == Bit(o, w, i + 1) {
      assert f(w) == o.half(w);
    }
  }

  lemma ShiftTwice<W(!new)>(o: Halving<W>, f: W -> W, m: nat, g: W -> W, n: nat, h: W -> W)
    requires Shifts(o, f, m) && Shifts(o, g, n) && forall w :: Composed(f, g, h, w)
    ensures Shifts(o, h, m + n)
  {
    forall w, i: nat ensures Bit(o, h(w), i) == Bit(o, w, i + (m + n)) {
      assert Composed(f, g, h, w);
      assert Bit(o, g(f(w)), i) == Bit(o, f(w), i + n) == Bit(o, w, i + n + m);
    }
  }

  ghost predicate Blank<W>(o: Halving<W>, zero: W) {
    o.half(zero) == zero && !o.odd(zero)
  }

  lemma {:induction false} BlankBits<W>(o: Halving<W>, zero: W, i: nat)
    requires Blank(o, zero)
    ensures !Bit(o, zero, i)
    decreases i
  {
    if i > 0 { BlankBits(o, zero, i - 1); }
  }

  // ---------------------------------------------------------------- rotations

  /** f moves every digit down by n, and those that leave come in at the top. */
  ghost predicate Rotates<W(!new)>(o: Halving<W>, f: W -> W, n: nat) {
    forall w, i: nat :: i < WIDTH ==> Bit(o, f(w), i) == Bit(o, w, (i + n) % WIDTH)
  }

  lemma Around(i: nat, m: nat, n: nat)
    ensures ((i + n) % WIDTH + m) % WIDTH == (i + (m + n)) % WIDTH
  {
    var q := (i + n) / WIDTH;
    assert (i + n) % WIDTH + m == i + (m + n) - q * WIDTH;
    Multiples((i + n) % WIDTH + m, q);
  }

  lemma {:induction false} Multiples(x: nat, q: nat)
    ensures (x + q * WIDTH) % WIDTH == x % WIDTH
    decreases q
  {
    if q > 0 { Multiples(x, q - 1); }
  }

  lemma RotatedTwice<W(!new)>(o: Halving<W>, f: W -> W, m: nat, g: W -> W, n: nat, w: W, i: nat)
    requires Rotates(o, f, m) && Rotates(o, g, n) && i < WIDTH
    ensures Bit(o, g(f(w)), i) == Bit(o, w, ((i + n) % WIDTH + m) % WIDTH)
  {
    var j := (i + n) % WIDTH;
    assert Bit(o, g(f(w)), i) == Bit(o, f(w), j);
  }

  lemma RotateTwice<W(!new)>(o: Halving<W>, f: W -> W, m: nat, g: W -> W, n: nat, h: W -> W)
    requires Rotates(o, f, m) && Rotates(o, g, n) && forall w :: Composed(f, g, h, w)
    ensures Rotates(o, h, m + n)
  {
    forall w, i: nat | i < WIDTH ensures Bit(o, h(w), i) == Bit(o, w, (i + (m + n)) % WIDTH) {
      assert Composed(f, g, h, w);
      Around(i, m, n);
      RotatedTwice(o, f, m, g, n, w, i);
    }
  }

  /** w is two to the power n. */
  predicate OneDigit<W(==)>(o: Halving<W>, zero: W, w: W, n: nat)
    decreases n
  {
    if n == 0 then o.odd(w) && o.half(w) == zero else !o.odd(w) && OneDigit(o, zero, o.half(w), n - 1)
  }

  lemma {:induction false} OneDigitBits<W>(o: Halving<W>, zero: W, w: W, n: nat, i: nat)
    requires Blank(o, zero) && OneDigit(o, zero, w, n)
    ensures Bit(o, w, i) <==> i == n
    decreases n
  {
    if n > 0 && i > 0 {
      OneDigitBits(o, zero, o.half(w), n - 1, i - 1);
    } else if i > 0 {
      BlankBits(o, zero, i - 1);
    }
  }

  /** One turn of a word without digits from WIDTH on, given what it is made of: the halved word, and the digit
      that leaves, at the top. */
  ghost predicate TurnsOnce<W>(o: Halving<W>, xor: (W, W, W) -> W, zero: W, top: W, f: W -> W, w: W) {
    f(w) == xor(o.half(w), if o.odd(w) then top else zero, zero)
  }

  lemma RotateOnce<W(!new)>(
      o: Halving<W>, xor: (W, W, W) -> W, g: (bool, bool, bool) -> bool, zero: W, top: W, f: W -> W)
    requires forall x, y, z :: Digitwise(o, xor, g, x, y, z)
    requires forall a, b, c :: g(a, b, c) == ((a != b) != c)
    requires Blank(o, zero) && OneDigit(o, zero, top, WIDTH - 1)
    requires forall w :: TurnsOnce(o, xor, zero, top, f, w)
    requires forall w :: !Bit(o, w, WIDTH)
    ensures Rotates(o, f, 1)
  {
    forall w, i: nat | i < WIDTH ensures Bit(o, f(w), i) == Bit(o, w, (i + 1) % WIDTH) {
      assert TurnsOnce(o, xor, zero, top, f, w);
      DigitwiseBits(o, xor, g, o.half(w), if o.odd(w) then top else zero, zero, i);
      BlankBits(o, zero, i);
      OneDigitBits(o, zero, top, WIDTH - 1, i);
      assert !Bit(o, w, WIDTH);
    }
  }

  // ---------------------------------------------------------------- the sum of three moved words

  ghost predicate Adds<W>(xor: (W, W, W) -> W, p: W -> W, q: W -> W, r: W -> W, f: W -> W, w: W) {
    f(w) == xor(p(w), q(w), r(w))
  }

  lemma ThreeRotations<W(!new)>(
      o: Halving<W>, xor: (W, W, W) -> W, g: (bool, bool, bool) -> bool,
      p: W -> W, l: nat, q: W -> W, m: nat, r: W -> W, n: nat, f: W -> W, w: W, i: nat)
    requires forall x, y, z :: Digitwise(o, xor, g, x, y, z)
    requires Rotates(o, p, l) && Rotates(o, q, m) && Rotates(o, r, n) && Adds(xor, p, q, r, f, w) && i < WIDTH
    ensures Bit(o, f(w), i) == g(Bit(o, w, (i + l) % WIDTH), Bit(o, w, (i + m) % WIDTH), Bit(o, w, (i + n) % WIDTH))
  {
    DigitwiseBits(o, xor, g, p(w), q(w), r(w), i);
  }

  lemma TwoRotationsAndShift<W(!new)>(
      o: Halving<W>, xor: (W, W, W) -> W, g: (bool, bool, bool) -> bool,
      p: W -> W, l: nat, q: W -> W, m: nat, r: W -> W, n: nat, f: W -> W, w: W, i: nat)
    requires forall x, y, z :: Digitwise(o, xor, g, x, y, z)
    requires Rotates(o, p, l) && Rotates(o, q, m) && Shifts(o, r, n) && Adds(xor, p, q, r, f, w) && i < WIDTH
    ensures Bit(o, f(w), i) == g(Bit(o, w, (i + l) % WIDTH), Bit(o, w, (i + m) % WIDTH), Bit(o, w, i + n))
  {
    DigitwiseBits(o, xor, g, p(w), q(w), r(w), i);
  }
}
