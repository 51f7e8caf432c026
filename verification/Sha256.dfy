/** SHA-256 (FIPS 180-4), over any type of words; module Sha256Words supplies uint32_t. A word type enters
    only through the functions and constants of Ops, so the proofs about padding, blocks and the order of
    the computation never look inside a word. */
module Sha256 {

  newtype Byte = x: int | 0 <= x < 0x100

  type Block = s: seq<Byte> | |s| == 64 witness seq(64, _ => 0)

  /** Eight words: the hash value, and the working variables. */
  datatype Eight<W> = Eight(a: W, b: W, c: W, d: W, e: W, f: W, g: W, h: W)

  /** The functions of section 4.1.2, addition, and the constants of sections 4.2.2 and 5.3.3. */
  datatype Ops<!W> = Ops(
    word: (Byte, Byte, Byte, Byte) -> W,   // four bytes, most significant first
    add: (W, W) -> W,
    ch: (W, W, W) -> W, maj: (W, W, W) -> W,
    big0: W -> W, big1: W -> W, small0: W -> W, small1: W -> W,
    k: nat -> W, initial: Eight<W>)

  function Add4<W>(o: Ops<W>, a: W, b: W, c: W, d: W): W {
    o.add(o.add(o.add(a, b), c), d)
  }

  /** The order of a sum of four words does not matter. */
  ghost predicate Reorders<W>(o: Ops<W>, a: W, b: W, c: W, d: W) {
    Add4(o, a, b, c, d) == Add4(o, d, c, b, a)
  }

  ghost predicate Associates<W>(o: Ops<W>, a: W, b: W, c: W) {
    o.add(o.add(a, b), c) == o.add(a, o.add(b, c))
  }

  ghost predicate Commutes<W>(o: Ops<W>, a: W, b: W) {
    o.add(a, b) == o.add(b, a)
  }

  /** The only laws needed. */
  ghost predicate Sums<W(!new)>(o: Ops<W>) {
    (forall a, b, c :: Associates(o, a, b, c)) && (forall a, b :: Commutes(o, a, b))
  }

  lemma ReordersFollows<W(!new)>(o: Ops<W>, a: W, b: W, c: W, d: W)
    requires Sums(o)
    ensures Reorders(o, a, b, c, d)
  {
    assert Associates(o, d, c, o.add(b, a)) && Associates(o, o.add(d, c), b, a);
    assert Commutes(o, o.add(d, c), o.add(b, a)) && Commutes(o, b, a) && Commutes(o, c, d);
    assert Associates(o, o.add(a, b), c, d);
  }

  // ---------------------------------------------------------------- section 6.2.2

  /** Step 1: the message schedule. */
  function Schedule<W>(o: Ops<W>, m: Block, t: nat): W {
    if t < 16 then o.word(m[4 * t], m[4 * t + 1], m[4 * t + 2], m[4 * t + 3])
    else Add4(o, o.small1(Schedule(o, m, t - 2)), Schedule(o, m, t - 7),
              o.small0(Schedule(o, m, t - 15)), Schedule(o, m, t - 16))
  }

  /** Step 3, once. */
  function Round<W>(o: Ops<W>, r: Eight<W>, k: W, w: W): Eight<W> {
    var t1 := o.add(Add4(o, r.h, o.big1(r.e), o.ch(r.e, r.f, r.g), k), w);
    var t2 := o.add(o.big0(r.a), o.maj(r.a, r.b, r.c));
    Eight(o.add(t1, t2), r.a, r.b, r.c, o.add(r.d, t1), r.e, r.f, r.g)
  }

  function Rounds<W>(o: Ops<W>, r: Eight<W>, m: Block, t: nat): Eight<W> {
    if t == 0 then r else Round(o, Rounds(o, r, m, t - 1), o.k(t - 1), Schedule(o, m, t - 1))
  }

  /** Step 4. */
  function Sum<W>(o: Ops<W>, x: Eight<W>, y: Eight<W>): Eight<W> {
    Eight(o.add(x.a, y.a), o.add(x.b, y.b), o.add(x.c, y.c), o.add(x.d, y.d),
          o.add(x.e, y.e), o.add(x.f, y.f), o.add(x.g, y.g), o.add(x.h, y.h))
  }

  function Compress<W>(o: Ops<W>, h: Eight<W>, m: Block): Eight<W> {
    Sum(o, h, Rounds(o, h, m, 64))
  }

  /** Section 5.2.1 and the outer loop of section 6.2.2: the blocks of a padded message, in order. */
  function HashBlocks<W>(o: Ops<W>, h: Eight<W>, s: seq<Byte>): Eight<W>
    requires |s| % 64 == 0
    decreases |s|
  {
    if s == [] then h else HashBlocks(o, Compress(o, h, s[..64]), s[64..])
  }

  // ---------------------------------------------------------------- the same by moving windows

  /** Sixteen words of the schedule, from word t on, as a window that moves by one. */
  function Window<W>(o: Ops<W>, m: Block, t: nat): (s: seq<W>)
    ensures |s| == 16
  {
    if t == 0 then seq(16, j requires 0 <= j < 16 => o.word(m[4 * j], m[4 * j + 1], m[4 * j + 2], m[4 * j + 3]))
    else
      var s := Window(o, m, t - 1);
      s[1..] + [Add4(o, o.small1(s[14]), s[9], o.small0(s[1]), s[0])]
  }

  ghost predicate Shows<W>(o: Ops<W>, m: Block, t: nat, j: nat) {
    j < 16 && Window(o, m, t)[j] == Schedule(o, m, t + j)
  }

  lemma ShowsNext<W>(o: Ops<W>, m: Block, t: nat)
    requires t > 0 && Shows(o, m, t - 1, 14) && Shows(o, m, t - 1, 9) && Shows(o, m, t - 1, 1) && Shows(o, m, t - 1, 0)
    ensures Shows(o, m, t, 15)
  {
  }

  lemma {:induction false} WindowIsSchedule<W>(o: Ops<W>, m: Block, t: nat, j: nat)
    requires j < 16
    ensures Shows(o, m, t, j)
    decreases t
  {
    if t > 0 && j < 15 {
      WindowIsSchedule(o, m, t - 1, j + 1);
      ShowsMoved(o, m, t, j);
    } else if t > 0 {
      WindowIsSchedule(o, m, t - 1, 14);
      WindowIsSchedule(o, m, t - 1, 9);
      WindowIsSchedule(o, m, t - 1, 1);
      WindowIsSchedule(o, m, t - 1, 0);
      ShowsNext(o, m, t);
    }
  }

  lemma ShowsMoved<W>(o: Ops<W>, m: Block, t: nat, j: nat)
    requires t > 0 && j < 15 && Shows(o, m, t - 1, j + 1)
    ensures Shows(o, m, t, j)
  {
    assert Window(o, m, t)[j] == Window(o, m, t - 1)[j + 1];
  }

  /** The two variables that a round computes; the other six are earlier ones. */
  datatype Computed<W> = Computed(a: W, e: W)

  /** The next pair from the last four, latest first. */
  function Next<W>(o: Ops<W>, s: seq<Computed<W>>, k: W, w: W): Computed<W>
    requires |s| >= 4
  {
    var t1 := o.add(Add4(o, s[3].e, o.big1(s[0].e), o.ch(s[0].e, s[1].e, s[2].e), k), w);
    var t2 := o.add(o.big0(s[0].a), o.maj(s[0].a, s[1].a, s[2].a));
    Computed(o.add(t1, t2), o.add(s[3].a, t1))
  }

  function LastFour<W>(s: seq<Computed<W>>): Eight<W>
    requires |s| >= 4
  {
    Eight(s[0].a, s[1].a, s[2].a, s[3].a, s[0].e, s[1].e, s[2].e, s[3].e)
  }

  /** All pairs so far, after the four that the hash value holds. */
  function Trail<W>(o: Ops<W>, r: Eight<W>, m: Block, t: nat): (s: seq<Computed<W>>)
    ensures |s| == t + 4
  {
    if t == 0 then [Computed(r.a, r.e), Computed(r.b, r.f), Computed(r.c, r.g), Computed(r.d, r.h)]
    else
      var s := Trail(o, r, m, t - 1);
      [Next(o, s, o.k(t - 1), Window(o, m, t - 1)[0])] + s
  }

  lemma RoundIsNext<W>(o: Ops<W>, s: seq<Computed<W>>, k: W, w: W)
    requires |s| >= 4
    ensures Round(o, LastFour(s), k, w) == LastFour([Next(o, s, k, w)] + s)
  {
    var n := [Next(o, s, k, w)] + s;
    assert n[0] == Next(o, s, k, w) && n[1] == s[0] && n[2] == s[1] && n[3] == s[2];
  }

  ghost predicate Ends<W>(x: Eight<W>, s: seq<Computed<W>>) {
    |s| >= 4 && x == LastFour(s)
  }

  lemma NextEnds<W>(o: Ops<W>, x: Eight<W>, s: seq<Computed<W>>, k: W, w: W)
    requires Ends(x, s)
    ensures Ends(Round(o, x, k, w), [Next(o, s, k, w)] + s)
  {
    RoundIsNext(o, s, k, w);
  }

  /** The rounds and the trail agree after t of them. */
  ghost predicate Agree<W>(o: Ops<W>, r: Eight<W>, m: Block, t: nat) {
    Ends(Rounds(o, r, m, t), Trail(o, r, m, t))
  }

  lemma OneMore<W>(o: Ops<W>, r: Eight<W>, m: Block, t: nat)
    requires t > 0 && Agree(o, r, m, t - 1)
    ensures Agree(o, r, m, t)
  {
    WindowIsSchedule(o, m, t - 1, 0);
    NextEnds(o, Rounds(o, r, m, t - 1), Trail(o, r, m, t - 1), o.k(t - 1), Schedule(o, m, t - 1));
  }

  lemma {:induction false} RoundsAreTrail<W>(o: Ops<W>, r: Eight<W>, m: Block, t: nat)
    ensures Agree(o, r, m, t)
    decreases t
  {
    if t > 0 {
      RoundsAreTrail(o, r, m, t - 1);
      OneMore(o, r, m, t);
    }
  }

  /** After 64 rounds the last four pairs are added to the hash value. */
  lemma CompressIsTrail<W>(o: Ops<W>, h: Eight<W>, m: Block)
    ensures var s := Trail(o, h, m, 64);
            Compress(o, h, m) == Eight(o.add(h.a, s[0].a), o.add(h.b, s[1].a), o.add(h.c, s[2].a), o.add(h.d, s[3].a),
                                       o.add(h.e, s[0].e), o.add(h.f, s[1].e), o.add(h.g, s[2].e), o.add(h.h, s[3].e))
  {
    RoundsAreTrail(o, h, m, 64);
  }

  // ---------------------------------------------------------------- section 5.1.1

  /** The number of zero bytes between the byte holding the one bit and the length. */
  function ZeroBytes(n: nat): (z: nat)
    ensures (n + 1 + z + 8) % 64 == 0 && z < 64
  {
    (119 - n % 64) % 64
  }

  /** A number as n bytes, most significant first. */
  function Long(x: nat, n: nat): (bytes: seq<Byte>)
    ensures |bytes| == n
  {
    if n == 0 then [] else Long(x / 0x100, n - 1) + [(x % 0x100) as Byte]
  }

  function Value(bytes: seq<Byte>): nat {
    if bytes == [] then 0 else Value(bytes[..|bytes| - 1]) * 0x100 + bytes[|bytes| - 1] as nat
  }

  function Zeros(n: nat): (s: seq<Byte>)
    ensures |s| == n
  {
    seq(n, _ => 0)
  }

  /** The length in bits modulo 2^64, as uint64_t holds it. */
  function TotalBits(n: nat): nat {
    n * 8 % 0x1_0000_0000_0000_0000
  }

  /** The end of a message, with its padding. */
  function Tail(rest: seq<Byte>, totalBits: nat): (s: seq<Byte>)
    ensures |s| % 64 == 0
  {
    rest + [0x80] + Zeros(ZeroBytes(|rest|)) + Long(totalBits, 8)
  }

  function Pad(m: seq<Byte>): (s: seq<Byte>)
    ensures |s| % 64 == 0
  {
    Tail(m, TotalBits(|m|))
  }

  function Digest<W>(o: Ops<W>, m: seq<Byte>): Eight<W> {
    HashBlocks(o, o.initial, Pad(m))
  }

  // ---------------------------------------------------------------- what the padding is

  /** A message of l bits, a one and k zeros leave room for exactly the length in the last block. */
  predicate Completes(l: nat, k: nat) {
    (l + 1 + k) % 512 == 448
  }

  /** In bits, the zeros are the fewest that will do. */
  lemma PaddingIsSmallest(n: nat)
    ensures Completes(8 * n, 7 + 8 * ZeroBytes(n))
    ensures forall j: nat | j < 7 + 8 * ZeroBytes(n) :: !Completes(8 * n, j)
  {
    var z := ZeroBytes(n);
    var q := (n + 1 + z + 8) / 64;
    assert 8 * n + 1 + (7 + 8 * z) == 512 * (q - 1) + 448;
    forall j: nat | j < 7 + 8 * z ensures !Completes(8 * n, j) {
      NoSmaller(512 * (q - 1) + 448, 7 + 8 * z - j);
    }
  }

  /** Bit j of a sequence of bytes, each most significant bit first. */
  predicate BitAt(s: seq<Byte>, j: nat)
    requires j / 8 < |s|
  {
    ByteBit(s[j / 8], j % 8)
  }

  predicate ByteBit(b: Byte, j: nat)
    requires j < 8
  {
    b as nat / [0x80, 0x40, 0x20, 0x10, 8, 4, 2, 1][j] % 2 == 1
  }

  lemma MarkerBits(j: nat)
    requires j < 8
    ensures ByteBit(0x80, j) <==> j == 0
    ensures !ByteBit(0, j)
  {
  }

  lemma PaddingBytes(m: seq<Byte>)
    ensures |Pad(m)| == |m| + 1 + ZeroBytes(|m|) + 8 && m <= Pad(m) && Pad(m)[|m|] == 0x80
    ensures forall k | |m| < k < |Pad(m)| - 8 :: Pad(m)[k] == 0
  {
  }

  /** The padded message: the message, a one, that many zeros, and the length in the last 64 bits. */
  lemma PaddingBits(m: seq<Byte>)
    ensures m <= Pad(m) && 8 * |Pad(m)| == 8 * |m| + 1 + (7 + 8 * ZeroBytes(|m|)) + 64
    ensures BitAt(Pad(m), 8 * |m|)
    ensures forall j | 8 * |m| < j < 8 * |Pad(m)| - 64 :: !BitAt(Pad(m), j)
  {
    var n, s := |m|, Pad(m);
    PaddingBytes(m);
    MarkerBits(0);
    forall j | 8 * n < j < 8 * |s| - 64 ensures !BitAt(s, j) {
      assert n <= j / 8 < |s| - 8 && (j / 8 == n ==> j % 8 > 0);
      MarkerBits(j % 8);
    }
  }

  lemma NoSmaller(x: nat, d: nat)
    requires x % 512 == 448 && 0 < d < 512 && d <= x
    ensures (x - d) % 512 != 448
  {
  }

  function Bound(n: nat): nat {
    if n == 0 then 1 else 0x100 * Bound(n - 1)
  }

  lemma {:induction false} LongKeeps(x: nat, n: nat, bound: nat)
    requires bound == Bound(n)
    ensures x < bound ==> Value(Long(x, n)) == x
    decreases n
  {
    if n > 0 {
      LongKeeps(x / 0x100, n - 1, Bound(n - 1));
      assert Long(x, n)[..n - 1] == Long(x / 0x100, n - 1);
    }
  }

  /** The last eight bytes are the length of the message in bits, for every message below 2^61 bytes. */
  lemma LengthIsExact(m: seq<Byte>)
    requires |m| < 0x2000_0000_0000_0000
    ensures Value(Pad(m)[|Pad(m)| - 8..]) == 8 * |m|
  {
    var x := TotalBits(|m|);
    assert x == 8 * |m|;
    assert Pad(m)[|Pad(m)| - 8..] == Long(x, 8);
    assert Bound(8) == 0x1_0000_0000_0000_0000;
    LongKeeps(x, 8, Bound(8));
  }

  /** x >> n. */
  function Shift(x: nat, n: nat): nat
    decreases n
  {
    if n == 0 then x else Shift(x / 2, n - 1)
  }

  lemma ShiftFour(x: nat, n: nat)
    ensures Shift(x, n + 4) == Shift(x / 16, n)
  {
    assert Shift(x, n + 4) == Shift(x / 2, n + 3) == Shift(x / 2 / 2, n + 2);
    assert Shift(x / 2 / 2, n + 2) == Shift(x / 2 / 2 / 2, n + 1);
  }

  lemma ShiftByte(x: nat, n: nat)
    ensures Shift(x, n + 8) == Shift(x / 0x100, n)
  {
    ShiftFour(x, n + 4);
    ShiftFour(x / 16, n);
  }

  /** Each byte of a number is a shift and a truncation away. */
  lemma {:induction false} LongByte(x: nat, n: nat, b: nat)
    requires b < n
    ensures Long(x, n)[b] as nat == Shift(x, (n - 1 - b) * 8) % 0x100
    decreases n
  {
    if b < n - 1 {
      LongByte(x / 0x100, n - 1, b);
      ShiftByte(x, (n - 2 - b) * 8);
    }
  }

  // ---------------------------------------------------------------- one or two last blocks

  lemma {:induction false} HashConcat<W>(o: Ops<W>, h: Eight<W>, m: Block, s: seq<Byte>)
    requires |s| % 64 == 0
    ensures HashBlocks(o, h, m + s) == HashBlocks(o, Compress(o, h, m), s)
  {
    assert (m + s)[..64] == m && (m + s)[64..] == s;
  }

  lemma HashOne<W>(o: Ops<W>, h: Eight<W>, m: Block)
    ensures HashBlocks(o, h, m) == Compress(o, h, m)
  {
    assert m[..64] == m && m[64..] == [];
  }

  /** The padding of the bytes left after the full blocks, by the number of them. */
  lemma TailIsPadding(rest: seq<Byte>, bits: nat)
    requires |rest| < 64
    ensures |rest| < 56 ==> ZeroBytes(|rest|) == 56 - |rest| - 1
    ensures |rest| >= 56 ==> ZeroBytes(|rest|) == (64 - |rest| - 1) + 56
  {
  }

  /** A full block does not change how the rest is padded. */
  lemma TailNext(rest: seq<Byte>, totalBits: nat)
    requires |rest| >= 64
    ensures Tail(rest, totalBits) == rest[..64] + Tail(rest[64..], totalBits)
  {
    OneBlockLess(|rest|);
    assert rest == rest[..64] + rest[64..];
  }

  lemma OneBlockLess(n: nat)
    requires n >= 64
    ensures ZeroBytes(n) == ZeroBytes(n - 64)
  {
  }

  lemma HashNext<W>(o: Ops<W>, h: Eight<W>, rest: seq<Byte>, totalBits: nat)
    requires |rest| >= 64
    ensures HashBlocks(o, h, Tail(rest, totalBits))
         == HashBlocks(o, Compress(o, h, rest[..64]), Tail(rest[64..], totalBits))
  {
    TailNext(rest, totalBits);
    HashConcat(o, h, rest[..64], Tail(rest[64..], totalBits));
  }

  lemma HashNextAt<W>(o: Ops<W>, h: Eight<W>, m: seq<Byte>, i: nat, totalBits: nat)
    requires i + 64 <= |m|
    ensures HashBlocks(o, h, Tail(m[i..], totalBits))
         == HashBlocks(o, Compress(o, h, m[i..i + 64]), Tail(m[i + 64..], totalBits))
  {
    HashNext(o, h, m[i..], totalBits);
    assert m[i..][..64] == m[i..i + 64] && m[i..][64..] == m[i + 64..];
  }

  // ---------------------------------------------------------------- the code

  ghost function Schedules<W>(o: Ops<W>, m: Block): (s: seq<W>)
    ensures |s| == 64 && forall j | 0 <= j < 64 :: s[j] == Schedule(o, m, j)
  {
    seq(64, j requires 0 <= j < 64 => Schedule(o, m, j))
  }

  /** The first sixteen words are the block; a later one is a sum of four. */
  ghost predicate Follows<W>(o: Ops<W>, m: Block, s: seq<W>, t: nat)
    requires t < |s|
  {
    && (t < 16 ==> s[t] == o.word(m[t * 4], m[t * 4 + 1], m[t * 4 + 2], m[t * 4 + 3]))
    && (t >= 16 ==> s[t] == Add4(o, s[t - 16], o.small0(s[t - 15]), s[t - 7], o.small1(s[t - 2])))
  }

  /** The code adds the four terms in the opposite order. */
  lemma SchedulesFollow<W(!new)>(o: Ops<W>, m: Block)
    requires Sums(o)
    ensures forall t: nat | t < 64 :: Follows(o, m, Schedules(o, m), t)
  {
    forall t: nat | t < 64 ensures Follows(o, m, Schedules(o, m), t) {
      if t >= 16 {
        ReordersFollows(o, Schedule(o, m, t - 16), o.small0(Schedule(o, m, t - 15)),
                        Schedule(o, m, t - 7), o.small1(Schedule(o, m, t - 2)));
      }
    }
  }

  /** sha256_transform, first half: any sequence that follows the rule is the one computed. */
  method Expand<W(0)>(o: Ops<W>, block: Block, ghost s: seq<W>) returns (w: array<W>)
    requires |s| == 64 && forall t: nat | t < 64 :: Follows(o, block, s, t)
    ensures fresh(w) && w[..] == s
  {
    w := new W[64];
    for t := 0 to 16
      invariant forall j | 0 <= j < t :: w[j] == s[j]
    {
      assert Follows(o, block, s, t);
      w[t] := o.word(block[t * 4], block[t * 4 + 1], block[t * 4 + 2], block[t * 4 + 3]);
    }
    for t := 16 to 64
      invariant forall j | 0 <= j < t :: w[j] == s[j]
    {
      assert Follows(o, block, s, t);
      var s0 := o.small0(w[t - 15]);
      var s1 := o.small1(w[t - 2]);
      w[t] := o.add(o.add(o.add(w[t - 16], s0), w[t - 7]), s1);
    }
  }

  ghost function Words<W>(h: array<W>): Eight<W>
    requires h.Length == 8
    reads h
  {
    Eight(h[0], h[1], h[2], h[3], h[4], h[5], h[6], h[7])
  }

  /** sha256_transform. */
  method Transform<W(0, !new)>(o: Ops<W>, H: array<W>, block: Block)
    requires H.Length == 8
    requires Sums(o)
    modifies H
    ensures Words(H) == Compress(o, old(Words(H)), block)
  {
    SchedulesFollow(o, block);
    var W := Expand(o, block, Schedules(o, block));
    var a, b, c, d, e, f, g, h := H[0], H[1], H[2], H[3], H[4], H[5], H[6], H[7];
    for t := 0 to 64
      invariant Eight(a, b, c, d, e, f, g, h) == Rounds(o, old(Words(H)), block, t)
    {
      assert W[t] == W[..][t] == Schedule(o, block, t);
      var temp1 := o.add(o.add(o.add(o.add(h, o.big1(e)), o.ch(e, f, g)), o.k(t)), W[t]);
      var temp2 := o.add(o.big0(a), o.maj(a, b, c));
      h := g;
      g := f;
      f := e;
      e := o.add(d, temp1);
      d := c;
      c := b;
      b := a;
      a := o.add(temp1, temp2);
    }
    H[0] := o.add(H[0], a);
    H[1] := o.add(H[1], b);
    H[2] := o.add(H[2], c);
    H[3] := o.add(H[3], d);
    H[4] := o.add(H[4], e);
    H[5] := o.add(H[5], f);
    H[6] := o.add(H[6], g);
    H[7] := o.add(H[7], h);
  }

  /** write_length, into the last eight bytes of a block. */
  method WriteLength(block: array<Byte>, totalBits: nat)
    requires block.Length == 64
    modifies block
    ensures block[..56] == old(block[..56])
    ensures block[56..] == Long(totalBits, 8)
  {
    for b := 0 to 8
      invariant block[..56] == old(block[..56])
      invariant forall j | 0 <= j < b :: block[56 + j] == Long(totalBits, 8)[j]
    {
      LongByte(totalBits, 8, b);
      block[56 + b] := (Shift(totalBits, 56 - b * 8) % 0x100) as Byte;
    }
  }

  /** sha256_buffer, up to printing. */
  method HashBuffer<W(0, !new)>(o: Ops<W>, data: seq<Byte>) returns (digest: Eight<W>)
    requires Sums(o)
    ensures digest == Digest(o, data)
  {
    var H := new W[8][o.initial.a, o.initial.b, o.initial.c, o.initial.d,
                      o.initial.e, o.initial.f, o.initial.g, o.initial.h];
    var totalBits := TotalBits(|data|);
    var i := 0;
    assert data[0..] == data;
    while i + 64 <= |data|
      invariant i <= |data|
      invariant HashBlocks(o, Words(H), Tail(data[i..], totalBits)) == Digest(o, data)
    {
      HashNextAt(o, Words(H), data, i, totalBits);
      Transform(o, H, data[i..i + 64]);
      i := i + 64;
    }
    Finish(o, H, data[i..], totalBits);
    digest := Eight(H[0], H[1], H[2], H[3], H[4], H[5], H[6], H[7]);
  }

  /** The part after the loop: what is left goes into one block, or two if the length does not fit. */
  method Finish<W(0, !new)>(o: Ops<W>, H: array<W>, rest: seq<Byte>, totalBits: nat)
    requires |rest| < 64 && H.Length == 8
    requires Sums(o)
    modifies H
    ensures Words(H) == HashBlocks(o, old(Words(H)), Tail(rest, totalBits))
  {
    var rem := |rest|;
    var block := new Byte[64];
    forall j | 0 <= j < rem {
      block[j] := rest[j];
    }
    block[rem] := 0x80;
    assert block[..rem + 1] == rest + [0x80];
    TailIsPadding(rest, totalBits);
    if rem < 56 {
      forall j | rem + 1 <= j < 56 {
        block[j] := 0;
      }
      assert block[..56] == rest + [0x80] + Zeros(56 - rem - 1);
      WriteLength(block, totalBits);
      assert block[..] == block[..56] + block[56..] == Tail(rest, totalBits);
      HashOne(o, Words(H), block[..]);
      Transform(o, H, block[..]);
    } else {
      forall j | rem + 1 <= j < 64 {
        block[j] := 0;
      }
      assert block[..] == rest + [0x80] + Zeros(64 - rem - 1);
      ghost var first, last := block[..], Zeros(56) + Long(totalBits, 8);
      assert first + last == Tail(rest, totalBits);
      HashConcat(o, Words(H), first, last);
      Transform(o, H, block[..]);
      LengthBlock(o, H, totalBits);
    }
  }

  /** The second block: zeros and the length. */
  method LengthBlock<W(0, !new)>(o: Ops<W>, H: array<W>, totalBits: nat)
    requires H.Length == 8
    requires Sums(o)
    modifies H
    ensures Words(H) == HashBlocks(o, old(Words(H)), Zeros(56) + Long(totalBits, 8))
  {
    var lenBlock := new Byte[64];
    forall j | 0 <= j < 56 {
      lenBlock[j] := 0;
    }
    assert lenBlock[..56] == Zeros(56);
    WriteLength(lenBlock, totalBits);
    assert lenBlock[..] == lenBlock[..56] + lenBlock[56..] == Zeros(56) + Long(totalBits, 8);
    HashOne(o, Words(H), lenBlock[..]);
    Transform(o, H, lenBlock[..]);
  }
}
