/** Remainders by a variable modulus, as the ring indices use them. */
module ModArith {

  lemma SmallMultiple(d: int, c: int)
    requires -c < d * c < c
    ensures d == 0
  {
    if d >= 1 {
      MulAtLeast(d, c);
    } else if d <= -1 {
      MulAtLeast(d, c);
    }
  }

  lemma MulAtLeast(d: int, c: int)
    requires c >= 0
    ensures d >= 1 ==> d * c >= c
    ensures d <= -1 ==> d * c <= -c
  {
    assert d * c == (d - 1) * c + c == (d + 1) * c - c;
  }

  /** Division is unique. */
  lemma ModUnique(n: int, q: int, r: nat, c: nat)
    requires c >= 1 && r < c && n == q * c + r
    ensures n % c == r && n / c == q
  {
    assert n == (n / c) * c + n % c;
    assert (n / c - q) * c == (n / c) * c - q * c;
    SmallMultiple(n / c - q, c);
  }

  lemma ModNext(n: nat, c: nat)
    requires c >= 1
    ensures (n % c + 1) % c == (n + 1) % c
  {
    if n % c + 1 < c {
      ModUnique(n + 1, n / c, n % c + 1, c);
    } else {
      ModUnique(n + 1, n / c + 1, 0, c);
    }
  }

  /** Two numbers less than a modulus apart have different remainders. */
  lemma ModApart(a: int, b: int, c: nat)
    requires c >= 1 && a < b < a + c
    ensures a % c != b % c
  {
    var d := b / c - a / c;
    assert b - a == d * c + (b % c - a % c) by {
      assert b == (b / c) * c + b % c && a == (a / c) * c + a % c;
      assert d * c == (b / c) * c - (a / c) * c;
    }
    if a % c == b % c {
      SmallMultiple(d, c);
    }
  }

  lemma WrapNext(pos: nat, c: nat)
    requires pos < c
    ensures (pos + 1) % c == if pos + 1 == c then 0 else pos + 1
  {
    if pos + 1 == c {
      ModUnique(pos + 1, 1, 0, c);
    } else {
      ModUnique(pos + 1, 0, pos + 1, c);
    }
  }

  lemma WrapDistance(from: nat, to: nat, c: nat)
    requires from < c && to < c
    ensures (to - from + c) % c == if from <= to then to - from else to - from + c
  {
    if from <= to {
      ModUnique(to - from + c, 1, to - from, c);
    } else {
      ModUnique(to - from + c, 0, to - from + c, c);
    }
  }
}
