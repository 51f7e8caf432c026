/** A sequence written out as groups of eight bits, one group per element. */
module Flatten {

  ghost predicate Eights<T(!new)>(f: T -> seq<bool>) {
    forall x :: |f(x)| == 8
  }

  function Flat<T>(f: T -> seq<bool>, s: seq<T>): seq<bool> {
    if s == [] then [] else Flat(f, s[..|s| - 1]) + f(s[|s| - 1])
  }

  lemma {:induction false} FlatLength<T(!new)>(f: T -> seq<bool>, s: seq<T>)
    requires Eights(f)
    ensures |Flat(f, s)| == 8 * |s|
    decreases |s|
  {
    if s != [] {
      FlatLength(f, s[..|s| - 1]);
    }
  }

  lemma FlatSnoc<T>(f: T -> seq<bool>, s: seq<T>, x: T)
    ensures Flat(f, s + [x]) == Flat(f, s) + f(x)
  {
    assert (s + [x])[..|s|] == s;
  }

  lemma Slice(p: seq<bool>, q: seq<bool>, from: nat, to: nat)
    requires from <= to <= |p|
    ensures (p + q)[from..to] == p[from..to]
  {
  }

  /** Element k occupies bits 8k to 8k+7. */
  lemma {:induction false} FlatAt<T(!new)>(f: T -> seq<bool>, s: seq<T>, k: nat)
    requires Eights(f) && k < |s|
    ensures |Flat(f, s)| == 8 * |s|
    ensures Flat(f, s)[8 * k..8 * k + 8] == f(s[k])
    decreases |s|
  {
    var n := |s| - 1;
    var p := Flat(f, s[..n]);
    FlatLength(f, s);
    FlatLength(f, s[..n]);
    assert Flat(f, s) == p + f(s[n]);
    if k < n {
      FlatAt(f, s[..n], k);
      Slice(p, f(s[n]), 8 * k, 8 * k + 8);
    }
  }

  lemma SameElementSameBit<T(!new)>(f: T -> seq<bool>, a: seq<T>, b: seq<T>, i: nat)
    requires Eights(f) && |a| == |b| && i < 8 * |a| && a[i / 8] == b[i / 8]
    ensures |Flat(f, a)| == |Flat(f, b)| == 8 * |a|
    ensures Flat(f, a)[i] == Flat(f, b)[i]
  {
    var j := i / 8;
    FlatAt(f, a, j);
    FlatAt(f, b, j);
    assert Flat(f, a)[i] == Flat(f, a)[8 * j..8 * j + 8][i - 8 * j];
    assert Flat(f, b)[i] == Flat(f, b)[8 * j..8 * j + 8][i - 8 * j];
  }

  /** Sequences with the same bits have elements with the same bits. */
  lemma FlatTells<T(!new)>(f: T -> seq<bool>, a: seq<T>, b: seq<T>)
    requires Eights(f) && |a| == |b| && Flat(f, a) == Flat(f, b)
    ensures forall k | 0 <= k < |a| :: f(a[k]) == f(b[k])
  {
    forall k | 0 <= k < |a| ensures f(a[k]) == f(b[k]) {
      FlatAt(f, a, k);
      FlatAt(f, b, k);
    }
  }
}
