/** Greedy choice from an ordered list: keep the first, drop what clashes with it, go on. The elements and
    the clash are arbitrary; module Nms supplies boxes and their overlap. */
module GreedyChoice {

  /** Those that do not clash with d. */
  function Survivors<T>(clash: (T, T) -> bool, d: T, rest: seq<T>): (s: seq<T>)
    ensures |s| <= |rest|
    ensures forall x | x in s :: x in rest && !clash(d, x)
  {
    if rest == [] then []
    else if clash(d, rest[0]) then Survivors(clash, d, rest[1..])
    else [rest[0]] + Survivors(clash, d, rest[1..])
  }

  /** Keep the first, drop what clashes with it, go on with the rest. */
  function Greedy<T>(clash: (T, T) -> bool, ds: seq<T>): seq<T>
    decreases |ds|
  {
    if ds == [] then [] else [ds[0]] + Greedy(clash, Survivors(clash, ds[0], ds[1..]))
  }

  /** The elements from i on that are not suppressed. */
  function Live<T>(ds: seq<T>, suppressed: seq<bool>, i: nat): seq<T>
    requires |ds| == |suppressed| && i <= |ds|
    decreases |ds| - i
  {
    if i == |ds| then []
    else if suppressed[i] then Live(ds, suppressed, i + 1)
    else [ds[i]] + Live(ds, suppressed, i + 1)
  }

  /** Everything from i on that clashes with d becomes suppressed. */
  ghost predicate Marked<T>(clash: (T, T) -> bool, ds: seq<T>, before: seq<bool>, after: seq<bool>, d: T, i: nat) {
    && |ds| == |before| == |after|
    && forall j | i <= j < |ds| :: after[j] <==> before[j] || clash(d, ds[j])
  }

  lemma {:induction false} LiveAfterMarking<T>(
    clash: (T, T) -> bool, ds: seq<T>, before: seq<bool>, after: seq<bool>, d: T, i: nat)
    requires Marked(clash, ds, before, after, d, i) && i <= |ds|
    ensures Live(ds, after, i) == Survivors(clash, d, Live(ds, before, i))
    decreases |ds| - i
  {
    if i < |ds| {
      LiveAfterMarking(clash, ds, before, after, d, i + 1);
      if !before[i] {
        assert Live(ds, before, i)[1..] == Live(ds, before, i + 1);
      }
    }
  }

  lemma {:induction false} LiveAtFirst<T>(ds: seq<T>, suppressed: seq<bool>, i: nat)
    requires |ds| == |suppressed| && i <= |ds| && forall j | i <= j < |ds| :: !suppressed[j]
    ensures Live(ds, suppressed, i) == ds[i..]
    decreases |ds| - i
  {
    if i < |ds| {
      LiveAtFirst(ds, suppressed, i + 1);
    }
  }

  /** One turn of the outer loop. */
  lemma LiveNext<T>(clash: (T, T) -> bool, ds: seq<T>, before: seq<bool>, after: seq<bool>, i: nat)
    requires |ds| == |before| && i < |ds|
    requires !before[i] ==> Marked(clash, ds, before, after, ds[i], i + 1)
    ensures before[i] ==> Greedy(clash, Live(ds, before, i)) == Greedy(clash, Live(ds, before, i + 1))
    ensures !before[i] ==> Greedy(clash, Live(ds, before, i)) == [ds[i]] + Greedy(clash, Live(ds, after, i + 1))
  {
    if !before[i] {
      LiveAfterMarking(clash, ds, before, after, ds[i], i + 1);
      assert Live(ds, before, i)[1..] == Live(ds, before, i + 1);
    }
  }

  // ---------------------------------------------------------------- what is kept, what is dropped

  ghost predicate Apart<T>(clash: (T, T) -> bool, ds: seq<T>) {
    forall i, j | 0 <= i < j < |ds| :: !clash(ds[i], ds[j])
  }

  lemma {:induction false} GreedyKeepsInput<T>(clash: (T, T) -> bool, ds: seq<T>)
    ensures forall x | x in Greedy(clash, ds) :: x in ds
    decreases |ds|
  {
    if ds != [] {
      GreedyKeepsInput(clash, Survivors(clash, ds[0], ds[1..]));
    }
  }

  lemma {:induction false} KeptAreApart<T>(clash: (T, T) -> bool, ds: seq<T>)
    ensures Apart(clash, Greedy(clash, ds))
    decreases |ds|
  {
    if ds != [] {
      var rest := Survivors(clash, ds[0], ds[1..]);
      KeptAreApart(clash, rest);
      GreedyKeepsInput(clash, rest);
    }
  }

  predicate Sorted<T>(score: T -> real, ds: seq<T>) {
    forall i, j | 0 <= i < j < |ds| :: score(ds[i]) >= score(ds[j])
  }

  // ---------------------------------------------------------------- fixed points

  lemma {:induction false} NothingToDrop<T>(clash: (T, T) -> bool, d: T, rest: seq<T>)
    requires forall j | 0 <= j < |rest| :: !clash(d, rest[j])
    ensures Survivors(clash, d, rest) == rest
    decreases |rest|
  {
    if rest != [] {
      NothingToDrop(clash, d, rest[1..]);
    }
  }

  /** A list comes through unchanged exactly if nothing in it clashes. */
  lemma {:induction false} UnchangedIffApart<T>(clash: (T, T) -> bool, ds: seq<T>)
    ensures Greedy(clash, ds) == ds <==> Apart(clash, ds)
    decreases |ds|
  {
    KeptAreApart(clash, ds);
    if ds != [] && Apart(clash, ds) {
      NothingToDrop(clash, ds[0], ds[1..]);
      UnchangedIffApart(clash, ds[1..]);
    }
  }

  // ---------------------------------------------------------------- groups do not interact

  function OfGroup<T>(group: T -> int, ds: seq<T>, c: int): (s: seq<T>)
    ensures |s| <= |ds|
  {
    if ds == [] then []
    else if group(ds[0]) == c then [ds[0]] + OfGroup(group, ds[1..], c)
    else OfGroup(group, ds[1..], c)
  }

  ghost predicate Within<T(!new)>(clash: (T, T) -> bool, group: T -> int) {
    forall a, b :: clash(a, b) ==> group(a) == group(b)
  }

  lemma {:induction false} SurvivorsOfGroup<T(!new)>(clash: (T, T) -> bool, group: T -> int, d: T, rest: seq<T>, c: int)
    requires Within(clash, group)
    ensures OfGroup(group, Survivors(clash, d, rest), c)
         == if group(d) == c then Survivors(clash, d, OfGroup(group, rest, c)) else OfGroup(group, rest, c)
    decreases |rest|
  {
    if rest != [] {
      SurvivorsOfGroup(clash, group, d, rest[1..], c);
      if !clash(d, rest[0]) {
        assert Survivors(clash, d, rest)[1..] == Survivors(clash, d, rest[1..]);
      }
      if group(rest[0]) == c {
        assert OfGroup(group, rest, c)[1..] == OfGroup(group, rest[1..], c);
      }
    }
  }

  /** Choosing and then looking at one group is looking at the group and then choosing. */
  lemma {:induction false} GroupsAreIndependent<T(!new)>(clash: (T, T) -> bool, group: T -> int, ds: seq<T>, c: int)
    requires Within(clash, group)
    ensures OfGroup(group, Greedy(clash, ds), c) == Greedy(clash, OfGroup(group, ds, c))
    decreases |ds|
  {
    if ds != [] {
      var rest := Survivors(clash, ds[0], ds[1..]);
      SurvivorsOfGroup(clash, group, ds[0], ds[1..], c);
      GroupsAreIndependent(clash, group, rest, c);
      assert Greedy(clash, ds)[1..] == Greedy(clash, rest);
      if group(ds[0]) == c {
        assert OfGroup(group, ds, c)[1..] == OfGroup(group, ds[1..], c);
      }
    }
  }

  // ---------------------------------------------------------------- the declarative meaning

  function Pick<T>(ds: seq<T>, mask: seq<bool>, i: nat): seq<T>
    requires |ds| == |mask| && i <= |ds|
    decreases |ds| - i
  {
    if i == |ds| then []
    else if mask[i] then [ds[i]] + Pick(ds, mask, i + 1)
    else Pick(ds, mask, i + 1)
  }

  /** Some chosen element before position k clashes with element j. */
  ghost predicate Beaten<T>(clash: (T, T) -> bool, ds: seq<T>, mask: seq<bool>, k: nat, j: nat)
    requires |ds| == |mask| && k <= |ds| && j < |ds|
  {
    exists i | 0 <= i < k :: mask[i] && clash(ds[i], ds[j])
  }

  /** An element is chosen exactly if no chosen element before it clashes with it. */
  ghost predicate Fair<T>(clash: (T, T) -> bool, ds: seq<T>, mask: seq<bool>) {
    |ds| == |mask| && forall j | 0 <= j < |ds| :: mask[j] <==> !Beaten(clash, ds, mask, j, j)
  }

  ghost function Flags<T>(clash: (T, T) -> bool, ds: seq<T>, mask: seq<bool>, k: nat): (flags: seq<bool>)
    requires |ds| == |mask| && k <= |ds|
    ensures |flags| == |ds|
    ensures forall j | 0 <= j < |ds| :: flags[j] == Beaten(clash, ds, mask, k, j)
  {
    seq(|ds|, j requires 0 <= j < |ds| => Beaten(clash, ds, mask, k, j))
  }

  lemma NextFlags<T>(clash: (T, T) -> bool, ds: seq<T>, mask: seq<bool>, k: nat)
    requires |ds| == |mask| && k < |ds|
    ensures mask[k] ==> Marked(clash, ds, Flags(clash, ds, mask, k), Flags(clash, ds, mask, k + 1), ds[k], k + 1)
    ensures !mask[k] ==> Flags(clash, ds, mask, k) == Flags(clash, ds, mask, k + 1)
  {
    forall j | 0 <= j < |ds|
      ensures Beaten(clash, ds, mask, k + 1, j) <==>
              Beaten(clash, ds, mask, k, j) || (mask[k] && clash(ds[k], ds[j]))
    {
      if mask[k] && clash(ds[k], ds[j]) {
        assert Beaten(clash, ds, mask, k + 1, j);
      } else if Beaten(clash, ds, mask, k, j) {
        var i :| 0 <= i < k && mask[i] && clash(ds[i], ds[j]);
        assert Beaten(clash, ds, mask, k + 1, j);
      }
    }
  }

  lemma FairAt<T>(clash: (T, T) -> bool, ds: seq<T>, mask: seq<bool>, k: nat)
    requires Fair(clash, ds, mask) && k < |ds|
    ensures mask[k] <==> !Flags(clash, ds, mask, k)[k]
  {
  }

  /** One position more, seen from the end. */
  lemma FairStep<T>(clash: (T, T) -> bool, ds: seq<T>, mask: seq<bool>, k: nat, now: seq<bool>, next: seq<bool>)
    requires |ds| == |mask| == |now| == |next| && k < |ds| && mask[k] == !now[k]
    requires if mask[k] then Marked(clash, ds, now, next, ds[k], k + 1) else now == next
    requires Pick(ds, mask, k + 1) == Greedy(clash, Live(ds, next, k + 1))
    ensures Pick(ds, mask, k) == Greedy(clash, Live(ds, now, k))
  {
    LiveNext(clash, ds, now, next, k);
  }

  lemma {:induction false} FairFrom<T>(clash: (T, T) -> bool, ds: seq<T>, mask: seq<bool>, k: nat)
    requires Fair(clash, ds, mask) && k <= |ds|
    ensures Pick(ds, mask, k) == Greedy(clash, Live(ds, Flags(clash, ds, mask, k), k))
    decreases |ds| - k
  {
    if k < |ds| {
      FairFrom(clash, ds, mask, k + 1);
      NextFlags(clash, ds, mask, k);
      FairAt(clash, ds, mask, k);
      FairStep(clash, ds, mask, k, Flags(clash, ds, mask, k), Flags(clash, ds, mask, k + 1));
    }
  }

  /** Greedy choice is the only choice that keeps an element exactly when no kept element before it clashes. */
  lemma OnlyFairChoice<T>(clash: (T, T) -> bool, ds: seq<T>, mask: seq<bool>)
    requires Fair(clash, ds, mask)
    ensures Pick(ds, mask, 0) == Greedy(clash, ds)
  {
    FairFrom(clash, ds, mask, 0);
    LiveAtFirst(ds, Flags(clash, ds, mask, 0), 0);
  }

  lemma BeatenInPrefix<T>(clash: (T, T) -> bool, ds: seq<T>, mask: seq<bool>, n: nat, k: nat, j: nat)
    requires |ds| == |mask| && k <= n <= |ds| && j < n
    ensures Beaten(clash, ds[..n], mask[..n], k, j) == Beaten(clash, ds, mask, k, j)
  {
    forall i | 0 <= i < k ensures mask[..n][i] == mask[i] && ds[..n][i] == ds[i] {}
    assert ds[..n][j] == ds[j];
    if Beaten(clash, ds, mask, k, j) {
      var i :| 0 <= i < k && mask[i] && clash(ds[i], ds[j]);
      assert mask[..n][i] && clash(ds[..n][i], ds[..n][j]);
    }
    if Beaten(clash, ds[..n], mask[..n], k, j) {
      var i :| 0 <= i < k && mask[..n][i] && clash(ds[..n][i], ds[..n][j]);
      assert mask[i] && clash(ds[i], ds[j]);
    }
  }

  /** There is such a choice: decide about one element after the other. */
  lemma {:induction false} FairChoice<T>(clash: (T, T) -> bool, ds: seq<T>) returns (mask: seq<bool>)
    ensures Fair(clash, ds, mask)
    decreases |ds|
  {
    if ds == [] {
      mask := [];
    } else {
      var n := |ds| - 1;
      var before := FairChoice(clash, ds[..n]);
      var open := before + [false];
      mask := before + [!Beaten(clash, ds, open, n, n)];
      assert mask[..n] == before == open[..n];
      SameChoicesBeat(clash, ds, open, mask, n, n);
      forall j | 0 <= j < |ds| ensures mask[j] <==> !Beaten(clash, ds, mask, j, j) {
        if j < n {
          BeatenInPrefix(clash, ds, mask, n, j, j);
          assert before[j] <==> !Beaten(clash, ds[..n], before, j, j);
        }
      }
    }
  }

  lemma SameChoicesBeat<T>(clash: (T, T) -> bool, ds: seq<T>, a: seq<bool>, b: seq<bool>, k: nat, j: nat)
    requires |ds| == |a| == |b| && k <= |ds| && j < |ds| && a[..k] == b[..k]
    ensures Beaten(clash, ds, a, k, j) == Beaten(clash, ds, b, k, j)
  {
    assert forall i | 0 <= i < k :: a[i] == a[..k][i] == b[..k][i] == b[i];
  }

  lemma FairAgrees<T>(clash: (T, T) -> bool, ds: seq<T>, a: seq<bool>, b: seq<bool>, k: nat)
    requires Fair(clash, ds, a) && Fair(clash, ds, b) && k < |ds| && a[..k] == b[..k]
    ensures a[k] == b[k]
  {
    SameChoicesBeat(clash, ds, a, b, k, k);
  }

  /** And only one: two fair choices agree at every position, because they agree at all earlier ones. */
  lemma {:induction false} FairIsUnique<T>(clash: (T, T) -> bool, ds: seq<T>, a: seq<bool>, b: seq<bool>, k: nat)
    requires Fair(clash, ds, a) && Fair(clash, ds, b) && k < |ds|
    ensures forall i | 0 <= i <= k :: a[i] == b[i]
    decreases k
  {
    if k > 0 {
      FairIsUnique(clash, ds, a, b, k - 1);
    }
    assert a[..k] == b[..k];
    FairAgrees(clash, ds, a, b, k);
  }

  /** The position of the kept element because of which position j was dropped. */
  ghost predicate Covers<T>(clash: (T, T) -> bool, score: T -> real, ds: seq<T>, mask: seq<bool>, i: nat, j: nat)
    requires |ds| == |mask| && j < |ds|
  {
    i < j && mask[i] && clash(ds[i], ds[j]) && score(ds[i]) >= score(ds[j])
  }

  /** The greedy result, position by position: there is exactly one fair choice, the result consists of the
      chosen positions, and every other position is covered by a chosen one before it. */
  lemma GreedyByPosition<T>(clash: (T, T) -> bool, score: T -> real, ds: seq<T>) returns (mask: seq<bool>)
    requires Sorted(score, ds)
    ensures Fair(clash, ds, mask) && Pick(ds, mask, 0) == Greedy(clash, ds)
    ensures forall other | Fair(clash, ds, other) :: other == mask
    ensures forall j | 0 <= j < |ds| && !mask[j] :: exists i: nat :: Covers(clash, score, ds, mask, i, j)
  {
    mask := FairChoice(clash, ds);
    OnlyFairChoice(clash, ds, mask);
    forall other | Fair(clash, ds, other) ensures other == mask {
      if ds != [] { FairIsUnique(clash, ds, other, mask, |ds| - 1); }
    }
    forall j | 0 <= j < |ds| && !mask[j] ensures exists i: nat :: Covers(clash, score, ds, mask, i, j) {
      assert Beaten(clash, ds, mask, j, j);
      var i :| 0 <= i < j && mask[i] && clash(ds[i], ds[j]);
      assert Covers(clash, score, ds, mask, i, j);
    }
  }
}
