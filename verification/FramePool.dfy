/** The lock-free frame pool of gateway_engine/pipeline/FramePool.cpp: a stack of free slot indices,
    linked through `free_list_` and headed by `free_head_` (-1 ends the list).

    Two views: `State` with `Step` is the pool under concurrency, one thread getting (the capture
    stage) and any number of threads releasing, each step one access to shared memory; class `Pool`
    is the object, with its methods as they behave undisturbed. */
module FramePool {

  const END := -1

  /** The only thread inside `get_frame`. */
  datatype Getter =
    | GIdle                      // outside, its first access loads the head
    | GRetry                     // the exchange has failed, the head is loaded again
    | GHead(idx: int)            // head loaded, its successor is read next
    | GNext(idx: int, succ: int) // successor read, the compare-and-swap is next

  /** A slot and the thread, if any, that runs `release` on it. */
  datatype Slot =
    | Free
    | Held                // owned through a shared_ptr
    | Dropped             // last reference gone: `release` is about to load the head
    | DHead(seen: int)     // head loaded, the link is written next
    | DLinked(seen: int)   // link written, the compare-and-swap is next

  datatype State = State(head: int, next: seq<int>, getter: Getter, slots: seq<Slot>)

  /** `ok` false makes a weak compare-and-swap fail spuriously. */
  datatype Action =
    | GetLoad | GetLink | GetCas(ok: bool)
    | Drop(i: nat)
    | RelLoad(i: nat) | RelLink(i: nat) | RelCas(i: nat, ok: bool)

  function Init(n: nat): State
    requires n >= 1
  {
    State(0, seq(n, i => if i == n - 1 then END else i + 1), GIdle, seq(n, _ => Free))
  }

  predicate Enabled(s: State, a: Action) {
    match a
    case GetLoad => s.getter.GIdle? || s.getter.GRetry?
    case GetLink => s.getter.GHead?
    case GetCas(_) => s.getter.GNext?
    case Drop(i) => i < |s.slots| && s.slots[i].Held?
    case RelLoad(i) => i < |s.slots| && s.slots[i].Dropped?
    case RelLink(i) => i < |s.slots| && s.slots[i].DHead?
    case RelCas(i, _) => i < |s.slots| && s.slots[i].DLinked?
  }

  /** The getter has loaded an index. */
  predicate UnderWay(g: Getter) {
    g.GHead? || g.GNext?
  }

  /** The list arrays have the pool's size and the index about to be dereferenced is inside them. */
  predicate WellFormed(s: State) {
    && |s.next| == |s.slots|
    && (UnderWay(s.getter) ==> 0 <= s.getter.idx < |s.next|)
    && (s.head == END || 0 <= s.head < |s.next|)
  }

  /** One access; an action whose thread is elsewhere does nothing. */
  function Step(s: State, a: Action): State
    requires WellFormed(s)
  {
    if !Enabled(s, a) then s else
      match a
      case GetLoad => s.(getter := if s.head == END then GIdle else GHead(s.head))
      case GetLink => s.(getter := GNext(s.getter.idx, s.next[s.getter.idx]))
      case GetCas(ok) =>
        if s.head == s.getter.idx && ok
        then s.(head := s.getter.succ, slots := s.slots[s.getter.idx := Held], getter := GIdle)
        else s.(getter := GRetry)
      case Drop(i) => s.(slots := s.slots[i := Dropped])
      case RelLoad(i) => s.(slots := s.slots[i := DHead(s.head)])
      case RelLink(i) => s.(next := s.next[i := s.slots[i].seen], slots := s.slots[i := DLinked(s.slots[i].seen)])
      case RelCas(i, ok) =>
        if s.head == s.slots[i].seen && ok
        then s.(head := i, slots := s.slots[i := Free])
        else s.(slots := s.slots[i := Dropped])
  }

  // ---------------------------------------------------------------- the free list

  function At(chain: seq<int>, k: nat): int {
    if k < |chain| then chain[k] else END
  }

  /** `chain` is the walk from `head` along `next` to the end marker, and it meets no slot twice. */
  ghost predicate IsChain(head: int, next: seq<int>, chain: seq<int>) {
    && head == At(chain, 0)
    && (forall k | 0 <= k < |chain| :: 0 <= chain[k] < |next|)
    && (forall k {:trigger next[chain[k]]} | 0 <= k < |chain| :: next[chain[k]] == At(chain, k + 1))
    && (forall j, k | 0 <= j < k < |chain| :: chain[j] != chain[k])
  }

  lemma {:induction false} ChainIsUnique(head: int, next: seq<int>, c: seq<int>, d: seq<int>)
    requires IsChain(head, next, c) && IsChain(head, next, d)
    ensures c == d
    decreases |c|
  {
    if c != [] {
      assert d != [] && c[0] == d[0];
      ChainTail(head, next, c);
      ChainTail(head, next, d);
      ChainIsUnique(next[head], next, c[1..], d[1..]);
      assert c == [c[0]] + c[1..] && d == [d[0]] + d[1..];
    }
  }

  lemma ChainTail(head: int, next: seq<int>, c: seq<int>)
    requires IsChain(head, next, c) && c != []
    ensures 0 <= head < |next| && IsChain(next[head], next, c[1..])
  {
    var t := c[1..];
    assert next[c[0]] == At(c, 1);
    forall k | 0 <= k < |t| ensures next[t[k]] == At(t, k + 1) {
      assert next[c[k + 1]] == At(c, k + 2);
    }
  }

  lemma ChainPush(head: int, next: seq<int>, c: seq<int>, i: int)
    requires IsChain(head, next, c) && 0 <= i < |next| && i !in c && next[i] == head
    ensures IsChain(i, next, [i] + c)
  {
    var d := [i] + c;
    assert d[0] == i && forall k | 1 <= k < |d| :: d[k] == c[k - 1];
    forall k | 0 <= k < |d| ensures next[d[k]] == At(d, k + 1) {
      if k > 0 {
        assert next[c[k - 1]] == At(c, k);
      }
    }
    forall j, k | 0 <= j < k < |d| ensures d[j] != d[k] {
      assert d[k] == c[k - 1];
    }
  }

  lemma ChainFrame(head: int, next: seq<int>, c: seq<int>, i: int, v: int)
    requires IsChain(head, next, c) && 0 <= i < |next| && i !in c
    ensures IsChain(head, next[i := v], c)
  {
  }

  /** The invariant of every interleaving. The free slots are exactly the ones on the chain; while the
      getter is under way its slot stays on the chain and the successor it has read stays right. */
  ghost predicate Inv(s: State, chain: seq<int>) {
    && WellFormed(s)
    && IsChain(s.head, s.next, chain)
    && (forall i | 0 <= i < |s.slots| :: s.slots[i].Free? <==> i in chain)
    && (UnderWay(s.getter) ==> s.getter.idx in chain)
    && (s.getter.GNext? ==> s.next[s.getter.idx] == s.getter.succ)
    && (forall i | 0 <= i < |s.slots| :: s.slots[i].DLinked? ==> s.next[i] == s.slots[i].seen)
  }

  /** The effect of a step on the free list, seen as an atomic stack: a get that succeeds takes the top,
      a release that succeeds puts its slot on top, everything else leaves the stack alone. */
  function StackAfter(s: State, a: Action, chain: seq<int>): seq<int> {
    if !Enabled(s, a) then chain else
      match a
      case GetCas(ok) => if s.head == s.getter.idx && ok && chain != [] then chain[1..] else chain
      case RelCas(i, ok) => if s.head == s.slots[i].seen && ok then [i] + chain else chain
      case _ => chain
  }

  lemma GetCasKeepsInv(s: State, ok: bool, chain: seq<int>)
    requires Inv(s, chain) && s.getter.GNext?
    ensures Inv(Step(s, GetCas(ok)), StackAfter(s, GetCas(ok), chain))
  {
    if s.head == s.getter.idx && ok {
      ChainTail(s.head, s.next, chain);
      assert chain == [chain[0]] + chain[1..];
    }
  }

  lemma RelCasKeepsInv(s: State, i: nat, ok: bool, chain: seq<int>)
    requires Inv(s, chain) && Enabled(s, RelCas(i, ok))
    ensures Inv(Step(s, RelCas(i, ok)), StackAfter(s, RelCas(i, ok), chain))
  {
    if s.head == s.slots[i].seen && ok {
      ChainPush(s.head, s.next, chain, i);
    }
  }

  lemma StepKeepsChain(s: State, a: Action, chain: seq<int>)
    requires Inv(s, chain)
    ensures Inv(Step(s, a), StackAfter(s, a, chain))
  {
    if Enabled(s, a) {
      match a
      case GetLoad =>
      case GetLink =>
      case GetCas(ok) => GetCasKeepsInv(s, ok, chain);
      case Drop(i) =>
      case RelLoad(i) =>
      case RelLink(i) => ChainFrame(s.head, s.next, chain, i, s.slots[i].seen);
      case RelCas(i, ok) => RelCasKeepsInv(s, i, ok, chain);
    }
  }

  lemma InitInv(n: nat)
    requires n >= 1
    ensures Inv(Init(n), seq(n, i => i))
  {
    var chain := seq(n, i => i);
    forall i | 0 <= i < n ensures i in chain {
      assert chain[i] == i;
    }
  }

  /** A run pairs each state with the stack the actions so far should have produced. */
  ghost function Run(s: State, chain: seq<int>, actions: seq<Action>): (r: (State, seq<int>))
    requires Inv(s, chain)
    decreases |actions|
  {
    if actions == [] then (s, chain) else
      StepKeepsChain(s, actions[0], chain);
      Run(Step(s, actions[0]), StackAfter(s, actions[0], chain), actions[1..])
  }

  lemma StepSize(s: State, a: Action)
    requires WellFormed(s)
    ensures |Step(s, a).slots| == |s.slots|
  {
  }

  lemma {:induction false} RunKeepsInv(s: State, chain: seq<int>, actions: seq<Action>)
    requires Inv(s, chain)
    ensures Inv(Run(s, chain, actions).0, Run(s, chain, actions).1)
    ensures |Run(s, chain, actions).0.slots| == |s.slots|
    decreases |actions|
  {
    if actions != [] {
      StepKeepsChain(s, actions[0], chain);
      StepSize(s, actions[0]);
      RunKeepsInv(Step(s, actions[0]), StackAfter(s, actions[0], chain), actions[1..]);
    }
  }

  // ---------------------------------------------------------------- what it means

  /** No ABA: when the getter's compare-and-swap meets the head it loaded, the successor it is about to
      install is the current one, whatever was released and linked in between; and the slot it takes was
      free, so no two holders ever share one. */
  lemma GetterCasIsSound(s: State, chain: seq<int>)
    requires Inv(s, chain) && s.getter.GNext? && s.head == s.getter.idx
    ensures s.next[s.head] == s.getter.succ
    ensures s.slots[s.head].Free?
    ensures IsChain(s.getter.succ, s.next, chain[1..]) && chain == [s.head] + chain[1..]
  {
    ChainTail(s.head, s.next, chain);
  }

  /** `get_frame` returns null at its load iff no slot is free at that moment. */
  lemma NullExactlyWhenExhausted(s: State, chain: seq<int>)
    requires Inv(s, chain) && (s.getter.GIdle? || s.getter.GRetry?)
    ensures Step(s, GetLoad).getter.GIdle? <==> forall i | 0 <= i < |s.slots| :: !s.slots[i].Free?
  {
    if chain != [] {
      assert s.slots[chain[0]].Free?;
    }
  }

  /** Conservation: once every slot has been given back the list holds the whole pool again. */
  lemma NothingIsLost(s: State, chain: seq<int>)
    requires Inv(s, chain) && forall i | 0 <= i < |s.slots| :: s.slots[i].Free?
    ensures |chain| == |s.slots|
  {
    var all := seq(|s.slots|, i => i);
    DistinctCount(all);
    DistinctCount(chain);
    forall i | 0 <= i < |s.slots| ensures i in all {
      assert all[i] == i;
    }
    assert (set x | x in chain) == (set x | x in all);
  }

  lemma {:induction false} DistinctCount(c: seq<int>)
    requires forall j, k | 0 <= j < k < |c| :: c[j] != c[k]
    ensures |set x | x in c| == |c|
  {
    if c != [] {
      var m := |c| - 1;
      DistinctCount(c[..m]);
      assert (set x | x in c) == (set x | x in c[..m]) + {c[m]};
    }
  }

  predicate Commits(s: State, a: Action)
    requires WellFormed(s)
  {
    Enabled(s, a) && ((a.GetCas? && s.head == s.getter.idx && a.ok) || (a.RelCas? && s.head == s.slots[a.i].seen && a.ok))
  }

  /** How many operations completed during a run. */
  ghost function CommitCount(s: State, chain: seq<int>, actions: seq<Action>): nat
    requires Inv(s, chain)
    decreases |actions|
  {
    if actions == [] then 0 else
      StepKeepsChain(s, actions[0], chain);
      (if Commits(s, actions[0]) then 1 else 0)
      + CommitCount(Step(s, actions[0]), StackAfter(s, actions[0], chain), actions[1..])
  }

  /** Lock freedom: if the head differs from what a thread loaded, so that its compare-and-swap fails for a
      real reason, some other operation completed since the load. */
  lemma {:induction false} FailureMeansProgressElsewhere(s: State, chain: seq<int>, actions: seq<Action>)
    requires Inv(s, chain)
    ensures Run(s, chain, actions).0.head != s.head ==> CommitCount(s, chain, actions) >= 1
    decreases |actions|
  {
    if actions != [] {
      StepKeepsChain(s, actions[0], chain);
      FailureMeansProgressElsewhere(Step(s, actions[0]), StackAfter(s, actions[0], chain), actions[1..]);
    }
  }

  // ---------------------------------------------------------------- every release gives its slot back

  /** What a run is made of: slots taken, dropped and put back, and calls of `get_frame` begun and answered. */
  datatype What = Taken(slot: int) | Given(slot: int) | PutBack(slot: int) | Called | Answered

  predicate Happens(s: State, a: Action, w: What)
    requires WellFormed(s)
  {
    Enabled(s, a) &&
    match w
    case Taken(i) => a == GetCas(true) && s.head == s.getter.idx == i
    case Given(i) => a.Drop? && a.i == i
    case PutBack(i) => a.RelCas? && a.i == i && a.ok && s.head == s.slots[i].seen
    case Called => a.GetLoad? && s.getter.GIdle?
    case Answered => (a.GetLoad? && s.head == END) || (a == GetCas(true) && s.head == s.getter.idx)
  }

  /** How often it happened during a run. */
  ghost function Times(s: State, chain: seq<int>, actions: seq<Action>, w: What): nat
    requires Inv(s, chain)
    decreases |actions|
  {
    if actions == [] then 0 else
      StepKeepsChain(s, actions[0], chain);
      (if Happens(s, actions[0], w) then 1 else 0)
      + Times(Step(s, actions[0]), StackAfter(s, actions[0], chain), actions[1..], w)
  }

  function One(b: bool): nat {
    if b then 1 else 0
  }

  predicate UnderRelease(t: Slot) {
    t.Dropped? || t.DHead? || t.DLinked?
  }

  /** A slot becomes held only by a get that takes it, comes under release only by the drop of its last
      reference, and leaves the hands of its releaser only by being put back. */
  predicate Moves(s: State, a: Action, i: nat)
    requires WellFormed(s) && i < |s.slots|
  {
    var before, after := s.slots[i], Step(s, a).slots[i];
    && One(after.Held?) == One(before.Held?) + One(Happens(s, a, Taken(i))) - One(Happens(s, a, Given(i)))
    && One(UnderRelease(after)) == One(UnderRelease(before)) + One(Happens(s, a, Given(i))) - One(Happens(s, a, PutBack(i)))
  }

  lemma Moving(s: State, a: Action, i: nat)
    requires WellFormed(s) && i < |s.slots|
    requires s.getter.GNext? && s.head == s.getter.idx ==> s.slots[s.head].Free?
    ensures Moves(s, a, i)
  {
  }

  lemma StepMovesSlot(s: State, a: Action, chain: seq<int>, i: nat)
    requires Inv(s, chain) && i < |s.slots|
    ensures i < |Step(s, a).slots| == |s.slots| && Moves(s, a, i)
  {
    if s.getter.GNext? && s.head == s.getter.idx {
      GetterCasIsSound(s, chain);
    }
    Moving(s, a, i);
  }

  /** Taken slots come off the top of the list, and slots are put back there. */
  predicate Restacks(s: State, a: Action, chain: seq<int>, i: nat)
    requires WellFormed(s) && i < |s.slots|
  {
    && (Happens(s, a, Taken(i)) ==> chain == [i as int] + StackAfter(s, a, chain))
    && (Happens(s, a, PutBack(i)) ==> StackAfter(s, a, chain) == [i as int] + chain)
  }

  lemma StepRestacks(s: State, a: Action, chain: seq<int>, i: nat)
    requires Inv(s, chain) && i < |s.slots|
    ensures Restacks(s, a, chain, i)
  {
    if Happens(s, a, Taken(i)) {
      GetterCasIsSound(s, chain);
    }
  }

  /** What every single access keeps, and what it does to each slot. */
  lemma StepKeepsInv(s: State, a: Action, chain: seq<int>)
    requires Inv(s, chain)
    ensures Inv(Step(s, a), StackAfter(s, a, chain))
    ensures |Step(s, a).slots| == |s.slots|
    ensures forall i | 0 <= i < |s.slots| :: Moves(s, a, i) && Restacks(s, a, chain, i)
  {
    StepKeepsChain(s, a, chain);
    StepSize(s, a);
    forall i | 0 <= i < |s.slots| ensures Moves(s, a, i) && Restacks(s, a, chain, i) {
      StepMovesSlot(s, a, chain, i);
      StepRestacks(s, a, chain, i);
    }
  }

  lemma StepMovesGetter(s: State, a: Action)
    requires WellFormed(s)
    ensures One(!Step(s, a).getter.GIdle?)
            == One(!s.getter.GIdle?) + One(Happens(s, a, Called)) - One(Happens(s, a, Answered))
  {
  }

  lemma TimesCons(s: State, chain: seq<int>, a: Action, rest: seq<Action>, w: What)
    requires Inv(s, chain)
    ensures Inv(Step(s, a), StackAfter(s, a, chain))
    ensures Times(s, chain, [a] + rest, w)
            == One(Happens(s, a, w)) + Times(Step(s, a), StackAfter(s, a, chain), rest, w)
    ensures Run(s, chain, [a] + rest) == Run(Step(s, a), StackAfter(s, a, chain), rest)
  {
    StepKeepsChain(s, a, chain);
    assert ([a] + rest)[1..] == rest;
  }

  /** Over any run: a slot is held once more than it was dropped exactly if a get took it once more, and
      under release exactly if it was dropped once more than put back, whatever other threads do and however
      many exchanges fail. */
  lemma {:induction false} RunBalance(s: State, chain: seq<int>, actions: seq<Action>, i: nat)
    requires Inv(s, chain) && i < |s.slots|
    ensures |Run(s, chain, actions).0.slots| == |s.slots|
    ensures var t := Run(s, chain, actions).0;
            && One(t.slots[i].Held?) == One(s.slots[i].Held?)
                 + Times(s, chain, actions, Taken(i)) - Times(s, chain, actions, Given(i))
            && One(UnderRelease(t.slots[i])) == One(UnderRelease(s.slots[i]))
                 + Times(s, chain, actions, Given(i)) - Times(s, chain, actions, PutBack(i))
    decreases |actions|
  {
    if actions != [] {
      var a, rest := actions[0], actions[1..];
      assert actions == [a] + rest;
      TimesCons(s, chain, a, rest, Taken(i));
      TimesCons(s, chain, a, rest, Given(i));
      TimesCons(s, chain, a, rest, PutBack(i));
      StepMovesSlot(s, a, chain, i);
      RunBalance(Step(s, a), StackAfter(s, a, chain), rest, i);
    }
  }

  /** And every `get_frame` is under way or answered. */
  lemma {:induction false} CallBalance(s: State, chain: seq<int>, actions: seq<Action>)
    requires Inv(s, chain)
    ensures One(!Run(s, chain, actions).0.getter.GIdle?) == One(!s.getter.GIdle?)
              + Times(s, chain, actions, Called) - Times(s, chain, actions, Answered)
    decreases |actions|
  {
    if actions != [] {
      var a, rest := actions[0], actions[1..];
      assert actions == [a] + rest;
      TimesCons(s, chain, a, rest, Called);
      TimesCons(s, chain, a, rest, Answered);
      StepMovesGetter(s, a);
      CallBalance(Step(s, a), StackAfter(s, a, chain), rest);
    }
  }

  /** Held, under release and on the list are told by how often the slot was taken, dropped and put back. */
  ghost predicate Accounted(s: State, n: nat, actions: seq<Action>, i: nat)
    requires n >= 1 && i < |s.slots| && Inv(Init(n), seq(n, i => i))
  {
    var start := seq(n, i => i);
    var taken, given, back := Times(Init(n), start, actions, Taken(i)),
                              Times(Init(n), start, actions, Given(i)),
                              Times(Init(n), start, actions, PutBack(i));
    && back <= given <= taken <= back + 1
    && (s.slots[i].Held? <==> taken == given + 1)
    && (UnderRelease(s.slots[i]) <==> given == back + 1)
    && (s.slots[i].Free? <==> taken == back)
  }

  /** Main result: under every interleaving from a fresh pool the list from `free_head_` is acyclic, ends
      in -1, holds exactly the free slots, and is the stack that the successful operations built; every other
      slot is held, if it was taken once more than dropped, or under release, if it was dropped once more than
      put back; every `get_frame` is under way or answered; and whenever the getter's exchange would succeed,
      its slot is free and the successor it read is still right. */
  lemma FreeListOverRuns(n: nat, actions: seq<Action>)
    requires n >= 1
    ensures Inv(Init(n), seq(n, i => i))
    ensures var (s, stack) := Run(Init(n), seq(n, i => i), actions);
            && IsChain(s.head, s.next, stack)
            && (forall other | IsChain(s.head, s.next, other) :: other == stack)
            && |s.slots| == n
            && (forall i | 0 <= i < n :: s.slots[i].Free? <==> i in stack)
            && (forall i | 0 <= i < n :: Accounted(s, n, actions, i))
            && Times(Init(n), seq(n, i => i), actions, Called)
               == Times(Init(n), seq(n, i => i), actions, Answered) + One(!s.getter.GIdle?)
            && (s.getter.GNext? && s.head == s.getter.idx ==>
                  0 <= s.head < n && s.slots[s.head].Free? && s.next[s.head] == s.getter.succ)
  {
    InitInv(n);
    RunKeepsInv(Init(n), seq(n, i => i), actions);
    var (s, stack) := Run(Init(n), seq(n, i => i), actions);
    forall other | IsChain(s.head, s.next, other) ensures other == stack {
      ChainIsUnique(s.head, s.next, other, stack);
    }
    CallBalance(Init(n), seq(n, i => i), actions);
    forall i | 0 <= i < n ensures Accounted(s, n, actions, i) {
      RunBalance(Init(n), seq(n, i => i), actions, i);
    }
  }

  /** A slot whose last reference is gone stays under release until its own releaser puts it on the list,
      whatever the other threads do in between. */
  lemma StaysUnderRelease(s: State, chain: seq<int>, actions: seq<Action>, i: nat)
    requires Inv(s, chain) && i < |s.slots| && UnderRelease(s.slots[i])
    requires Times(s, chain, actions, PutBack(i)) == 0
    ensures |Run(s, chain, actions).0.slots| == |s.slots| && UnderRelease(Run(s, chain, actions).0.slots[i])
  {
    RunBalance(s, chain, actions, i);
  }

  // ---------------------------------------------------------------- calls left alone

  /** The releaser of slot i alone, from wherever it is; its exchange fails `spurious` times for no reason. */
  function ReleaseAlone(s: State, i: nat, spurious: nat): State
    requires WellFormed(s) && i < |s.slots|
    decreases spurious, ReleaseLeft(s, i)
  {
    match s.slots[i]
    case Dropped => ReleaseAlone(Step(s, RelLoad(i)), i, spurious)
    case DHead(_) => ReleaseAlone(Step(s, RelLink(i)), i, spurious)
    case DLinked(seen) =>
      if spurious > 0 then ReleaseAlone(Step(s, RelCas(i, false)), i, spurious - 1)
      else ReleaseAlone(Step(s, RelCas(i, true)), i, 0)
    case _ => s
  }

  /** Accesses it still needs: a head that has changed since its load costs one more attempt. */
  function ReleaseLeft(s: State, i: nat): nat
    requires i < |s.slots|
  {
    match s.slots[i]
    case Dropped => 3
    case DHead(seen) => if seen == s.head then 2 else 5
    case DLinked(seen) => if seen == s.head then 1 else 4
    case _ => 0
  }

  /** What that amounts to. */
  lemma {:induction false} ReleaseEffect(s: State, i: nat, spurious: nat)
    requires WellFormed(s) && i < |s.slots| && UnderRelease(s.slots[i])
    requires s.slots[i].DLinked? ==> s.next[i] == s.slots[i].seen
    ensures ReleaseAlone(s, i, spurious) == s.(head := i, next := s.next[i := s.head], slots := s.slots[i := Free])
    decreases spurious, ReleaseLeft(s, i)
  {
    var a := match s.slots[i]
             case Dropped => RelLoad(i)
             case DHead(_) => RelLink(i)
             case _ => RelCas(i, spurious == 0);
    var b := Step(s, a);
    assert s.slots[i := Free] == b.slots[i := Free];
    if b.slots[i].Free? {
      assert s.next[i := s.head] == s.next;
    } else {
      assert b.next[i := b.head] == s.next[i := s.head];
      ReleaseEffect(b, i, if a.RelCas? && spurious > 0 then spurious - 1 else spurious);
    }
  }

  /** After any number of failed exchanges, and from any point of the call, a releaser left alone does what
      `Pool.Release` does: its slot goes on top of the list, and nothing else changes. */
  lemma UndisturbedRelease(s: State, chain: seq<int>, i: nat, spurious: nat)
    requires Inv(s, chain) && i < |s.slots| && UnderRelease(s.slots[i])
    ensures var t := ReleaseAlone(s, i, spurious);
            && t == s.(head := i, next := s.next[i := s.head], slots := s.slots[i := Free])
            && IsChain(t.head, t.next, [i as int] + chain)
  {
    ReleaseEffect(s, i, spurious);
    ChainFrame(s.head, s.next, chain, i, s.head);
    ChainPush(s.head, s.next[i := s.head], chain, i);
  }

  /** The getter alone, likewise. */
  function GetAlone(s: State, spurious: nat): State
    requires WellFormed(s)
    decreases spurious, GetLeft(s)
  {
    match s.getter
    case GIdle => s
    case GRetry => if s.head == END then Step(s, GetLoad) else GetAlone(Step(s, GetLoad), spurious)
    case GHead(_) => GetAlone(Step(s, GetLink), spurious)
    case GNext(_, _) =>
      if spurious > 0 then GetAlone(Step(s, GetCas(false)), spurious - 1)
      else if s.head == s.getter.idx then Step(s, GetCas(true))
      else GetAlone(Step(s, GetCas(true)), 0)
  }

  function GetLeft(s: State): nat {
    match s.getter
    case GIdle => 0
    case GRetry => 3
    case GHead(idx) => if idx == s.head then 2 else 5
    case GNext(idx, _) => if idx == s.head then 1 else 4
  }

  /** From any point of the call, and after any number of failed exchanges, a getter left alone takes the top
      of the list, or nothing if it is empty. */
  lemma {:induction false} GetCompletes(s: State, chain: seq<int>, spurious: nat)
    requires Inv(s, chain) && !s.getter.GIdle?
    ensures var t := GetAlone(s, spurious);
            if chain == [] then t == s.(getter := GIdle)
            else
              && 0 <= chain[0] < |s.slots| && |s.next| == |s.slots|
              && t == s.(head := s.next[chain[0]], slots := s.slots[chain[0] := Held], getter := GIdle)
              && Inv(t, chain[1..])
    decreases spurious, GetLeft(s)
  {
    if !(s.getter.GRetry? && s.head == END) {
      var a := match s.getter
               case GRetry => GetLoad
               case GHead(_) => GetLink
               case _ => GetCas(spurious == 0);
      var b := Step(s, a);
      StepKeepsChain(s, a, chain);
      if s.getter.GNext? && s.head == s.getter.idx {
        GetterCasIsSound(s, chain);
      }
      if !b.getter.GIdle? {
        GetCompletes(b, chain, if a.GetCas? && spurious > 0 then spurious - 1 else spurious);
      }
    }
  }

  /** A get that nobody disturbs does to the list what `Pool.GetFrame` does. */
  lemma UndisturbedGet(s: State, chain: seq<int>, spurious: nat)
    requires Inv(s, chain) && s.getter.GIdle?
    ensures var t := GetAlone(Step(s, GetLoad), spurious);
            if chain == [] then t == s
            else
              && 0 <= chain[0] < |s.slots| && |s.next| == |s.slots|
              && t == s.(head := s.next[chain[0]], slots := s.slots[chain[0] := Held]) && Inv(t, chain[1..])
  {
    StepKeepsChain(s, GetLoad, chain);
    if chain != [] {
      GetCompletes(Step(s, GetLoad), chain, spurious);
    }
  }

  // ---------------------------------------------------------------- the object

  class Pool {
    var freeHead: int
    const freeList: array<int>

    ghost predicate Valid(chain: seq<int>)
      reads this, freeList
    {
      IsChain(freeHead, freeList[..], chain)
    }

    constructor (poolSize: nat)
      requires poolSize >= 1
      ensures fresh(freeList) && freeList.Length == poolSize
      ensures Valid(seq(poolSize, i => i))
      ensures freeHead == Init(poolSize).head && freeList[..] == Init(poolSize).next
    {
      freeHead := 0;
      freeList := new int[poolSize];
      new;
      for i := 0 to poolSize
        invariant freeHead == 0
        invariant forall k | 0 <= k < i :: freeList[k] == if k == poolSize - 1 then END else k + 1
      {
        freeList[i] := if i == poolSize - 1 then END else i + 1;
      }
      assert freeList[..] == Init(poolSize).next;
      InitInv(poolSize);
    }

    /** `spurious` is how many times the weak compare-and-swap fails for no reason. */
    method GetFrame(spurious: nat, ghost chain: seq<int>) returns (idx: int)
      requires Valid(chain)
      modifies this`freeHead
      ensures chain == [] ==> idx == END && Valid(chain)
      ensures chain != [] ==> idx == chain[0] && Valid(chain[1..])
    {
      var failures := 0;
      while true
        invariant failures <= spurious && freeHead == old(freeHead)
        decreases spurious - failures
      {
        idx := freeHead;
        if idx == END {
          return;
        }
        ChainTail(freeHead, freeList[..], chain);
        var succ := freeList[idx];
        if failures == spurious {
          freeHead := succ;
          return;
        }
        failures := failures + 1;
      }
    }

    /** `index` is a slot that is not on the list, as the deleter of its only shared_ptr guarantees. */
    method Release(index: nat, spurious: nat, ghost chain: seq<int>)
      requires Valid(chain) && index < freeList.Length && index !in chain
      modifies this`freeHead, freeList
      ensures Valid([index as int] + chain)
      ensures freeList[..] == old(freeList[..])[index := old(freeHead)]
    {
      var failures := 0;
      while true
        invariant failures <= spurious && freeHead == old(freeHead) && index < freeList.Length
        invariant freeList[..] == old(freeList[..]) || freeList[..] == old(freeList[..])[index := old(freeHead)]
        decreases spurious - failures
      {
        var head := freeHead;
        freeList[index] := head;
        assert freeList[..] == old(freeList[..])[index := old(freeHead)];
        if failures == spurious {
          ChainFrame(head, old(freeList[..]), chain, index, head);
          ChainPush(head, freeList[..], chain, index);
          freeHead := index;
          return;
        }
        failures := failures + 1;
      }
    }
  }
}
