/** The single-producer single-consumer ring of common/SpscQueue.h.

    Two views of one object:
    - `Ring` with `ProducerStep` and `ConsumerStep` is the concurrent view. One step is one access to
      shared memory: one load or store of an index, or one read or write of a cell. The histories
      `sent` (items whose index store happened) and `taken` are the specification: the ring is a FIFO.
    - class `Queue` is the object itself, with the methods as they behave when they run undisturbed. */
module SpscQueue {

  import opened ModArith
  import opened Options

  // ---------------------------------------------------------------- the interleaved ring

  /** Where the thread inside `push` stands; `item` is the caller's argument. */
  datatype Producer<T> =
    | PIdle
    | PLoaded(item: T, pos: nat)  // own index loaded, the reader's index is next
    | PRoom(item: T, pos: nat)    // not full, the cell is written next
    | PWrote(item: T, pos: nat)   // cell written, the index is stored next

  /** Where the thread inside `pop` stands; `item` is the caller's out parameter. */
  datatype Consumer<T> =
    | CIdle
    | CLoaded(pos: nat)           // own index loaded, the writer's index is next
    | CData(pos: nat)             // not empty, the cell is copied next
    | CCopied(pos: nat, item: T)  // cell copied, the index is stored next

  datatype Ring<T> = Ring(
    buf: seq<T>, rd: nat, wr: nat,
    prod: Producer<T>, cons: Consumer<T>,
    sent: seq<T>, taken: seq<T>)

  datatype Event<T> = Produce(item: T) | Consume

  function Init<T>(capacity: nat, blank: T): Ring<T> {
    Ring(seq(capacity, _ => blank), 0, 0, PIdle, CIdle, [], [])
  }

  /** One access by the thread in `push`; `item` matters only when it enters the call. */
  function ProducerStep<T>(r: Ring<T>, item: T): Ring<T>
    requires Bounds(r)
  {
    match r.prod
    case PIdle => r.(prod := PLoaded(item, r.wr))
    case PLoaded(x, pos) => if (pos + 1) % |r.buf| == r.rd then r.(prod := PIdle) else r.(prod := PRoom(x, pos))
    case PRoom(x, pos) => r.(buf := r.buf[pos := x], prod := PWrote(x, pos))
    case PWrote(x, pos) => r.(wr := (pos + 1) % |r.buf|, prod := PIdle, sent := r.sent + [x])
  }

  /** One access by the thread in `pop`. The cell is copied and left as it is. */
  function ConsumerStep<T>(r: Ring<T>): Ring<T>
    requires Bounds(r)
  {
    match r.cons
    case CIdle => r.(cons := CLoaded(r.rd))
    case CLoaded(pos) => if pos == r.wr then r.(cons := CIdle) else r.(cons := CData(pos))
    case CData(pos) => r.(cons := CCopied(pos, r.buf[pos]))
    case CCopied(pos, x) => r.(rd := (pos + 1) % |r.buf|, cons := CIdle, taken := r.taken + [x])
  }

  function Step<T>(r: Ring<T>, e: Event<T>): Ring<T>
    requires Bounds(r)
  {
    match e
    case Produce(item) => ProducerStep(r, item)
    case Consume => ConsumerStep(r)
  }

  /** Every position a thread remembers is a cell of the ring. */
  predicate Bounds<T>(r: Ring<T>) {
    && |r.buf| >= 1
    && (!r.prod.PIdle? ==> r.prod.pos < |r.buf|)
    && (!r.cons.CIdle? ==> r.cons.pos < |r.buf|)
    && r.rd < |r.buf| && r.wr < |r.buf|
  }

  lemma StepBounds<T>(r: Ring<T>, e: Event<T>)
    requires Bounds(r)
    ensures Bounds(Step(r, e)) && |Step(r, e).buf| == |r.buf|
  {
  }

  /** The state after any interleaving of the two threads' accesses. */
  function Run<T>(r: Ring<T>, events: seq<Event<T>>): (r': Ring<T>)
    requires Bounds(r)
    ensures Bounds(r') && |r'.buf| == |r.buf|
    decreases |events|
  {
    if events == [] then r else
      StepBounds(r, events[0]);
      Run(Step(r, events[0]), events[1..])
  }

  /** Published and not yet consumed. */
  function Contents<T>(r: Ring<T>): seq<T>
    requires |r.taken| <= |r.sent|
  {
    r.sent[|r.taken|..]
  }

  ghost predicate Inv<T>(r: Ring<T>) {
    && Bounds(r)
    && |r.taken| <= |r.sent| < |r.taken| + |r.buf|
    && r.taken == r.sent[..|r.taken|]
    && r.rd == |r.taken| % |r.buf|
    && r.wr == |r.sent| % |r.buf|
    && CellsHold(r)
    && ProducerInv(r)
    && ConsumerInv(r)
  }

  /** A cell keeps what was published through it until the producer writes that cell again. Popping
      does not clear it: the newest |buf| - 1 published items all stay in the ring. */
  ghost predicate CellsHold<T>(r: Ring<T>)
    requires |r.buf| >= 1
  {
    forall k | 0 <= k < |r.sent| && |r.sent| - |r.buf| < k :: r.buf[k % |r.buf|] == r.sent[k]
  }

  ghost predicate ProducerInv<T>(r: Ring<T>)
    requires Bounds(r)
  {
    && (!r.prod.PIdle? ==> r.prod.pos == r.wr)
    && (r.prod.PRoom? || r.prod.PWrote? ==> |r.sent| + 1 < |r.taken| + |r.buf|)
    && (r.prod.PWrote? ==> r.buf[r.prod.pos] == r.prod.item)
  }

  ghost predicate ConsumerInv<T>(r: Ring<T>) {
    && (!r.cons.CIdle? ==> r.cons.pos == r.rd)
    && (r.cons.CData? || r.cons.CCopied? ==> |r.taken| < |r.sent|)
    && (r.cons.CCopied? ==> |r.taken| < |r.sent| && r.cons.item == r.sent[|r.taken|])
  }

  lemma InitInv<T>(capacity: nat, blank: T)
    requires capacity >= 1
    ensures Inv(Init(capacity, blank))
  {
    assert 0 % capacity == 0;
  }

  lemma ProducerStepInv<T>(r: Ring<T>, item: T)
    requires Inv(r)
    ensures Inv(ProducerStep(r, item))
  {
    match r.prod
    case PIdle =>
    case PLoaded(x, pos) => FullTest(r);
    case PRoom(x, pos) => WriteInv(r, item);
    case PWrote(x, pos) => ModNext(|r.sent|, |r.buf|);
  }

  lemma WriteInv<T>(r: Ring<T>, item: T)
    requires Inv(r) && r.prod.PRoom?
    ensures Inv(ProducerStep(r, item))
  {
    var r' := ProducerStep(r, item);
    forall k | 0 <= k < |r'.sent| && |r'.sent| - |r'.buf| < k ensures r'.buf[k % |r'.buf|] == r'.sent[k] {
      ModApart(k, |r.sent|, |r.buf|);
    }
  }

  /** The index comparison in `push` is the test for a full queue. */
  lemma FullTest<T>(r: Ring<T>)
    requires Inv(r)
    ensures (r.wr + 1) % |r.buf| == r.rd <==> |r.sent| + 1 == |r.taken| + |r.buf|
  {
    var c := |r.buf|;
    ModNext(|r.sent|, c);
    ModUnique(|r.taken| + c, 1 + |r.taken| / c, |r.taken| % c, c);
    if |r.sent| + 1 < |r.taken| + c {
      ModApart(|r.sent| + 1, |r.taken| + c, c);
    }
  }

  lemma ConsumerStepInv<T>(r: Ring<T>)
    requires Inv(r)
    ensures Inv(ConsumerStep(r))
  {
    match r.cons
    case CIdle =>
    case CLoaded(pos) =>
    case CData(pos) =>
    case CCopied(pos, x) =>
      ModNext(|r.taken|, |r.buf|);
      assert r.sent[..|r.taken| + 1] == r.sent[..|r.taken|] + [r.sent[|r.taken|]];
  }

  lemma StepInv<T>(r: Ring<T>, e: Event<T>)
    requires Inv(r)
    ensures Inv(Step(r, e))
  {
    match e
    case Produce(item) => ProducerStepInv(r, item);
    case Consume => ConsumerStepInv(r);
  }

  lemma {:induction false} RunInv<T>(r: Ring<T>, events: seq<Event<T>>)
    requires Inv(r)
    ensures Inv(Run(r, events))
    decreases |events|
  {
    if events != [] {
      StepBounds(r, events[0]);
      StepInv(r, events[0]);
      RunInv(Step(r, events[0]), events[1..]);
    }
  }

  // ---------------------------------------------------------------- what stays in the cells

  /** The cells after `items` went through a ring of `capacity` cells that started out blank: each item
      overwrote the one `capacity` places before it, and nothing else ever changed a cell. */
  function Layout<T>(capacity: nat, blank: T, items: seq<T>): (cells: seq<T>)
    requires capacity >= 1
    ensures |cells| == capacity
  {
    if items == [] then seq(capacity, _ => blank) else
      var n := |items| - 1;
      Layout(capacity, blank, items[..n])[n % capacity := items[n]]
  }

  lemma {:induction false} LayoutHolds<T>(capacity: nat, blank: T, items: seq<T>, j: nat)
    requires capacity >= 1 && j < |items| <= j + capacity
    ensures Layout(capacity, blank, items)[j % capacity] == items[j]
    decreases |items|
  {
    var n := |items| - 1;
    if j < n {
      LayoutHolds(capacity, blank, items[..n], j);
      ModApart(j, n, capacity);
    }
  }

  /** And nothing else: a cell is still blank or holds one of the last `capacity` items. */
  lemma {:induction false} LayoutOnlyHolds<T>(capacity: nat, blank: T, items: seq<T>, c: nat) returns (j: int)
    requires c < capacity
    ensures if j < 0 then Layout(capacity, blank, items)[c] == blank
            else j < |items| <= j + capacity && c == j % capacity && Layout(capacity, blank, items)[c] == items[j]
    decreases |items|
  {
    if items == [] {
      j := -1;
    } else {
      var n := |items| - 1;
      if c == n % capacity {
        j := n;
      } else {
        j := LayoutOnlyHolds(capacity, blank, items[..n], c);
        if j >= 0 && j + capacity == n {
          ModUnique(n, j / capacity + 1, j % capacity, capacity);
        }
      }
    }
  }

  function Written<T>(r: Ring<T>): seq<T> {
    if r.prod.PWrote? then r.sent + [r.prod.item] else r.sent
  }

  /** Popping clears nothing: the cells depend only on what was written. */
  ghost predicate Retains<T>(r: Ring<T>, blank: T) {
    |r.buf| >= 1 && r.buf == Layout(|r.buf|, blank, Written(r))
  }

  lemma StepRetains<T>(r: Ring<T>, e: Event<T>, blank: T)
    requires Inv(r) && Retains(r, blank)
    ensures Retains(Step(r, e), blank)
  {
    if e.Produce? && r.prod.PRoom? {
      var w := r.sent + [r.prod.item];
      assert w[..|w| - 1] == r.sent;
    }
  }

  lemma InitRetains<T>(capacity: nat, blank: T)
    requires capacity >= 1
    ensures Retains(Init(capacity, blank), blank)
  {
  }

  // ---------------------------------------------------------------- what it means

  /** Main result: for every capacity and every interleaving, what was popped is a prefix of what was
      pushed, never more than capacity - 1 items are in between, and no cell is written while it is copied. */
  lemma FifoOverRuns<T>(capacity: nat, blank: T, events: seq<Event<T>>)
    requires capacity >= 1
    ensures var r := Run(Init(capacity, blank), events);
            && |r.taken| <= |r.sent|
            && r.taken + Contents(r) == r.sent
            && |Contents(r)| <= capacity - 1
            && (r.prod.PRoom? && r.cons.CData? ==> r.prod.pos != r.cons.pos)
  {
    InitInv(capacity, blank);
    RunInv(Init(capacity, blank), events);
    var r := Run(Init(capacity, blank), events);
    if r.prod.PRoom? && r.cons.CData? { NoCellRace(r); }
  }

  /** Refinement, access by access: the queue changes at the two index stores and nowhere else. */
  lemma StepRefinesFifo<T>(r: Ring<T>, e: Event<T>)
    requires Inv(r)
    ensures Inv(Step(r, e))
    ensures e.Produce? && r.prod.PWrote? ==> Contents(Step(r, e)) == Contents(r) + [r.prod.item]
    ensures e.Consume? && r.cons.CCopied? ==> Contents(r) == [r.cons.item] + Contents(Step(r, e))
    ensures !(e.Produce? && r.prod.PWrote?) && !(e.Consume? && r.cons.CCopied?)
            ==> Contents(Step(r, e)) == Contents(r)
  {
    StepInv(r, e);
  }

  /** `push` gives up iff the queue is full at the moment it loads the reader's index, and `pop` gives up
      iff the queue is empty at the moment it loads the writer's index. */
  lemma RefusesExactlyWhenFullOrEmpty<T>(r: Ring<T>, item: T)
    requires Inv(r)
    ensures r.prod.PLoaded? ==> (ProducerStep(r, item).prod.PIdle? <==> |Contents(r)| == |r.buf| - 1)
    ensures r.cons.CLoaded? ==> (ConsumerStep(r).cons.CIdle? <==> Contents(r) == [])
  {
    FullTest(r);
    if r.cons.CLoaded? && |r.taken| < |r.sent| {
      ModApart(|r.taken|, |r.sent|, |r.buf|);
    }
  }

  /** Never is one thread about to write the cell the other one is about to copy. */
  lemma NoCellRace<T>(r: Ring<T>)
    requires Inv(r) && r.prod.PRoom? && r.cons.CData?
    ensures r.prod.pos != r.cons.pos
  {
    ModApart(|r.taken|, |r.sent|, |r.buf|);
  }

  /** `size()` called by the producer between two pushes: its own index does not move, so the value is the
      number of items at the moment the reader's index is loaded. */
  lemma SizeIsOccupancy<T>(r: Ring<T>)
    requires Inv(r)
    ensures (r.wr - r.rd + |r.buf|) % |r.buf| == |Contents(r)|
  {
    var c := |r.buf|;
    var n := |r.sent| - |r.taken|;
    assert r.wr - r.rd + c == (1 - |r.sent| / c + |r.taken| / c) * c + n;
    ModUnique(r.wr - r.rd + c, 1 - |r.sent| / c + |r.taken| / c, n, c);
  }

  // ---------------------------------------------------------------- calls left alone

  /** The cells from one index up to another, around the end. */
  function Around<T>(cells: seq<T>, from: nat, to: nat): seq<T>
    requires from < |cells| && to < |cells|
  {
    if from <= to then cells[from..to] else cells[from..] + cells[..to]
  }

  /** Cell by cell: position m of the walk is m cells on, modulo the capacity. */
  lemma AroundAt<T>(cells: seq<T>, from: nat, to: nat, m: nat)
    requires from < |cells| && to < |cells| && m < |Around(cells, from, to)|
    ensures Around(cells, from, to)[m] == cells[(from + m) % |cells|]
  {
    if from + m >= |cells| {
      ModUnique(from + m, 1, from + m - |cells|, |cells|);
    } else {
      ModUnique(from + m, 0, from + m, |cells|);
    }
  }

  /** The cells between the two indices hold what is queued. */
  lemma ContentsAreCells<T>(r: Ring<T>)
    requires Inv(r)
    ensures Contents(r) == Around(r.buf, r.rd, r.wr)
  {
    var c, n := |r.buf|, |r.sent| - |r.taken|;
    var walk := Around(r.buf, r.rd, r.wr);
    SizeIsOccupancy(r);
    WrapDistance(r.rd, r.wr, c);
    assert |walk| == n;
    forall m: nat | m < n ensures walk[m] == Contents(r)[m] {
      AroundAt(r.buf, r.rd, r.wr, m);
      var k := |r.taken| + m;
      assert r.buf[k % c] == r.sent[k];
      SameCell(|r.taken|, m, c);
    }
  }

  lemma SameCell(a: nat, m: nat, c: nat)
    requires c >= 1
    ensures (a % c + m) % c == (a + m) % c
  {
    var q, d := a / c, a % c + m;
    ModUnique(a + m, q + d / c, d % c, c);
    assert a + m == q * c + d == q * c + d / c * c + d % c == (q + d / c) * c + d % c;
  }

  lemma RunCons<T>(r: Ring<T>, e: Event<T>, rest: seq<Event<T>>)
    requires Bounds(r)
    ensures Bounds(Step(r, e)) && Run(r, [e] + rest) == Run(Step(r, e), rest)
  {
    StepBounds(r, e);
    assert ([e] + rest)[1..] == rest;
  }

  /** A push that nobody disturbs does to the ring what `Queue.Push` does to its fields. */
  lemma UndisturbedPush<T>(r: Ring<T>, item: T) returns (events: seq<Event<T>>)
    requires Inv(r) && r.prod.PIdle?
    ensures forall e | e in events :: e == Produce(item)
    ensures var t := Run(r, events);
            && t.prod.PIdle? && t.cons == r.cons && t.rd == r.rd
            && if |Around(r.buf, r.rd, r.wr)| < |r.buf| - 1
               then t.buf == r.buf[r.wr := item] && t.wr == (r.wr + 1) % |r.buf|
               else t.buf == r.buf && t.wr == r.wr
  {
    var e := Produce(item);
    ContentsAreCells(r);
    var a := Step(r, e);
    RefusesExactlyWhenFullOrEmpty(a, item);
    FullTest(r);
    if |Contents(r)| == |r.buf| - 1 {
      events := [e] + ([e] + []);
      RunCons(r, e, [e] + []);
      RunCons(a, e, []);
    } else {
      events := [e] + ([e] + ([e] + ([e] + [])));
      RunCons(r, e, [e] + ([e] + ([e] + [])));
      RunCons(a, e, [e] + ([e] + []));
      var b := Step(a, e);
      RunCons(b, e, [e] + []);
      RunCons(Step(b, e), e, []);
    }
  }

  /** And a pop what `Queue.Pop` does. */
  lemma UndisturbedPop<T>(r: Ring<T>) returns (events: seq<Event<T>>)
    requires Inv(r) && r.cons.CIdle?
    ensures forall e | e in events :: e == Consume
    ensures var t := Run(r, events);
            && t.cons.CIdle? && t.prod == r.prod && t.buf == r.buf && t.wr == r.wr
            && if Around(r.buf, r.rd, r.wr) == [] then t.rd == r.rd && t.taken == r.taken
               else t.rd == (r.rd + 1) % |r.buf| && t.taken == r.taken + [Around(r.buf, r.rd, r.wr)[0]]
  {
    var e: Event<T> := Consume;
    ContentsAreCells(r);
    var a := Step(r, e);
    ConsumerStepInv(r);
    if Contents(r) == [] {
      events := [e] + ([e] + []);
      RunCons(r, e, [e] + []);
      RunCons(a, e, []);
    } else {
      AroundAt(r.buf, r.rd, r.wr, 0);
      NotEmptyTest(r);
      events := [e] + ([e] + ([e] + ([e] + [])));
      RunCons(r, e, [e] + ([e] + ([e] + [])));
      RunCons(a, e, [e] + ([e] + []));
      var b := Step(a, e);
      RunCons(b, e, [e] + []);
      RunCons(Step(b, e), e, []);
    }
  }

  lemma NotEmptyTest<T>(r: Ring<T>)
    requires Inv(r) && |r.taken| < |r.sent|
    ensures r.rd != r.wr && Around(r.buf, r.rd, r.wr) != [] && Around(r.buf, r.rd, r.wr)[0] == r.buf[r.rd]
  {
    ContentsAreCells(r);
    ModApart(|r.taken|, |r.sent|, |r.buf|);
  }

  // ---------------------------------------------------------------- the object

  class Queue<T> {
    const buffer: array<T>
    var readPos: nat
    var writePos: nat

    ghost predicate Valid()
      reads this
    {
      buffer.Length >= 1 && readPos < buffer.Length && writePos < buffer.Length
    }

    /** The queued items, oldest first. */
    ghost function Items(): (s: seq<T>)
      requires Valid()
      reads this, buffer
      ensures |s| < buffer.Length
    {
      Around(buffer[..], readPos, writePos)
    }

    constructor (capacity: nat, blank: T)
      requires capacity >= 1
      ensures Valid() && fresh(buffer) && buffer.Length == capacity
      ensures Items() == []
    {
      buffer := new T[capacity](_ => blank);
      readPos := 0;
      writePos := 0;
    }

    method Push(item: T) returns (ok: bool)
      requires Valid()
      modifies this`writePos, buffer
      ensures Valid()
      ensures ok == (|old(Items())| < buffer.Length - 1)
      ensures Items() == if ok then old(Items()) + [item] else old(Items())
      ensures buffer[..] == if ok then old(buffer[..])[old(writePos) := item] else old(buffer[..])
    {
      var pos := writePos;
      var nextPos := (pos + 1) % buffer.Length;
      WrapNext(pos, buffer.Length);
      if nextPos == readPos {
        return false;
      }
      buffer[pos] := item;
      writePos := nextPos;
      return true;
    }

    /** The popped cell keeps its value. */
    method Pop() returns (item: Option<T>)
      requires Valid()
      modifies this`readPos
      ensures Valid()
      ensures item.None? <==> old(Items()) == []
      ensures old(Items()) == (if item.Some? then [item.value] else []) + Items()
      ensures unchanged(buffer)
    {
      var pos := readPos;
      if pos == writePos {
        return None;
      }
      item := Some(buffer[pos]);
      WrapNext(pos, buffer.Length);
      readPos := (pos + 1) % buffer.Length;
    }

    method Size() returns (n: nat)
      requires Valid()
      ensures n == |Items()|
    {
      WrapDistance(readPos, writePos, buffer.Length);
      n := (writePos - readPos + buffer.Length) % buffer.Length;
    }
  }

  /** PipelineQueue::push under DropOldest: the newest items win, in order. With capacity 1 the source
      would never leave its loop. */
  method PushDropOldest<T>(q: Queue<T>, item: T)
    requires q.Valid() && q.buffer.Length >= 2
    modifies q, q.buffer
    ensures q.Valid()
    ensures q.Items() == (if |old(q.Items())| == q.buffer.Length - 1 then old(q.Items())[1..] else old(q.Items())) + [item]
  {
    var ok := q.Push(item);
    while !ok
      invariant q.Valid()
      invariant !ok ==> q.Items() == old(q.Items()) && |q.Items()| == q.buffer.Length - 1
      invariant ok ==> q.Items() == (if |old(q.Items())| == q.buffer.Length - 1 then old(q.Items())[1..] else old(q.Items())) + [item]
      decreases !ok
    {
      var dummy := q.Pop();
      ok := q.Push(item);
    }
  }
}
