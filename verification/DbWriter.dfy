/** The batching database writer (gateway_core/DbWriter.cpp:79-150): the interleaving of the pushing thread with
    the database thread over the ring of module SpscQueue, and the same loops one call at a time. SQLite
    accepts every batch; a flushed batch is appended to a log. */
module DbWriter {
  import R = SpscQueue
  import opened Options

  const BATCH_SIZE: nat := 50

  // ---------------------------------------------------------------- the two threads

  /** Where the database thread stands. */
  datatype Db<T> =
    | Top                          // about to test running_
    | Waiting                      // in poll
    | Filling(batch: seq<T>)
    | Flushing(batch: seq<T>)
    | Draining(rest: seq<T>)       // the loop after the main loop
    | Last(rest: seq<T>)
    | Stopped

  /** sealed is a history: everything accepted when the final drain found the queue empty. */
  datatype Writer<T> = Writer(ring: R.Ring<T>, db: Db<T>, running: bool, batches: seq<seq<T>>, sealed: seq<T>)

  datatype Event<T> = Produce(item: T) | Db | Stop

  function Init<T>(capacity: nat, blank: T): Writer<T> {
    Writer(R.Init(capacity, blank), Top, true, [], [])
  }

  function DbStep<T>(w: Writer<T>): Writer<T>
    requires R.Bounds(w.ring)
  {
    match w.db
    case Top => w.(db := if w.running then Waiting else Draining([]))
    case Waiting => w.(db := Filling([]))
    case Filling(b) =>
      if w.ring.cons.CIdle? && |b| >= BATCH_SIZE then w.(db := Flushing(b))
      else
        w.(ring := R.ConsumerStep(w.ring),
           db := if w.ring.cons.CCopied? then Filling(b + [w.ring.cons.item])
                 else if !Fails(w.ring) then w.db
                 else if b == [] then Top else Flushing(b))
    case Flushing(b) => w.(batches := w.batches + [b], db := Top)
    case Draining(b) =>
      w.(ring := R.ConsumerStep(w.ring),
         db := if w.ring.cons.CCopied? then Draining(b + [w.ring.cons.item])
               else if Fails(w.ring) then Last(b) else w.db,
         sealed := if Fails(w.ring) then w.ring.sent else w.sealed)
    case Last(b) => w.(batches := if b == [] then w.batches else w.batches + [b], db := Stopped)
    case Stopped => w
  }

  /** The next access makes pop return false. */
  predicate Fails<T>(r: R.Ring<T>)
    requires R.Bounds(r)
  {
    r.cons.CLoaded? && R.ConsumerStep(r).cons.CIdle?
  }

  function Step<T>(w: Writer<T>, e: Event<T>): Writer<T>
    requires R.Bounds(w.ring)
  {
    match e
    case Produce(item) => w.(ring := R.ProducerStep(w.ring, item))
    case Db => DbStep(w)
    case Stop => w.(running := false)
  }

  // ---------------------------------------------------------------- invariant

  function Concat<T>(batches: seq<seq<T>>): seq<T> {
    if batches == [] then [] else Concat(batches[..|batches| - 1]) + batches[|batches| - 1]
  }

  function InHand<T>(db: Db<T>): seq<T> {
    match db
    case Filling(b) => b
    case Flushing(b) => b
    case Draining(b) => b
    case Last(b) => b
    case _ => []
  }

  predicate Sized<T>(batches: seq<seq<T>>) {
    forall i | 0 <= i < |batches| :: 1 <= |batches[i]| <= BATCH_SIZE
  }

  ghost predicate Inv<T>(w: Writer<T>) {
    && R.Inv(w.ring)
    && w.ring.taken == Concat(w.batches) + InHand(w.db)
    && DbInv(w)
  }

  ghost predicate DbInv<T>(w: Writer<T>) {
    && (!w.ring.cons.CIdle? ==> w.db.Filling? || w.db.Draining?)
    && (w.db.Filling? ==> |w.db.batch| <= BATCH_SIZE && (|w.db.batch| == BATCH_SIZE ==> w.ring.cons.CIdle?))
    && (w.db.Flushing? ==> 1 <= |w.db.batch| <= BATCH_SIZE)
    && (w.db.Last? || w.db.Stopped? ==> w.ring.taken == w.sealed <= w.ring.sent)
    && (!w.db.Stopped? ==> Sized(w.batches))
    && (w.db.Stopped? && w.batches != [] ==> Sized(w.batches[..|w.batches| - 1]))
    && (w.db.Draining? || w.db.Last? || w.db.Stopped? ==> !w.running)
  }

  lemma ConcatSnoc<T>(batches: seq<seq<T>>, b: seq<T>)
    ensures Concat(batches + [b]) == Concat(batches) + b
  {
    assert (batches + [b])[..|batches|] == batches;
  }

  lemma Regroup<T>(a: seq<T>, b: seq<T>)
    requires b != []
    ensures a + b == (a + [b[0]]) + b[1..]
  {
  }

  lemma FlushedMore<T>(w: Writer<T>, b: seq<T>)
    requires w.ring.taken == Concat(w.batches) + b
    ensures w.ring.taken == Concat(w.batches + [b]) + []
  {
    ConcatSnoc(w.batches, b);
  }

  lemma TookMore<T>(w: Writer<T>, b: seq<T>, x: T)
    requires w.ring.taken == Concat(w.batches) + b
    ensures w.ring.taken + [x] == Concat(w.batches) + (b + [x])
  {
  }

  lemma FillingInv<T>(w: Writer<T>)
    requires Inv(w) && w.db.Filling?
    ensures Inv(DbStep(w))
  {
    R.ConsumerStepInv(w.ring);
    if w.ring.cons.CCopied? { TookMore(w, w.db.batch, w.ring.cons.item); }
  }

  lemma DrainingInv<T>(w: Writer<T>)
    requires Inv(w) && w.db.Draining?
    ensures Inv(DbStep(w))
  {
    R.ConsumerStepInv(w.ring);
    if w.ring.cons.CCopied? { TookMore(w, w.db.rest, w.ring.cons.item); }
    if w.ring.cons.CLoaded? {
      R.RefusesExactlyWhenFullOrEmpty(w.ring, w.ring.buf[0]);
      assert w.ring.sent == w.ring.taken + R.Contents(w.ring);
    }
  }

  lemma FlushingInv<T>(w: Writer<T>)
    requires Inv(w) && w.db.Flushing?
    ensures Inv(DbStep(w))
  {
    FlushedMore(w, w.db.batch);
    assert Sized([w.db.batch]);
  }

  lemma LastInv<T>(w: Writer<T>)
    requires Inv(w) && w.db.Last?
    ensures Inv(DbStep(w))
  {
    FlushedMore(w, w.db.rest);
    AllButLast(w.batches, w.db.rest);
  }

  lemma AllButLast<T>(batches: seq<seq<T>>, b: seq<T>)
    requires Sized(batches)
    ensures (batches + [b])[..|batches|] == batches
    ensures batches != [] ==> Sized(batches[..|batches| - 1])
  {
  }

  lemma DbStepInv<T>(w: Writer<T>)
    requires Inv(w)
    ensures Inv(DbStep(w))
  {
    match w.db
    case Filling(b) => FillingInv(w);
    case Draining(b) => DrainingInv(w);
    case Flushing(b) => FlushingInv(w);
    case Last(b) => LastInv(w);
    case _ =>
  }

  lemma StepInv<T>(w: Writer<T>, e: Event<T>)
    requires Inv(w)
    ensures Inv(Step(w, e))
  {
    match e
    case Produce(item) => R.ProducerStepInv(w.ring, item);
    case Db => DbStepInv(w);
    case Stop =>
  }

  function Run<T>(w: Writer<T>, events: seq<Event<T>>): (r: Writer<T>)
    requires R.Bounds(w.ring)
    ensures R.Bounds(r.ring)
    decreases |events|
  {
    if events == [] then w
    else
      StepBounds(w, events[0]);
      Run(Step(w, events[0]), events[1..])
  }

  lemma StepBounds<T>(w: Writer<T>, e: Event<T>)
    requires R.Bounds(w.ring)
    ensures R.Bounds(Step(w, e).ring)
  {
  }

  lemma {:induction false} RunInv<T>(w: Writer<T>, events: seq<Event<T>>)
    requires Inv(w)
    ensures Inv(Run(w, events))
    decreases |events|
  {
    if events != [] {
      StepBounds(w, events[0]);
      StepInv(w, events[0]);
      RunInv(Step(w, events[0]), events[1..]);
    }
  }

  lemma InitInv<T>(capacity: nat, blank: T)
    requires capacity >= 1
    ensures Inv(Init(capacity, blank))
  {
    R.InitInv(capacity, blank);
  }

  // ---------------------------------------------------------------- what it means

  /** Over every run, what was accepted is what was flushed, then what the database thread holds, then what is
      queued: nothing lost, nothing twice, nothing out of order. */
  lemma NothingLost<T>(capacity: nat, blank: T, events: seq<Event<T>>)
    requires capacity >= 1
    ensures var w := Run(Init(capacity, blank), events);
            && |w.ring.taken| <= |w.ring.sent|
            && w.ring.sent == Concat(w.batches) + InHand(w.db) + R.Contents(w.ring)
  {
    InitInv(capacity, blank);
    RunInv(Init(capacity, blank), events);
  }

  /** Every batch but the one of the final drain holds 1 to 50 records. */
  lemma BatchesAreSmall<T>(capacity: nat, blank: T, events: seq<Event<T>>)
    requires capacity >= 1
    ensures var w := Run(Init(capacity, blank), events);
            && (!w.db.Stopped? ==> Sized(w.batches))
            && (w.db.Stopped? && w.batches != [] ==> Sized(w.batches[..|w.batches| - 1]))
  {
    InitInv(capacity, blank);
    RunInv(Init(capacity, blank), events);
  }

  /** When the thread has ended, every accepted record was flushed exactly once and in order, if and only if
      none was accepted after the final drain found the queue empty. */
  lemma FlushedIffQuiet<T>(capacity: nat, blank: T, events: seq<Event<T>>)
    requires capacity >= 1 && Run(Init(capacity, blank), events).db.Stopped?
    ensures var w := Run(Init(capacity, blank), events);
            Concat(w.batches) == w.ring.sent <==> w.ring.sent == w.sealed
  {
    InitInv(capacity, blank);
    RunInv(Init(capacity, blank), events);
  }

  lemma RunCons<T>(w: Writer<T>, e: Event<T>, rest: seq<Event<T>>)
    requires R.Bounds(w.ring)
    ensures R.Bounds(Step(w, e).ring) && Run(w, [e] + rest) == Run(Step(w, e), rest)
  {
    StepBounds(w, e);
    assert ([e] + rest)[1..] == rest;
  }

  /** Stop before anything was pushed: the thread drains nothing and ends. */
  lemma EndAtOnce<T>(capacity: nat, blank: T) returns (events: seq<Event<T>>)
    requires capacity >= 1
    ensures Run(Init(capacity, blank), events) == Init(capacity, blank).(running := false, db := Stopped)
  {
    var w := Init(capacity, blank);
    events := [Stop] + ([Db] + ([Db] + ([Db] + ([Db] + []))));
    RunCons(w, Stop, [Db] + ([Db] + ([Db] + ([Db] + []))));
    var a := Step(w, Stop);
    RunCons(a, Db, [Db] + ([Db] + ([Db] + [])));
    var b := a.(db := Draining([]));
    RunCons(b, Db, [Db] + ([Db] + []));
    var c := b.(ring := b.ring.(cons := R.CLoaded(0)));
    RunCons(c, Db, [Db] + []);
    var d := a.(db := Last([]));
    assert Step(c, Db) == d;
    RunCons(d, Db, []);
  }

  /** A whole push into an empty ring. */
  lemma PushAfterEnd<T>(w: Writer<T>, x: T) returns (events: seq<Event<T>>)
    requires Inv(w) && w.db.Stopped? && w.ring.sent == [] && w.ring.prod.PIdle? && |w.ring.buf| >= 2 && w.batches == []
    ensures Run(w, events).db.Stopped? && Run(w, events).ring.sent == [x] && Run(w, events).batches == []
  {
    var p := Produce(x);
    var pos := w.ring.wr;
    R.RefusesExactlyWhenFullOrEmpty(w.ring.(prod := R.PLoaded(x, pos)), x);
    events := [p] + ([p] + ([p] + ([p] + [])));
    RunCons(w, p, [p] + ([p] + ([p] + [])));
    var a := w.(ring := w.ring.(prod := R.PLoaded(x, pos)));
    assert Step(w, p) == a;
    RunCons(a, p, [p] + ([p] + []));
    var b := w.(ring := w.ring.(prod := R.PRoom(x, pos)));
    assert Step(a, p) == b;
    RunCons(b, p, [p] + []);
    RunCons(Step(b, p), p, []);
  }

  lemma {:induction false} RunConcat<T>(w: Writer<T>, a: seq<Event<T>>, b: seq<Event<T>>)
    requires R.Bounds(w.ring)
    ensures Run(w, a + b) == Run(Run(w, a), b)
    decreases |a|
  {
    if a == [] {
      assert a + b == b;
    } else {
      StepBounds(w, a[0]);
      assert (a + b)[1..] == a[1..] + b;
      RunConcat(Step(w, a[0]), a[1..], b);
    }
  }

  /** It does happen: after stop a push is accepted, and its record is never written. */
  lemma LatePushIsStranded<T>(capacity: nat, blank: T, x: T) returns (events: seq<Event<T>>)
    requires capacity >= 2
    ensures var w := Run(Init(capacity, blank), events);
            && w.db.Stopped? && w.ring.sent == [x] && Concat(w.batches) == []
            && forall n: nat :: Concat(DbSteps(w, n).batches) == []
  {
    InitInv(capacity, blank);
    var before := EndAtOnce(capacity, blank);
    RunInv(Init(capacity, blank), before);
    var w := Run(Init(capacity, blank), before);
    var push := PushAfterEnd(w, x);
    events := before + push;
    RunConcat(Init(capacity, blank), before, push);
    forall n: nat ensures Concat(DbSteps(Run(w, push), n).batches) == [] {
      StaysStopped(Run(w, push), n);
    }
  }

  // ---------------------------------------------------------------- stop returns

  function Weight<T>(db: Db<T>): nat {
    match db
    case Waiting => 50
    case Filling(_) => 40
    case Flushing(_) => 30
    case Top => 20
    case Draining(_) => 10
    case Last(_) => 1
    case Stopped => 0
  }

  function Phase<T>(c: R.Consumer<T>): nat {
    match c
    case CIdle => 4
    case CLoaded(_) => 3
    case CData(_) => 2
    case CCopied(_, _) => 1
  }

  /** Database steps left once pushing has ceased. */
  function Left<T>(w: Writer<T>): nat
    requires |w.ring.taken| <= |w.ring.sent|
  {
    Weight(w.db) + Phase(w.ring.cons) + 10 * |R.Contents(w.ring)|
  }

  lemma StopAdvances<T>(w: Writer<T>)
    requires Inv(w) && !w.running && !w.db.Stopped?
    ensures Inv(DbStep(w)) && Left(DbStep(w)) < Left(w)
  {
    DbStepInv(w);
  }

  function DbSteps<T>(w: Writer<T>, n: nat): Writer<T>
    requires R.Bounds(w.ring)
    decreases n
  {
    if n == 0 then w else StepBounds(w, Db); DbSteps(DbStep(w), n - 1)
  }

  /** Nothing was accepted since the final drain found the queue empty. */
  ghost predicate Sealed<T>(w: Writer<T>) {
    w.db.Last? || w.db.Stopped? ==> w.sealed == w.ring.sent
  }

  /** Once running_ is false and nothing more is pushed, the thread ends within Left(w) steps, with everything
      flushed: stop returns. */
  lemma {:induction false} StopFlushesAll<T>(w: Writer<T>, n: nat)
    requires Inv(w) && !w.running && n >= Left(w) && Sealed(w)
    ensures DbSteps(w, n).db.Stopped? && Concat(DbSteps(w, n).batches) == w.ring.sent
    decreases n
  {
    if w.db.Stopped? {
      StaysStopped(w, n);
    } else {
      var t := DbStep(w);
      StopAdvances(w);
      StopFlushesAll(t, n - 1);
      assert DbSteps(w, n) == DbSteps(t, n - 1);
    }
  }

  lemma {:induction false} StaysStopped<T>(w: Writer<T>, n: nat)
    requires R.Bounds(w.ring) && w.db.Stopped?
    ensures DbSteps(w, n) == w
    decreases n
  {
    if n > 0 { StaysStopped(w, n - 1); }
  }

  // ---------------------------------------------------------------- a pass left alone

  lemma {:induction false} StepsAfter<T>(w: Writer<T>, m: nat, n: nat)
    requires R.Bounds(w.ring)
    ensures R.Bounds(DbSteps(w, m).ring) && DbSteps(w, m + n) == DbSteps(DbSteps(w, m), n)
    decreases m
  {
    if m > 0 {
      StepBounds(w, Db);
      StepsAfter(DbStep(w), m - 1, n);
    }
  }

  /** Between two accesses of its loop, with batch b in hand. */
  ghost predicate FillsAt<T>(w: Writer<T>, b: seq<T>) {
    Inv(w) && w.db == Filling(b) && w.ring.cons.CIdle?
  }

  /** Everything but the queue, the consumer and the place in the loop. */
  ghost predicate SameElse<T>(w: Writer<T>, t: Writer<T>) {
    t.running == w.running && t.sealed == w.sealed && t.ring.sent == w.ring.sent && t.ring.prod == w.ring.prod
  }

  lemma {:induction false} StepsInv<T>(w: Writer<T>, n: nat)
    requires Inv(w)
    ensures Inv(DbSteps(w, n))
    decreases n
  {
    if n > 0 {
      DbStepInv(w);
      StepsInv(DbStep(w), n - 1);
    }
  }

  lemma FourSteps<T>(w: Writer<T>, b: seq<T>, x: T)
    requires R.Bounds(w.ring) && w.db == Filling(b) && |b| < BATCH_SIZE
    requires w.ring.cons.CIdle? && w.ring.rd != w.ring.wr && w.ring.buf[w.ring.rd] == x
    ensures DbSteps(w, 4)
         == w.(ring := w.ring.(rd := (w.ring.rd + 1) % |w.ring.buf|, taken := w.ring.taken + [x]), db := Filling(b + [x]))
  {
    var a := DbStep(w);
    var c := DbStep(a);
    var d := DbStep(c);
    assert DbSteps(w, 4) == DbSteps(a, 3) == DbSteps(c, 2) == DbSteps(d, 1) == DbSteps(DbStep(d), 0);
  }

  /** A pop that finds a record. */
  lemma TakesOne<T>(w: Writer<T>, b: seq<T>)
    requires FillsAt(w, b) && |b| < BATCH_SIZE && R.Contents(w.ring) != []
    ensures var t := DbSteps(w, 4);
            && FillsAt(t, b + [R.Contents(w.ring)[0]]) && R.Contents(t.ring) == R.Contents(w.ring)[1..]
            && t.batches == w.batches && SameElse(w, t)
  {
    R.NotEmptyTest(w.ring);
    R.ContentsAreCells(w.ring);
    FourSteps(w, b, R.Contents(w.ring)[0]);
    StepsInv(w, 4);
  }

  /** A pop that finds none. */
  lemma FindsNone<T>(w: Writer<T>, b: seq<T>)
    requires FillsAt(w, b) && |b| < BATCH_SIZE && R.Contents(w.ring) == []
    ensures var t := DbSteps(w, 2);
            && R.Bounds(t.ring) && t.db == (if b == [] then Top else Flushing(b)) && t.ring == w.ring
            && t.batches == w.batches && SameElse(w, t)
  {
    DbStepInv(w);
    var a := DbStep(w);
    assert DbSteps(w, 2) == DbSteps(a, 1) == DbSteps(DbStep(a), 0);
  }

  /** What a pass makes of a queue. */
  function FirstBatch<T>(all: seq<T>): seq<T> {
    if |all| < BATCH_SIZE then all else all[..BATCH_SIZE]
  }

  /** At t the pass that held batch b at w is over: up to 50 records have become a batch, the rest is queued. */
  ghost predicate PassOver<T>(w: Writer<T>, b: seq<T>, t: Writer<T>) {
    && R.Bounds(w.ring) && |w.ring.taken| <= |w.ring.sent| && |t.ring.taken| <= |t.ring.sent|
    && t.db.Top? && t.ring.cons.CIdle? && SameElse(w, t)
    && var all := b + R.Contents(w.ring);
       && R.Contents(t.ring) == all[|FirstBatch(all)|..]
       && t.batches == if all == [] then w.batches else w.batches + [FirstBatch(all)]
  }

  lemma FullBatch<T>(w: Writer<T>, b: seq<T>)
    requires FillsAt(w, b) && |b| == BATCH_SIZE
    ensures PassOver(w, b, DbSteps(w, 2))
  {
    assert DbSteps(w, 2) == DbSteps(DbStep(w), 1) == DbSteps(DbStep(DbStep(w)), 0);
    assert (b + R.Contents(w.ring))[..BATCH_SIZE] == b;
  }

  lemma QueueEmptied<T>(w: Writer<T>, b: seq<T>) returns (n: nat)
    requires FillsAt(w, b) && |b| < BATCH_SIZE && R.Contents(w.ring) == []
    ensures PassOver(w, b, DbSteps(w, n))
  {
    FindsNone(w, b);
    n := if b == [] then 2 else 3;
    StepsAfter(w, 2, 1);
    assert b + [] == b;
  }

  lemma OneTaken<T>(w: Writer<T>, b: seq<T>, v: Writer<T>, t: Writer<T>)
    requires FillsAt(w, b) && R.Contents(w.ring) != [] && SameElse(w, v) && v.batches == w.batches
    requires |v.ring.taken| <= |v.ring.sent| && R.Contents(v.ring) == R.Contents(w.ring)[1..]
    requires PassOver(v, b + [R.Contents(w.ring)[0]], t)
    ensures PassOver(w, b, t)
  {
    Regroup(b, R.Contents(w.ring));
  }

  /** The thread left alone fills its batch from the queue, up to 50 records, and flushes it unless it is empty. */
  lemma {:induction false} FillsAlone<T>(w: Writer<T>, b: seq<T>) returns (n: nat)
    requires FillsAt(w, b)
    ensures PassOver(w, b, DbSteps(w, n))
    decreases BATCH_SIZE - |b|
  {
    if |b| == BATCH_SIZE {
      FullBatch(w, b);
      n := 2;
    } else if R.Contents(w.ring) == [] {
      n := QueueEmptied(w, b);
    } else {
      TakesOne(w, b);
      var v := DbSteps(w, 4);
      var m := FillsAlone(v, b + [R.Contents(w.ring)[0]]);
      StepsAfter(w, 4, m);
      n := 4 + m;
      OneTaken(w, b, v, DbSteps(v, m));
    }
  }

  /** From poll on: what `DbThread.Pass` promises. */
  lemma UndisturbedPass<T>(w: Writer<T>) returns (n: nat)
    requires Inv(w) && w.db.Waiting?
    ensures var t, all := DbSteps(w, n), R.Contents(w.ring);
            && t.db.Top? && t.running == w.running && t.ring.sent == w.ring.sent && |t.ring.taken| <= |t.ring.sent|
            && R.Contents(t.ring) == all[|FirstBatch(all)|..]
            && t.batches == if all == [] then w.batches else w.batches + [FirstBatch(all)]
  {
    DbStepInv(w);
    var m := FillsAlone(DbStep(w), []);
    StepsAfter(w, 1, m);
    assert [] + R.Contents(w.ring) == R.Contents(w.ring);
    assert DbSteps(w, 1) == DbSteps(DbStep(w), 0) == DbStep(w);
    n := 1 + m;
  }

  // ---------------------------------------------------------------- the code, one call at a time

  class DbThread<T> {
    const queue: R.Queue<T>
    var wakeups: nat              // writes to the eventfd
    var flushed: seq<seq<T>>      // batches handed to SQLite

    ghost predicate Valid()
      reads this, queue
    {
      queue.Valid()
    }

    constructor (capacity: nat, blank: T)
      requires capacity >= 1
      ensures Valid() && fresh(queue) && queue.buffer.Length == capacity
      ensures queue.Items() == [] && wakeups == 0 && flushed == []
    {
      queue := new R.Queue(capacity, blank);
      wakeups, flushed := 0, [];
    }

    /** push: wakes the thread early when a batch is waiting. */
    method Push(record: T) returns (ok: bool)
      requires Valid()
      modifies this`wakeups, queue, queue.buffer
      ensures Valid()
      ensures ok == (|old(queue.Items())| < queue.buffer.Length - 1)
      ensures queue.Items() == if ok then old(queue.Items()) + [record] else old(queue.Items())
      ensures wakeups == old(wakeups) + if ok && |queue.Items()| >= BATCH_SIZE then 1 else 0
    {
      ok := queue.Push(record);
      if !ok {
        return;
      }
      var n := queue.Size();
      if n >= BATCH_SIZE {
        wakeups := wakeups + 1;
      }
    }

    /** One pass of the main loop: up to 50 of the oldest records become a batch. */
    method Pass()
      requires Valid()
      modifies this`flushed, queue
      ensures Valid()
      ensures var all := old(queue.Items());
              var n := if |all| < BATCH_SIZE then |all| else BATCH_SIZE;
              && queue.Items() == all[n..]
              && flushed == if n == 0 then old(flushed) else old(flushed) + [all[..n]]
    {
      var batch := TakeUpTo(BATCH_SIZE);
      if batch == [] {
        return;
      }
      flushed := flushed + [batch];
    }

    /** pop, with what it leaves. */
    method TakeOne(ghost left: seq<T>) returns (next: Option<T>)
      requires Valid() && left == queue.Items()
      modifies queue
      ensures Valid()
      ensures left == [] ==> next == None && queue.Items() == []
      ensures left != [] ==> next == Some(left[0]) && queue.Items() == left[1..]
    {
      next := queue.Pop();
      if left != [] {
        ghost var after := queue.Items();
        assert left == [next.value] + after;
      }
    }

    /** The loop that fills a batch. */
    method TakeUpTo(limit: nat) returns (batch: seq<T>)
      requires Valid()
      modifies queue
      ensures Valid() && old(queue.Items()) == batch + queue.Items()
      ensures |batch| <= limit && (|batch| < limit ==> queue.Items() == [])
    {
      batch := [];
      ghost var all, left := queue.Items(), queue.Items();
      while |batch| < limit
        invariant Valid() && left == queue.Items() && all == batch + left
        invariant |batch| <= limit
        decreases limit - |batch|
      {
        var next := TakeOne(left);
        if next.None? {
          return;
        }
        Regroup(batch, left);
        batch := batch + [next.value];
        left := left[1..];
      }
    }

    /** The end of the thread: everything left becomes one last batch, however large. */
    method Finish()
      requires Valid()
      modifies this`flushed, queue
      ensures Valid() && queue.Items() == []
      ensures flushed == if old(queue.Items()) == [] then old(flushed) else old(flushed) + [old(queue.Items())]
      ensures Concat(flushed) == Concat(old(flushed)) + old(queue.Items())
    {
      var rest := DrainAll();
      if rest != [] {
        ConcatSnoc(flushed, rest);
        flushed := flushed + [rest];
      } else {
        assert Concat(flushed) == Concat(flushed) + [];
      }
    }

    method DrainAll() returns (rest: seq<T>)
      requires Valid()
      modifies queue
      ensures Valid() && queue.Items() == [] && rest == old(queue.Items())
    {
      rest := [];
      ghost var all, left := queue.Items(), queue.Items();
      var next := TakeOne(left);
      while next.Some?
        invariant Valid() && all == rest + left
        invariant next.None? ==> left == [] == queue.Items()
        invariant next.Some? ==> left != [] && next.value == left[0] && queue.Items() == left[1..]
        decreases |left|, next
      {
        Regroup(rest, left);
        rest := rest + [next.value];
        left := left[1..];
        next := TakeOne(left);
      }
    }
  }
}
