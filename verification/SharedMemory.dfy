/** The ping-pong shared memory of gateway_core/ShmPublisher.cpp and common/ShmReader.cpp: two blocks, a
    sequence counter for each (odd while the block is being written), and the index of the readable block.

    `State` with `Step` is the region under one publisher and any number of readers; a step is one access
    to shared memory, and blocks are copied word by word. `pubs` lists what was published: pubs[0] is the
    zero block of the fresh region, pubs[k] the block of the k-th publish. Classes `Region` and
    `RegionReader` are the objects. */
module SharedMemory {

  import opened Options

  const WRAP := 0x1_0000_0000   // the counters are uint32_t
  const RETRIES := 4

  type Block = seq<int>

  datatype Writer =
    | WIdle
    | WIndex(block: Block, target: nat)                    // read_index loaded
    | WSeq(block: Block, target: nat, cur: nat)            // counter loaded
    | WCopy(block: Block, target: nat, cur: nat, i: nat)   // counter odd, i words written
    | WEven(block: Block, target: nat)                     // counter even again, read_index is stored next

  /** A reader inside `read`. History: `floor` is the last committed publication when the call began,
      `began` the number of reads that had returned by then, `seen` the last committed publication when
      read_index was loaded, `count` the number of counter steps of the block when s1 was loaded. */
  datatype Reader =
    | RIdle
    | RStart(retry: nat, floor: nat, began: nat)
    | RIndex(retry: nat, floor: nat, began: nat, idx: nat, seen: nat)
    | RCopy(retry: nat, floor: nat, began: nat, idx: nat, seen: nat, s1: nat, count: nat, out: Block)

  /** A read that returned. `version` is the publication it stands for, `ceiling` the last one started when
      it returned, `lap` how far the block's counter moved between the two looks at it. */
  datatype Return =
    | Got(out: Block, version: nat, floor: nat, ceiling: nat, began: nat, lap: int)
    | GaveUp(floor: nat, ceiling: nat, began: nat)

  datatype State = State(
    buf: seq<Block>, seqs: seq<nat>, index: nat,
    writer: Writer, readers: seq<Reader>,
    pubs: seq<Block>, committed: nat, count: seq<nat>, log: seq<Return>)

  datatype Event = Write(block: Block) | Read(j: nat)

  function Zeros(n: nat): Block {
    seq(n, _ => 0)
  }

  /** A fresh region of blocks of n words, with m readers. */
  function Init(n: nat, m: nat): State {
    State([Zeros(n), Zeros(n)], [0, 0], 0, WIdle, seq(m, _ => RIdle), [Zeros(n)], 0, [0, 0], [])
  }

  predicate Shape(s: State) {
    && |s.buf| == |s.seqs| == |s.count| == 2 && |s.buf[0]| == |s.buf[1]|
    && s.index < 2 && |s.pubs| >= 1
    && (!s.writer.WIdle? ==> s.writer.target < 2 && |s.writer.block| == |s.buf[0]|)
    && (s.writer.WCopy? ==> s.writer.i <= |s.buf[0]|)
    && (forall j | 0 <= j < |s.readers| :: ReaderShape(s.readers[j], |s.buf[0]|))
  }

  predicate ReaderShape(r: Reader, n: nat) {
    && (r.RIndex? || r.RCopy? ==> r.idx < 2)
    && (r.RCopy? ==> |r.out| <= n)
  }

  /** The publication that block idx carries once its counter has made `count` steps. */
  function Version(idx: nat, count: nat): nat {
    if count >= idx then count - idx else 0
  }

  function Started(s: State): nat
    requires |s.pubs| >= 1
  {
    |s.pubs| - 1
  }

  /** One access of the publisher; `block` matters only when it enters `publish`. */
  function WriterStep(s: State, block: Block): State
    requires Shape(s)
  {
    match s.writer
    case WIdle =>
      if |block| != |s.buf[0]| then s
      else s.(writer := WIndex(block, 1 - s.index), pubs := s.pubs + [block])
    case WIndex(b, t) => s.(writer := WSeq(b, t, s.seqs[t]))
    case WSeq(b, t, cur) => s.(seqs := s.seqs[t := (cur + 1) % WRAP], count := s.count[t := s.count[t] + 1], writer := WCopy(b, t, cur, 0))
    case WCopy(b, t, cur, i) =>
      if i < |b| then s.(buf := s.buf[t := s.buf[t][i := b[i]]], writer := WCopy(b, t, cur, i + 1))
      else s.(seqs := s.seqs[t := (cur + 2) % WRAP], count := s.count[t := s.count[t] + 1], writer := WEven(b, t))
    case WEven(b, t) => s.(index := t, committed := Started(s), writer := WIdle)
  }

  /** The attempt failed: try again, or give up after the fourth. */
  function Retry(s: State, j: nat, retry: nat, floor: nat, began: nat): State
    requires j < |s.readers| && Shape(s)
  {
    if retry + 1 < RETRIES then s.(readers := s.readers[j := RStart(retry + 1, floor, began)])
    else s.(readers := s.readers[j := RIdle], log := s.log + [GaveUp(floor, Started(s), began)])
  }

  /** One access of reader j. */
  function ReaderStep(s: State, j: nat): State
    requires Shape(s) && j < |s.readers|
  {
    match s.readers[j]
    case RIdle => s.(readers := s.readers[j := RStart(0, s.committed, |s.log|)])
    case RStart(retry, floor, began) => s.(readers := s.readers[j := RIndex(retry, floor, began, s.index, s.committed)])
    case RIndex(retry, floor, began, idx, seen) =>
      if s.seqs[idx] % 2 == 1 then Retry(s, j, retry, floor, began)
      else s.(readers := s.readers[j := RCopy(retry, floor, began, idx, seen, s.seqs[idx], s.count[idx], [])])
    case RCopy(retry, floor, began, idx, seen, s1, count, out) =>
      if |out| < |s.buf[idx]| then
        s.(readers := s.readers[j := RCopy(retry, floor, began, idx, seen, s1, count, out + [s.buf[idx][|out|]])])
      else if s1 == s.seqs[idx] && s.seqs[idx] % 2 == 0 then
        s.(readers := s.readers[j := RIdle],
           log := s.log + [Got(out, Version(idx, count), floor, Started(s), began, s.count[idx] - count)])
      else Retry(s, j, retry, floor, began)
  }

  function Step(s: State, e: Event): State
    requires Shape(s)
  {
    match e
    case Write(block) => WriterStep(s, block)
    case Read(j) => if j < |s.readers| then ReaderStep(s, j) else s
  }

  // ---------------------------------------------------------------- the invariant

  /** The publisher owns the block that is not being offered. */
  ghost predicate WriterInv(s: State)
    requires Shape(s)
  {
    var b := s.index;
    var o := 1 - b;
    && b == s.committed % 2
    && s.seqs[0] == s.count[0] % WRAP && s.seqs[1] == s.count[1] % WRAP
    && (forall k | 0 <= k < |s.pubs| :: |s.pubs[k]| == |s.buf[0]|)
    && s.committed <= Started(s) == s.committed + (if s.writer.WIdle? then 0 else 1)
    && s.count[b] == s.committed + b && s.buf[b] == s.pubs[s.committed]
    && (!s.writer.WIdle? ==> s.writer.target == o && s.writer.block == s.pubs[Started(s)])
    && s.count[o] == s.committed + o + (if s.writer.WCopy? then 0 else if s.writer.WEven? then 1 else -1)
    && (match s.writer
        case WCopy(block, _, cur, i) => (cur + 1) % WRAP == s.seqs[o] && s.buf[o][..i] == block[..i]
        case WEven(block, _) => s.buf[o] == block
        case WSeq(_, _, cur) => cur == s.seqs[o] && (s.committed >= 1 ==> s.buf[o] == s.pubs[s.committed - 1])
        case _ => s.committed >= 1 ==> s.buf[o] == s.pubs[s.committed - 1])
  }

  /** While the counter has not moved since s1, what was copied is a prefix of one publication. */
  ghost predicate ReaderInv(s: State, r: Reader)
    requires Shape(s) && ReaderShape(r, |s.buf[0]|)
  {
    match r
    case RIdle => true
    case RStart(retry, floor, began) => retry < RETRIES && floor + retry <= s.committed && Settled(s.log, floor, began)
    case RIndex(retry, floor, began, idx, seen) =>
      && retry < RETRIES && floor + retry <= seen <= s.committed && idx == seen % 2 && Settled(s.log, floor, began)
    case RCopy(retry, floor, began, idx, seen, s1, count, out) =>
      && retry < RETRIES && floor + retry <= seen <= s.committed && idx == seen % 2 && Settled(s.log, floor, began)
      && count % 2 == 0 && s1 == count % WRAP && idx <= count <= s.count[idx]
      && seen <= Version(idx, count) <= Started(s)
      && (s.count[idx] == count ==> out <= s.pubs[Version(idx, count)])
  }

  /** Reads that had returned before this one began saw at most one publication more than `floor`. */
  ghost predicate Settled(log: seq<Return>, floor: nat, began: nat) {
    began <= |log| && forall i | 0 <= i < began :: log[i].ceiling <= floor + 1
  }

  ghost predicate ReturnInv(s: State, e: Return)
    requires Shape(s)
  {
    && e.ceiling <= Started(s) && Settled(s.log, e.floor, e.began)
    && match e
       case Got(out, version, floor, ceiling, began, lap) =>
         && floor <= version <= ceiling
         && lap >= 0 && lap % WRAP == 0
         && (lap < WRAP ==> out == s.pubs[version])
       case GaveUp(floor, ceiling, began) => ceiling >= floor + 1 + RETRIES
  }

  ghost predicate Inv(s: State) {
    && Shape(s) && WriterInv(s)
    && (forall j | 0 <= j < |s.readers| :: ReaderInv(s, s.readers[j]))
    && (forall i | 0 <= i < |s.log| :: ReturnInv(s, s.log[i]))
  }

  lemma InitInv(n: nat, m: nat)
    ensures Inv(Init(n, m))
  {
  }

  // ---------------------------------------------------------------- publisher steps

  /** Counting on modulo 2^32. */
  lemma CounterStep(cur: nat, count: nat)
    requires cur % WRAP == count % WRAP
    ensures (cur + 1) % WRAP == (count + 1) % WRAP
  {
  }

  lemma CounterParity(count: nat)
    ensures (count % WRAP) % 2 == count % 2
  {
  }

  lemma WordKeepsWriterInv(s: State, block: Block)
    requires Shape(s) && WriterInv(s) && s.writer.WCopy? && s.writer.i < |s.writer.block|
    ensures Shape(WriterStep(s, block)) && WriterInv(WriterStep(s, block))
  {
    var s' := WriterStep(s, block);
    var b, t, i := s.writer.block, s.writer.target, s.writer.i;
    assert s'.buf[t][..i + 1] == s.buf[t][..i] + [b[i]] == b[..i + 1];
  }

  lemma EvenKeepsWriterInv(s: State, block: Block)
    requires Shape(s) && WriterInv(s) && s.writer.WCopy? && s.writer.i == |s.writer.block|
    ensures Shape(WriterStep(s, block)) && WriterInv(WriterStep(s, block))
  {
    var b, t, i := s.writer.block, s.writer.target, s.writer.i;
    CounterStep(s.writer.cur + 1, s.count[t]);
    assert s.buf[t] == s.buf[t][..i] == b[..i] == b;
  }

  lemma OddKeepsWriterInv(s: State, block: Block)
    requires Shape(s) && WriterInv(s) && s.writer.WSeq?
    ensures Shape(WriterStep(s, block)) && WriterInv(WriterStep(s, block))
  {
    CounterStep(s.writer.cur, s.count[s.writer.target]);
  }

  lemma CommitKeepsWriterInv(s: State, block: Block)
    requires Shape(s) && WriterInv(s) && s.writer.WEven?
    ensures Shape(WriterStep(s, block)) && WriterInv(WriterStep(s, block))
  {
  }

  lemma EnterKeepsWriterInv(s: State, block: Block)
    requires Shape(s) && WriterInv(s) && (s.writer.WIdle? || s.writer.WIndex?)
    ensures Shape(WriterStep(s, block)) && WriterInv(WriterStep(s, block))
  {
  }

  lemma WriterKeepsWriterInv(s: State, block: Block)
    requires Shape(s) && WriterInv(s)
    ensures Shape(WriterStep(s, block)) && WriterInv(WriterStep(s, block))
  {
    match s.writer
    case WCopy(b, _, _, i) => if i < |b| { WordKeepsWriterInv(s, block); } else { EvenKeepsWriterInv(s, block); }
    case WIdle => EnterKeepsWriterInv(s, block);
    case WIndex(_, _) => EnterKeepsWriterInv(s, block);
    case WSeq(_, _, _) => OddKeepsWriterInv(s, block);
    case WEven(_, _) => CommitKeepsWriterInv(s, block);
  }

  /** What a publisher step never undoes. */
  ghost predicate Later(s: State, s': State)
    requires Shape(s) && Shape(s')
  {
    && s.pubs <= s'.pubs && s.committed <= s'.committed && s.log <= s'.log && |s.buf[0]| == |s'.buf[0]|
    && s.count[0] <= s'.count[0] && s.count[1] <= s'.count[1]
  }

  lemma LaterKeepsReader(s: State, s': State, r: Reader)
    requires Shape(s) && Shape(s') && Later(s, s') && ReaderShape(r, |s.buf[0]|) && ReaderInv(s, r)
    ensures ReaderShape(r, |s'.buf[0]|) && ReaderInv(s', r)
  {
  }

  lemma LaterKeepsReturn(s: State, s': State, e: Return)
    requires Shape(s) && Shape(s') && Later(s, s') && ReturnInv(s, e)
    ensures ReturnInv(s', e)
  {
  }

  lemma WriterKeepsInv(s: State, block: Block)
    requires Inv(s)
    ensures Inv(WriterStep(s, block))
  {
    WriterKeepsWriterInv(s, block);
    var s' := WriterStep(s, block);
    forall j | 0 <= j < |s'.readers| ensures ReaderInv(s', s'.readers[j]) {
      LaterKeepsReader(s, s', s.readers[j]);
    }
    forall i | 0 <= i < |s'.log| ensures ReturnInv(s', s'.log[i]) {
      LaterKeepsReturn(s, s', s.log[i]);
    }
  }

  // ---------------------------------------------------------------- reader steps

  /** A block whose counter is even holds exactly the publication its counter stands for. */
  lemma EvenMeansWhole(s: State, idx: nat, seen: nat)
    requires Shape(s) && WriterInv(s) && idx < 2 && idx == seen % 2 && seen <= s.committed && s.count[idx] % 2 == 0
    ensures idx <= s.count[idx] && seen <= Version(idx, s.count[idx]) <= Started(s)
    ensures s.buf[idx] == s.pubs[Version(idx, s.count[idx])]
  {
  }

  /** If a look at the counter fails, a publication was committed since read_index was loaded, and another
      one started. */
  lemma FailureMeansPublished(s: State, idx: nat, seen: nat)
    requires Shape(s) && WriterInv(s) && idx < 2 && idx == seen % 2 && seen <= s.committed
    requires s.count[idx] % 2 == 1 || s.count[idx] >= seen + idx + 1
    ensures Started(s) >= seen + 2
  {
  }

  lemma EqualModulo(a: nat, b: nat)
    requires a <= b && a % WRAP == b % WRAP
    ensures (b - a) % WRAP == 0
  {
  }

  /** What a reader step changes: its own state, and the log by at most the read that returned. */
  lemma OtherReadersUnaffected(s: State, s': State, j: nat)
    requires Inv(s) && Shape(s') && j < |s.readers|
    requires |s'.readers| == |s.readers| && s' == s.(readers := s.readers[j := s'.readers[j]], log := s'.log)
    requires ReaderInv(s', s'.readers[j])
    requires s'.log == s.log || (|s'.log| == |s.log| + 1 && s.log <= s'.log && ReturnInv(s', s'.log[|s.log|]))
    ensures Inv(s')
  {
    forall k | 0 <= k < |s'.readers| ensures ReaderInv(s', s'.readers[k]) {
      if k != j { LaterKeepsReader(s, s', s.readers[k]); }
    }
    forall i | 0 <= i < |s'.log| ensures ReturnInv(s', s'.log[i]) {
      if i < |s.log| { LaterKeepsReturn(s, s', s.log[i]); }
    }
  }

  lemma RetryKeepsInv(s: State, j: nat, retry: nat, floor: nat, began: nat)
    requires Inv(s) && j < |s.readers| && Settled(s.log, floor, began)
    requires retry < RETRIES && floor + retry + 2 <= Started(s)
    ensures Inv(Retry(s, j, retry, floor, began))
  {
    OtherReadersUnaffected(s, Retry(s, j, retry, floor, began), j);
  }

  /** The last look at the counter: equal and even lets the copy through. */
  lemma CheckIsRight(s: State, r: Reader)
    requires Shape(s) && WriterInv(s) && r.RCopy? && ReaderShape(r, |s.buf[0]|) && ReaderInv(s, r)
    requires |r.out| == |s.buf[0]|
    ensures r.s1 == s.seqs[r.idx] ==>
              (s.count[r.idx] - r.count) % WRAP == 0
              && (s.count[r.idx] - r.count < WRAP ==> r.out == s.pubs[Version(r.idx, r.count)])
    ensures r.s1 != s.seqs[r.idx] || s.seqs[r.idx] % 2 == 1 ==> Started(s) >= r.seen + 2
  {
    CounterParity(s.count[r.idx]);
    if r.s1 == s.seqs[r.idx] {
      EqualModulo(r.count, s.count[r.idx]);
    }
    if r.s1 != s.seqs[r.idx] || s.seqs[r.idx] % 2 == 1 {
      FailureMeansPublished(s, r.idx, r.seen);
    }
  }

  /** The first look at the counter: an even counter starts the copy with nothing copied. */
  lemma LookIsRight(s: State, r: Reader)
    requires Shape(s) && WriterInv(s) && r.RIndex? && ReaderShape(r, |s.buf[0]|) && ReaderInv(s, r)
    ensures s.seqs[r.idx] % 2 == 1 ==> Started(s) >= r.seen + 2
    ensures s.seqs[r.idx] % 2 == 0 ==>
              ReaderInv(s, RCopy(r.retry, r.floor, r.began, r.idx, r.seen, s.seqs[r.idx], s.count[r.idx], []))
  {
    CounterParity(s.count[r.idx]);
    if s.seqs[r.idx] % 2 == 1 {
      FailureMeansPublished(s, r.idx, r.seen);
    } else {
      EvenMeansWhole(s, r.idx, r.seen);
    }
  }

  lemma PassKeepsInv(s: State, j: nat)
    requires Inv(s) && j < |s.readers| && s.readers[j].RCopy? && |s.readers[j].out| == |s.buf[0]|
    requires s.readers[j].s1 == s.seqs[s.readers[j].idx] && s.readers[j].s1 % 2 == 0
    ensures Inv(ReaderStep(s, j))
  {
    var r := s.readers[j];
    var t := ReaderStep(s, j);
    CheckIsRight(s, r);
    assert ReaderInv(s, r);
    assert ReturnInv(t, t.log[|s.log|]);
    OtherReadersUnaffected(s, t, j);
  }

  lemma CheckKeepsInv(s: State, j: nat)
    requires Inv(s) && j < |s.readers| && s.readers[j].RCopy? && |s.readers[j].out| == |s.buf[0]|
    ensures Inv(ReaderStep(s, j))
  {
    var r := s.readers[j];
    if r.s1 == s.seqs[r.idx] && s.seqs[r.idx] % 2 == 0 {
      PassKeepsInv(s, j);
    } else {
      CheckIsRight(s, r);
      RetryKeepsInv(s, j, r.retry, r.floor, r.began);
    }
  }

  lemma LookKeepsInv(s: State, j: nat)
    requires Inv(s) && j < |s.readers| && s.readers[j].RIndex?
    ensures Inv(ReaderStep(s, j))
  {
    var r := s.readers[j];
    LookIsRight(s, r);
    if s.seqs[r.idx] % 2 == 1 {
      RetryKeepsInv(s, j, r.retry, r.floor, r.began);
    } else {
      OtherReadersUnaffected(s, ReaderStep(s, j), j);
    }
  }

  lemma ReaderKeepsInv(s: State, j: nat)
    requires Inv(s) && j < |s.readers|
    ensures Inv(ReaderStep(s, j))
  {
    var r := s.readers[j];
    assert ReaderInv(s, r);
    match r
    case RIdle =>
      forall i | 0 <= i < |s.log| ensures s.log[i].ceiling <= s.committed + 1 {
    assert ReturnInv(s, s.log[i]);
      }
      OtherReadersUnaffected(s, ReaderStep(s, j), j);
    case RStart(_, _, _) => OtherReadersUnaffected(s, ReaderStep(s, j), j);
    case RIndex(_, _, _, _, _) => LookKeepsInv(s, j);
    case RCopy(_, _, _, idx, seen, _, count, out) =>
      if |out| < |s.buf[idx]| {
        if s.count[idx] == count { EvenMeansWhole(s, idx, seen); }
        OtherReadersUnaffected(s, ReaderStep(s, j), j);
      } else {
        CheckKeepsInv(s, j);
      }
  }

  lemma StepKeepsInv(s: State, e: Event)
    requires Inv(s)
    ensures Inv(Step(s, e))
  {
    match e
    case Write(block) => WriterKeepsInv(s, block);
    case Read(j) => if j < |s.readers| { ReaderKeepsInv(s, j); }
  }

  lemma WriterShape(s: State, block: Block)
    requires Shape(s)
    ensures Shape(WriterStep(s, block))
  {
  }

  lemma ReaderStepShape(s: State, j: nat)
    requires Shape(s) && j < |s.readers|
    ensures Shape(ReaderStep(s, j))
  {
    assert ReaderShape(s.readers[j], |s.buf[0]|);
    forall k | 0 <= k < |s.readers| && k != j ensures ReaderShape(ReaderStep(s, j).readers[k], |s.buf[0]|) {
      assert ReaderShape(s.readers[k], |s.buf[0]|);
    }
  }

  lemma StepShape(s: State, e: Event)
    requires Shape(s)
    ensures Shape(Step(s, e))
  {
    match e
    case Write(block) => WriterShape(s, block);
    case Read(j) => if j < |s.readers| { ReaderStepShape(s, j); }
  }

  ghost function Run(s: State, events: seq<Event>): (r: State)
    requires Shape(s)
    ensures Shape(r)
    decreases |events|
  {
    if events == [] then s else
      StepShape(s, events[0]);
      Run(Step(s, events[0]), events[1..])
  }

  lemma {:induction false} RunKeepsInv(s: State, events: seq<Event>)
    requires Inv(s)
    ensures Inv(Run(s, events))
    decreases |events|
  {
    if events != [] {
      StepKeepsInv(s, events[0]);
      RunKeepsInv(Step(s, events[0]), events[1..]);
    }
  }

  // ---------------------------------------------------------------- what it means

  /** Some interleaving of one publisher and m readers of a fresh region leads here. */
  ghost predicate Reachable(s: State) {
    exists n: nat, m: nat, events :: Shape(Init(n, m)) && s == Run(Init(n, m), events)
  }

  lemma ReachableInv(s: State)
    requires Reachable(s)
    ensures Inv(s)
  {
    var n: nat, m: nat, events :| Shape(Init(n, m)) && s == Run(Init(n, m), events);
    InitInv(n, m);
    RunKeepsInv(Init(n, m), events);
  }

  /** No tearing: a read that returns true during which fewer than 2^31 publishes hit its block (each moves
      the counter by two) returns exactly one publication, the zero block included. */
  lemma ReadsAreWhole(s: State, i: nat)
    requires Reachable(s) && i < |s.log| && s.log[i].Got? && s.log[i].lap < 2 * 0x8000_0000
    ensures s.log[i].version < |s.pubs| && s.log[i].out == s.pubs[s.log[i].version]
  {
    ReachableInv(s);
    assert ReturnInv(s, s.log[i]);
  }

  /** Freshness: what is returned is no older than the last publication committed when the read began and
      no newer than the last one started when it returned. */
  lemma ReadsAreFresh(s: State, i: nat)
    requires Reachable(s) && i < |s.log| && s.log[i].Got?
    ensures s.log[i].floor <= s.log[i].version <= s.log[i].ceiling < |s.pubs|
  {
    ReachableInv(s);
    assert ReturnInv(s, s.log[i]);
  }

  /** Of two reads, by whichever readers, the one that began after the other had returned steps back by at
      most one publication. */
  lemma StepsBackByAtMostOne(s: State, i: nat, j: nat)
    requires Reachable(s) && i < |s.log| && j < |s.log| && s.log[i].Got? && s.log[j].Got? && i < s.log[j].began
    ensures s.log[j].version + 1 >= s.log[i].version
  {
    ReachableInv(s);
    assert ReturnInv(s, s.log[i]) && ReturnInv(s, s.log[j]);
  }

  /** A read gives up only under a burst of publications: four were committed and a fifth was started after
      the last one committed when it began. */
  lemma GivesUpOnlyUnderBurst(s: State, i: nat)
    requires Reachable(s) && i < |s.log| && s.log[i].GaveUp?
    ensures |s.pubs| - 1 >= s.log[i].ceiling >= s.log[i].floor + 5
  {
    ReachableInv(s);
    assert ReturnInv(s, s.log[i]);
  }

  // ---------------------------------------------------------------- the bounds are tight

  lemma {:induction false} RunConcat(s: State, a: seq<Event>, b: seq<Event>)
    requires Shape(s)
    ensures Run(s, a + b) == Run(Run(s, a), b)
    decreases |a|
  {
    if a == [] {
      assert a + b == b;
    } else {
      StepShape(s, a[0]);
      assert (a + b)[0] == a[0] && (a + b)[1..] == a[1..] + b;
      RunConcat(Step(s, a[0]), a[1..], b);
    }
  }

  function StepsToGo(s: State): nat
    requires Shape(s)
  {
    match s.writer
    case WIdle => 0
    case WEven(_, _) => 1
    case WCopy(b, _, _, i) => 2 + (if |b| >= i then |b| - i else 0)
    case WSeq(b, _, _) => 3 + |b|
    case WIndex(b, _) => 4 + |b|
  }

  /** The publisher runs alone until its call has one step to go (`commit` false) or has returned. */
  lemma {:induction false} FinishPublish(s: State, commit: bool) returns (events: seq<Event>)
    requires Inv(s) && !s.writer.WIdle?
    ensures var t := Run(s, events);
            && t.readers == s.readers && t.log == s.log && t.pubs == s.pubs && |t.buf[0]| == |s.buf[0]|
            && (if commit then t.writer.WIdle? else t.writer.WEven? && t.committed == s.committed)
    decreases StepsToGo(s)
  {
    if s.writer.WEven? && !commit {
      events := [];
    } else {
      var e := Write([]);
      StepKeepsInv(s, e);
      var rest := [];
      if !s.writer.WEven? {
        rest := FinishPublish(Step(s, e), commit);
      }
      events := [e] + rest;
      assert events[1..] == rest;
    }
  }

  lemma Publish(s: State, block: Block, commit: bool) returns (events: seq<Event>)
    requires Inv(s) && s.writer.WIdle? && |block| == |s.buf[0]|
    ensures var t := Run(s, events);
            && t.readers == s.readers && t.log == s.log && t.pubs == s.pubs + [block] && |t.buf[0]| == |s.buf[0]|
            && (if commit then t.writer.WIdle? else t.writer.WEven? && t.committed == s.committed)
  {
    StepKeepsInv(s, Write(block));
    var rest := FinishPublish(Step(s, Write(block)), commit);
    events := [Write(block)] + rest;
    assert events[1..] == rest;
  }

  lemma {:induction false} PublishMany(s: State, block: Block, m: nat) returns (events: seq<Event>)
    requires Inv(s) && s.writer.WIdle? && |block| == |s.buf[0]|
    ensures var t := Run(s, events);
            && t.writer.WIdle? && t.readers == s.readers && t.log == s.log && |t.buf[0]| == |s.buf[0]|
            && t.pubs == s.pubs + seq(m, _ => block)
    decreases m
  {
    if m == 0 {
      events := [];
      assert s.pubs + seq(0, _ => block) == s.pubs;
    } else {
      var first := PublishMany(s, block, m - 1);
      RunKeepsInv(s, first);
      var last := Publish(Run(s, first), block, true);
      events := first + last;
      RunConcat(s, first, last);
      assert seq(m, _ => block) == seq(m - 1, _ => block) + [block];
    }
  }

  lemma ReachStep(s: State, e: Event)
    requires Reachable(s)
    ensures Inv(s) && Reachable(Step(s, e))
  {
    ReachRun(s, [e]);
    StepKeepsInv(s, e);
    assert [e][1..] == [] && Run(Step(s, e), []) == Step(s, e);
  }

  lemma ReachRun(s: State, more: seq<Event>)
    requires Reachable(s)
    ensures Inv(s) && Reachable(Run(s, more)) && Inv(Run(s, more))
  {
    ReachableInv(s);
    RunKeepsInv(s, more);
    var n: nat, m: nat, events :| Shape(Init(n, m)) && s == Run(Init(n, m), events);
    RunConcat(Init(n, m), events, more);
  }

  /** A fresh region of n words with one reader, just after read_index was loaded. */
  lemma FreshReader(n: nat) returns (s: State)
    ensures Reachable(s) && Inv(s)
    ensures s.writer.WIdle? && s.log == [] && s.pubs == [Zeros(n)] && |s.buf[0]| == n
    ensures s.committed == 0 && s.index == 0 && s.count[0] == 0 && s.seqs[0] == 0
    ensures s.readers == [RIndex(0, 0, 0, 0, 0)]
  {
    var start := Init(n, 1);
    InitInv(n, 1);
    assert Run(start, []) == start;
    assert Reachable(start);
    ReachStep(start, Read(0));
    var entered := Step(start, Read(0));
    assert entered == start.(readers := [RStart(0, 0, 0)]);
    ReachStep(entered, Read(0));
    s := Step(entered, Read(0));
    ReachStep(s, Read(0));
  }

  /** That reader has found an even counter and copied the first of two words. */
  lemma FirstWord() returns (c: State)
    ensures Reachable(c) && Inv(c) && c.writer.WIdle? && c.log == [] && |c.buf[0]| == 2
    ensures c.readers == [RCopy(0, 0, 0, 0, 0, 0, 0, [0])] && c.pubs == [Zeros(2)]
  {
    var a := FreshReader(2);
    assert a.buf[a.index] == a.pubs[a.committed] == Zeros(2);
    LookAlone(a, a.readers[0]);
    ReachStep(a, Read(0));
    var b := Step(a, Read(0));
    assert b.readers[0].out == [];
    WordAlone(b, b.readers[0]);
    ReachStep(b, Read(0));
    c := Step(b, Read(0));
    assert [] + [b.buf[0][0]] == [0];
    ReachStep(c, Read(0));
  }

  lemma LookAlone(s: State, r: Reader)
    requires Shape(s) && |s.readers| == 1 && s.readers[0] == r && r.RIndex? && s.seqs[r.idx] % 2 == 0
    ensures Step(s, Read(0)) == s.(readers := [RCopy(r.retry, r.floor, r.began, r.idx, r.seen, s.seqs[r.idx], s.count[r.idx], [])])
  {
  }

  lemma WordAlone(s: State, r: Reader)
    requires Shape(s) && |s.readers| == 1 && s.readers[0] == r && r.RCopy? && |r.out| < |s.buf[r.idx]|
    ensures Step(s, Read(0)) == s.(readers := [r.(out := r.out + [s.buf[r.idx][|r.out|]])])
  {
  }

  lemma CheckAlone(s: State, r: Reader)
    requires Shape(s) && |s.readers| == 1 && s.readers[0] == r && r.RCopy? && |r.out| == |s.buf[r.idx]|
    requires r.s1 == s.seqs[r.idx] && r.s1 % 2 == 0
    ensures Step(s, Read(0))
            == s.(readers := [RIdle],
                  log := s.log + [Got(r.out, Version(r.idx, r.count), r.floor, Started(s), r.began, s.count[r.idx] - r.count)])
  {
  }

  /** The bound of 2^31 cannot be raised: with 2^31 publishes (or a multiple) to its block between the two
      words that it copies, a read can return true with half of one block and half of another. */
  lemma TornReadAfterWrap(lap: nat) returns (s: State)
    requires lap > 0 && lap % WRAP == 0
    ensures Reachable(s)
    ensures |s.log| == 1 && s.log[0].Got? && s.log[0].lap == lap
    ensures s.log[0].out == [0, 1] && s.log[0].out !in s.pubs
  {
    var c := FirstWord();
    var burst := PublishMany(c, [1, 1], lap);
    ReachRun(c, burst);
    var d := Run(c, burst);
    s := FinishTornRead(d, lap);
  }

  lemma FinishTornRead(d: State, lap: nat) returns (s: State)
    requires lap > 0 && lap % WRAP == 0
    requires Reachable(d) && Inv(d) && d.writer.WIdle? && d.log == [] && |d.buf[0]| == 2
    requires d.readers == [RCopy(0, 0, 0, 0, 0, 0, 0, [0])]
    requires d.pubs == [Zeros(2)] + seq(lap, _ => [1, 1])
    ensures Reachable(s)
    ensures |s.log| == 1 && s.log[0].Got? && s.log[0].lap == lap
    ensures s.log[0].out == [0, 1] && s.log[0].out !in s.pubs
  {
    CounterParity(lap);
    assert d.committed == lap && d.index == 0 && d.count[0] == lap && d.seqs[0] == 0;
    assert d.buf[0] == d.pubs[lap] == [1, 1];
    WordAlone(d, d.readers[0]);
    ReachStep(d, Read(0));
    var e := Step(d, Read(0));
    assert [0] + [d.buf[0][1]] == [0, 1];
    CheckAlone(e, e.readers[0]);
    ReachStep(e, Read(0));
    s := Step(e, Read(0));
    assert forall k | 0 <= k < |s.pubs| :: s.pubs[k][0] == s.pubs[k][1];
  }

  /** A reader that has entered copies a one-word block and returns it. */
  lemma ReadOneWord(s: State, r: Reader) returns (t: State)
    requires Reachable(s) && Inv(s) && s.readers == [r] && r.RIndex? && r.idx < 2 && s.seqs[r.idx] % 2 == 0 && |s.buf[0]| == 1
    ensures Reachable(t) && Inv(t)
    ensures t == s.(readers := [RIdle],
                    log := s.log + [Got([s.buf[r.idx][0]], Version(r.idx, s.count[r.idx]), r.floor, Started(s), r.began, 0)])
  {
    var b := LookOneWord(s, r);
    t := CopyOneWord(b);
  }

  lemma LookOneWord(s: State, r: Reader) returns (b: State)
    requires Reachable(s) && Inv(s) && s.readers == [r] && r.RIndex? && r.idx < 2 && s.seqs[r.idx] % 2 == 0
    ensures Reachable(b) && Inv(b)
    ensures b == s.(readers := [RCopy(r.retry, r.floor, r.began, r.idx, r.seen, s.seqs[r.idx], s.count[r.idx], [])])
  {
    LookAlone(s, r);
    ReachStep(s, Read(0));
    b := Step(s, Read(0));
    ReachableInv(b);
  }

  lemma CopyOneWord(b: State) returns (t: State)
    requires Reachable(b) && Inv(b) && |b.readers| == 1 && |b.buf[0]| == 1
    requires var r := b.readers[0]; r.RCopy? && r.out == [] && r.s1 == b.seqs[r.idx] && r.s1 % 2 == 0
    ensures Reachable(t) && Inv(t)
    ensures var r := b.readers[0];
            t == b.(readers := [RIdle],
                    log := b.log + [Got([b.buf[r.idx][0]], Version(r.idx, r.count), r.floor, Started(b), r.began, b.count[r.idx] - r.count)])
  {
    var r := b.readers[0];
    WordAlone(b, r);
    ReachStep(b, Read(0));
    var c := Step(b, Read(0));
    var full := r.(out := [b.buf[r.idx][0]]);
    assert [] + [b.buf[r.idx][0]] == [b.buf[r.idx][0]];
    assert c == b.(readers := [full]);
    t := CheckOneWord(c, full);
  }

  lemma CheckOneWord(c: State, r: Reader) returns (t: State)
    requires Reachable(c) && Shape(c) && c.readers == [r] && |c.buf[0]| == 1
    requires r.RCopy? && |r.out| == 1 && r.idx < 2 && r.s1 == c.seqs[r.idx] && r.s1 % 2 == 0
    ensures Reachable(t) && Inv(t)
    ensures t == c.(readers := [RIdle],
                    log := c.log + [Got(r.out, Version(r.idx, r.count), r.floor, Started(c), r.began, c.count[r.idx] - r.count)])
  {
    CheckAlone(c, r);
    ReachStep(c, Read(0));
    t := Step(c, Read(0));
    ReachStep(t, Read(0));
  }

  /** A reader has chosen block 0; meanwhile publication 1 is committed and publication 2 written to block 0
      but not committed. */
  lemma SecondNotCommitted() returns (c: State)
    ensures Reachable(c) && Inv(c) && c.log == [] && |c.buf[0]| == 1 && |c.pubs| == 3
    ensures c.readers == [RIndex(0, 0, 0, 0, 0)]
    ensures c.committed == 1 && c.writer.WEven?
  {
    var a := FreshReader(1);
    var first := Publish(a, [1], true);
    ReachRun(a, first);
    var b := Run(a, first);
    var second := Publish(b, [2], false);
    ReachRun(b, second);
    c := Run(b, second);
  }

  /** What the invariant says about that moment. */
  lemma CountersThen(c: State)
    requires Shape(c) && WriterInv(c) && c.committed == 1 && c.writer.WEven?
    ensures c.index == 1 && c.count[0] == 2 && c.count[1] == 2 && c.seqs[0] == 2 && c.seqs[1] == 2
  {
  }

  /** Stepping back by one does happen: the first read meets publication 2 while it is not committed yet,
      the second one goes to publication 1, which read_index still names. */
  lemma StepsBackByOne() returns (s: State)
    ensures Reachable(s) && |s.log| == 2
    ensures s.log[0].Got? && s.log[1].Got? && s.log[1].began == 1
    ensures s.log[0].version == 2 && s.log[1].version == 1
  {
    var c := SecondNotCommitted();
    CountersThen(c);
    var d := ReadOneWord(c, c.readers[0]);
    ReachStep(d, Read(0));
    var e := Step(d, Read(0));
    ReachStep(e, Read(0));
    var f := Step(e, Read(0));
    ReachStep(f, Read(0));
    s := ReadOneWord(f, RIndex(0, 1, 1, 1, 1));
  }

  // ---------------------------------------------------------------- the object

  /** The shared memory itself, without the threads. */
  datatype Memory = Memory(buf: seq<Block>, seqs: seq<nat>, index: nat)

  function AfterPublish(m: Memory, block: Block): Memory
    requires |m.buf| == |m.seqs| == 2 && m.index < 2
  {
    var t := 1 - m.index;
    Memory(m.buf[t := block], m.seqs[t := (m.seqs[t] + 2) % WRAP], t)
  }

  /** An undisturbed publish in the interleaved view does what `Region.Publish` promises. */
  lemma UndisturbedPublish(s: State, block: Block) returns (events: seq<Event>)
    requires Inv(s) && s.writer.WIdle? && |block| == |s.buf[0]|
    ensures var t := Run(s, events);
            Memory(t.buf, t.seqs, t.index) == AfterPublish(Memory(s.buf, s.seqs, s.index), block)
  {
    events := Publish(s, block, true);
    RunKeepsInv(s, events);
    PublishEffect(s, Run(s, events), block);
  }

  lemma PublishEffect(s: State, t: State, block: Block)
    requires Shape(s) && WriterInv(s) && s.writer.WIdle? && Shape(t) && WriterInv(t) && t.writer.WIdle?
    requires t.pubs == s.pubs + [block]
    ensures Memory(t.buf, t.seqs, t.index) == AfterPublish(Memory(s.buf, s.seqs, s.index), block)
  {
    var o := 1 - s.index;
    PublishCounts(s, t, block);
    TwoSteps(s.seqs[o], s.count[o]);
    assert t.buf[o] == block && t.buf[s.index] == s.buf[s.index];
    assert t.seqs[o] == (s.seqs[o] + 2) % WRAP && t.seqs[s.index] == s.seqs[s.index];
  }

  lemma TwoSteps(cur: nat, count: nat)
    requires cur == count % WRAP
    ensures (cur + 2) % WRAP == (count + 2) % WRAP
  {
    CounterStep(cur, count);
    CounterStep(cur + 1, count + 1);
  }

  lemma PublishCounts(s: State, t: State, block: Block)
    requires Shape(s) && WriterInv(s) && s.writer.WIdle? && Shape(t) && WriterInv(t) && t.writer.WIdle?
    requires t.pubs == s.pubs + [block]
    ensures t.index == 1 - s.index && t.count[t.index] == s.count[t.index] + 2 && t.count[s.index] == s.count[s.index]
    ensures t.buf[t.index] == block && t.buf[s.index] == s.buf[s.index]
  {
    assert t.committed == s.committed + 1 && t.pubs[t.committed] == block && t.pubs[s.committed] == s.pubs[s.committed];
  }

  // ---------------------------------------------------------------- reads return

  /** Reader j alone, for n steps or until its call has returned. */
  function ReadAlone(s: State, j: nat, n: nat): State
    requires Shape(s) && j < |s.readers|
    decreases n
  {
    if n == 0 || s.readers[j].RIdle? then s else
      ReaderStepShape(s, j);
      ReadAlone(ReaderStep(s, j), j, n - 1)
  }

  /** What one look at a memory at rest tells. */
  function Verdict(s: State, floor: nat, began: nat): Return
    requires Shape(s)
  {
    if s.seqs[s.index] % 2 == 1 then GaveUp(floor, Started(s), began)
    else Got(s.buf[s.index], Version(s.index, s.count[s.index]), floor, Started(s), began, 0)
  }

  function Returned(s: State, j: nat, e: Return): State
    requires j < |s.readers|
  {
    s.(readers := s.readers[j := RIdle], log := s.log + [e])
  }

  /** The rest of the copy and the second look. */
  lemma {:induction false} CopyLeftAlone(s: State, j: nat, n: nat)
    requires Shape(s) && j < |s.readers| && s.readers[j].RCopy?
    requires var r := s.readers[j];
             && r.out <= s.buf[r.idx] && r.s1 == s.seqs[r.idx] && r.s1 % 2 == 0 && r.count == s.count[r.idx]
             && n > |s.buf[r.idx]| - |r.out|
    ensures var r := s.readers[j];
            ReadAlone(s, j, n)
            == Returned(s, j, Got(s.buf[r.idx], Version(r.idx, r.count), r.floor, Started(s), r.began, 0))
    decreases n
  {
    var r := s.readers[j];
    var t := ReaderStep(s, j);
    ReaderStepShape(s, j);
    if |r.out| < |s.buf[r.idx]| {
      assert s.readers[j := RIdle] == t.readers[j := RIdle];
      CopyLeftAlone(t, j, n - 1);
    } else {
      assert r.out == s.buf[r.idx];
    }
  }

  /** One attempt by itself: load the index, look, and if the counter is even copy and look again. */
  lemma LookLeftAlone(s: State, j: nat) returns (t: State)
    requires Shape(s) && j < |s.readers| && s.readers[j].RStart?
    ensures ReaderStep(s, j) == t && Shape(t) && t.readers[j].RIndex?
    ensures t == s.(readers := s.readers[j := RIndex(s.readers[j].retry, s.readers[j].floor, s.readers[j].began, s.index, s.committed)])
  {
    t := ReaderStep(s, j);
    ReaderStepShape(s, j);
  }

  /** A reader left alone, from whichever attempt on, ends its call with exactly one more return: the indexed
      block if its counter is even, as `RegionReader.Read` promises, and giving up otherwise. */
  lemma {:induction false} UndisturbedRetries(s: State, j: nat, n: nat)
    requires Shape(s) && j < |s.readers| && s.readers[j].RStart? && s.readers[j].retry < RETRIES
    requires n >= 2 * (RETRIES - s.readers[j].retry) + |s.buf[0]| + 1
    ensures ReadAlone(s, j, n) == Returned(s, j, Verdict(s, s.readers[j].floor, s.readers[j].began))
    decreases RETRIES - s.readers[j].retry
  {
    var t := LookLeftAlone(s, j);
    var u := ReaderStep(t, j);
    ReaderStepShape(t, j);
    assert s.readers[j := u.readers[j]] == t.readers[j := u.readers[j]];
    assert s.readers[j := RIdle] == u.readers[j := RIdle];
    assert ReadAlone(s, j, n) == ReadAlone(t, j, n - 1) == ReadAlone(u, j, n - 2);
    if s.seqs[s.index] % 2 == 0 {
      CopyLeftAlone(u, j, n - 2);
    } else if s.readers[j].retry + 1 < RETRIES {
      UndisturbedRetries(u, j, n - 2);
    }
  }

  /** From its beginning, the same; and in every reachable state the indexed counter is even, so that a call
      left alone returns the publication committed last. */
  lemma UndisturbedRead(s: State, j: nat, n: nat)
    requires Shape(s) && j < |s.readers| && s.readers[j].RIdle?
    requires n >= 2 * RETRIES + |s.buf[0]| + 1
    ensures Shape(ReaderStep(s, j)) && |ReaderStep(s, j).readers| == |s.readers|
    ensures ReadAlone(ReaderStep(s, j), j, n) == Returned(s, j, Verdict(s, s.committed, |s.log|))
    ensures Inv(s) ==> Verdict(s, s.committed, |s.log|)
                       == Got(s.pubs[s.committed], s.committed, s.committed, Started(s), |s.log|, 0)
  {
    var t := ReaderStep(s, j);
    ReaderStepShape(s, j);
    assert s.readers[j := RIdle] == t.readers[j := RIdle];
    UndisturbedRetries(t, j, n);
    if Inv(s) { CounterParity(s.count[s.index]); }
  }

  /** Steps that are enough from the middle of an attempt. */
  function Enough(r: Reader, n: nat): nat {
    2 * RETRIES + n + 1 +
    match r
    case RIndex(_, _, _, _, _) => n + 2
    case RCopy(_, _, _, _, _, _, _, out) => (if |out| < n then n - |out| else 0) + 1
    case _ => 0
  }

  /** And from the middle of an attempt, whether it is going to fail or not. */
  lemma {:induction false} ReadReturns(s: State, j: nat, n: nat) returns (e: Return)
    requires Shape(s) && j < |s.readers| && !s.readers[j].RIdle? && s.readers[j].retry < RETRIES
    requires n >= Enough(s.readers[j], |s.buf[0]|)
    ensures ReadAlone(s, j, n) == Returned(s, j, e)
    decreases Enough(s.readers[j], |s.buf[0]|)
  {
    if s.readers[j].RStart? {
      UndisturbedRetries(s, j, n);
      e := Verdict(s, s.readers[j].floor, s.readers[j].began);
    } else {
      var t := ReaderStep(s, j);
      ReaderStepShape(s, j);
      assert ReaderShape(s.readers[j], |s.buf[0]|);
      assert s.readers[j := RIdle] == t.readers[j := RIdle];
      if t.readers[j].RIdle? {
        e := t.log[|s.log|];
      } else {
        e := ReadReturns(t, j, n - 1);
      }
    }
  }

  // ---------------------------------------------------------------- calls and returns over runs

  predicate Enters(s: State, e: Event, j: nat) {
    e == Read(j) && j < |s.readers| && s.readers[j].RIdle?
  }

  /** The step puts one more return into the log. */
  predicate Leaves(s: State, e: Event, j: nat)
    requires Shape(s)
  {
    e == Read(j) && |Step(s, e).log| == |s.log| + 1 && s.log <= Step(s, e).log
  }

  function One(b: bool): nat {
    if b then 1 else 0
  }

  /** How many calls of read reader j has begun during a run. */
  ghost function Begun(s: State, events: seq<Event>, j: nat): nat
    requires Shape(s)
    decreases |events|
  {
    if events == [] then 0 else
      StepShape(s, events[0]);
      One(Enters(s, events[0], j)) + Begun(Step(s, events[0]), events[1..], j)
  }

  /** How many returns its steps have added to the log. */
  ghost function Logged(s: State, events: seq<Event>, j: nat): nat
    requires Shape(s)
    decreases |events|
  {
    if events == [] then 0 else
      StepShape(s, events[0]);
      One(Leaves(s, events[0], j)) + Logged(Step(s, events[0]), events[1..], j)
  }

  lemma StepBalance(s: State, e: Event, j: nat)
    requires Shape(s) && j < |s.readers|
    ensures |Step(s, e).readers| == |s.readers|
    ensures One(!Step(s, e).readers[j].RIdle?) + One(Leaves(s, e, j)) == One(!s.readers[j].RIdle?) + One(Enters(s, e, j))
  {
  }

  /** Over any run a reader has logged a return for each call it has begun, but for the one it is in. */
  lemma {:induction false} EveryCallIsLogged(s: State, events: seq<Event>, j: nat)
    requires Shape(s) && j < |s.readers|
    ensures |Run(s, events).readers| == |s.readers|
    ensures One(!Run(s, events).readers[j].RIdle?) + Logged(s, events, j) == One(!s.readers[j].RIdle?) + Begun(s, events, j)
    decreases |events|
  {
    if events != [] {
      StepShape(s, events[0]);
      StepBalance(s, events[0], j);
      EveryCallIsLogged(Step(s, events[0]), events[1..], j);
    }
  }

  class Region {
    const buffers: array2<int>   // one row for each block
    const seqs: array<nat>
    var readIndex: nat

    ghost predicate Valid()
      reads this, seqs
    {
      buffers.Length0 == 2 && seqs.Length == 2 && readIndex < 2 && seqs[0] < WRAP && seqs[1] < WRAP
    }

    ghost function Row(k: nat): Block
      requires k < buffers.Length0
      reads buffers
    {
      seq(buffers.Length1, i requires 0 <= i < buffers.Length1 reads buffers => buffers[k, i])
    }

    ghost function Contents(): Memory
      requires Valid()
      reads this, buffers, seqs
    {
      Memory([Row(0), Row(1)], seqs[..], readIndex)
    }

    constructor (words: nat)
      ensures Valid() && fresh(buffers) && fresh(seqs) && buffers.Length1 == words
      ensures Contents() == Memory(Init(words, 0).buf, Init(words, 0).seqs, Init(words, 0).index)
    {
      buffers := new int[2, words]((_, _) => 0);
      seqs := new nat[2](_ => 0);
      readIndex := 0;
      new;
      assert Row(0) == Row(1) == Zeros(words) && seqs[..] == [0, 0];
    }

    method Publish(block: Block)
      requires Valid() && |block| == buffers.Length1
      modifies this`readIndex, buffers, seqs
      ensures Valid()
      ensures Contents() == AfterPublish(old(Contents()), block)
    {
      var idx := readIndex;
      var target := 1 - idx;
      var cur := seqs[target];
      seqs[target] := (cur + 1) % WRAP;
      for i := 0 to |block|
        invariant readIndex == idx && seqs[target] == (cur + 1) % WRAP && seqs[idx] == old(seqs[idx])
        invariant forall k | 0 <= k < i :: buffers[target, k] == block[k]
        invariant forall k | 0 <= k < |block| :: buffers[idx, k] == old(buffers[idx, k])
      {
        buffers[target, i] := block[i];
      }
      seqs[target] := (cur + 2) % WRAP;
      readIndex := target;
      assert Row(target) == block && Row(idx) == old(Row(idx));
      assert seqs[..] == old(seqs[..])[target := (cur + 2) % WRAP];
    }
  }

  /** One attached reader. */
  class RegionReader {
    const region: Region
    var lastReadIndex: nat

    constructor (r: Region)
      ensures region == r && lastReadIndex == 0
    {
      region, lastReadIndex := r, 0;
    }

    /** Undisturbed, one look at an even counter is enough and an odd one exhausts the attempts. */
    method Read() returns (block: Option<Block>)
      requires region.Valid()
      modifies this`lastReadIndex
      ensures block == if region.seqs[region.readIndex] % 2 == 0 then Some(region.Row(region.readIndex)) else None
      ensures lastReadIndex == if block.Some? then region.readIndex else old(lastReadIndex)
    {
      for retry := 0 to RETRIES
        invariant region.Valid() && lastReadIndex == old(lastReadIndex)
        invariant retry > 0 ==> region.seqs[region.readIndex] % 2 == 1
      {
        var idx := region.readIndex;
        if idx > 1 {
          return None;
        }
        var s1 := region.seqs[idx];
        if s1 % 2 == 1 {
          continue;
        }
        var copy: Block := [];
        for i := 0 to region.buffers.Length1
          invariant |copy| == i && forall k | 0 <= k < i :: copy[k] == region.buffers[idx, k]
        {
          copy := copy + [region.buffers[idx, i]];
        }
        var s2 := region.seqs[idx];
        if s1 == s2 && s2 % 2 == 0 {
          assert copy == region.Row(idx);
          lastReadIndex := idx;
          return Some(copy);
        }
      }
      return None;
    }
  }
}
