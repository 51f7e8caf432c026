/** The four-stage engine pipeline: capture, preprocess, inference and postprocess threads, the three
    blocking queues between them, the use counts of the frames, and `Pipeline::stop`.

    The queues are the rings of module SpscQueue, stepped one shared access at a time. The frame pool
    appears as its free set: taking a frame and giving it back are the single steps that module FramePool
    proves them to be. One `Step` is one step of one thread, so a list of actions is an interleaving. */
module Pipeline {
  import Q = SpscQueue

  const STAGES := 4
  const POOL := 18      // PipelineConfig::frame_pool_size
  const CAPACITY := 8   // of each of the three queues

  /** For each slot its state in the pool and the use count of its shared_ptr control block. */
  datatype Table = Table(count: seq<nat>, slot: seq<Slot>)

  type SlotId = i: nat | i < POOL witness 0

  /** A shared_ptr: empty, or one reference to a pool slot. `serial` numbers the captures. */
  datatype Ref = Empty | Ref(slot: SlotId, serial: nat)

  /** What the pool knows of a slot. `Returning`: the deleter runs `release`. */
  datatype Slot = Free | Held | Returning

  datatype Pc =
    | Head        // at the loop head, about to test `running_`
    | Fetch       // capture: about to call get_frame; other stages: in `pop` on the input queue
    | Work        // holds a frame
    | Send        // in the blocking `push` on the output queue
    | DropResult  // inference only: the sent result goes out of scope
    | Release     // the frame variable goes out of scope
    | Asleep      // inference only: the model did not load, the thread sleeps until `running_` is cleared
    | Exited

  /** The thread that runs `Pipeline::stop`. */
  datatype Control =
    | Serving           // stop not called yet
    | Clear(t: nat)     // about to clear running_ of stage t
    | Join(t: nat)      // joining stage t
    | Drain(k: nat)     // all joined, popping queue k until it is empty
    | DropLocals        // queues drained, the local variables go out of scope
    | Stopped

  datatype State = State(
    run: seq<bool>,            // running_ of each stage
    pc: seq<Pc>,
    local: seq<Ref>,           // the frame variable of each stage
    result: Ref,               // the frame inside the inference stage's result variable
    q: seq<Q.Ring<Ref>>,       // queue k goes from stage k to stage k + 1
    table: Table,
    captured: nat,             // frames captured so far
    shown: seq<Ref>,           // frames that reached the detection callback, in order
    control: Control,
    frameVar: Ref,             // the variable into which stop pops from queues 0 and 1
    resultVar: Ref)            // the variable into which stop pops from queue 2

  datatype Act =
    | Stage(t: nat, choice: bool, hint: SlotId)
    | Control
    | GiveBack(i: SlotId)

  ghost predicate Shape(s: State) {
    && |s.run| == |s.pc| == |s.local| == STAGES
    && |s.q| == 3 && Sized(s.table)
    && (forall k | 0 <= k < 3 :: Q.Bounds(s.q[k]) && |s.q[k].buf| == CAPACITY)
  }

  /** All stages started; `loaded` is what the first load of the model in the inference thread returns. */
  ghost function Init(loaded: bool): State {
    State([true, true, true, true], [Head, Head, if loaded then Head else Asleep, Head], [Empty, Empty, Empty, Empty], Empty,
          [Q.Init(CAPACITY, Empty), Q.Init(CAPACITY, Empty), Q.Init(CAPACITY, Empty)],
          Table(seq(POOL, _ => 0), seq(POOL, _ => Free)), 0, [], Serving, Empty, Empty)
  }

  // ---------------------------------------------------------------- shared_ptr

  predicate Sized(u: Table) {
    |u.count| == |u.slot| == POOL
  }

  /** Copying a shared_ptr. */
  function Grab(u: Table, r: Ref): (u': Table)
    requires Sized(u)
    ensures Sized(u')
  {
    if r.Empty? then u else u.(count := u.count[r.slot := u.count[r.slot] + 1])
  }

  /** Destroying a shared_ptr; the last one starts the deleter. */
  function Let(u: Table, r: Ref): (u': Table)
    requires Sized(u)
    ensures Sized(u')
  {
    if r.Empty? || u.count[r.slot] == 0 then u
    else if u.count[r.slot] == 1
    then Table(u.count[r.slot := 0], u.slot[r.slot := Returning])
    else u.(count := u.count[r.slot := u.count[r.slot] - 1])
  }

  // ---------------------------------------------------------------- the stages

  /** A free slot, `hint` if that one is free. */
  function PickFree(slot: seq<Slot>, hint: SlotId): (i: nat)
    requires |slot| == POOL
    ensures i <= POOL
    ensures i < POOL ==> slot[i].Free?
    ensures i == POOL ==> forall k | 0 <= k < POOL :: !slot[k].Free?
  {
    if slot[hint].Free? then hint else FirstFree(slot, 0)
  }

  function FirstFree(slot: seq<Slot>, from: nat): (i: nat)
    requires from <= |slot|
    ensures from <= i <= |slot|
    ensures i < |slot| ==> slot[i].Free?
    ensures i == |slot| ==> forall k | from <= k < |slot| :: !slot[k].Free?
    decreases |slot| - from
  {
    if from == |slot| || slot[from].Free? then from else FirstFree(slot, from + 1)
  }

  /** Capture: no sample (`sample` false) or no free frame sends it back to its loop head. */
  function CaptureStep(s: State, sample: bool, hint: SlotId): State
    requires Sized(s.table) && |s.pc| == |s.local| == STAGES
  {
    var i := PickFree(s.table.slot, hint);
    if !sample || i == POOL then s.(pc := s.pc[0 := Head]) else
      s.(table := Table(s.table.count[i := 1], s.table.slot[i := Held]), captured := s.captured + 1,
         local := s.local[0 := Ref(i, s.captured)], pc := s.pc[0 := Work])
  }

  /** One access of stage t in `pop`. The copied cell is a new reference. */
  function PopStep(s: State, t: nat): State
    requires 1 <= t < STAGES && |s.q| == 3 && Q.Bounds(s.q[t - 1])
    requires Sized(s.table) && |s.pc| == |s.local| == STAGES
  {
    var r := s.q[t - 1];
    var r' := Q.ConsumerStep(r);
    var s' := s.(q := s.q[t - 1 := r']);
    match r.cons
    case CIdle => s'
    case CLoaded(_) => if r'.cons.CIdle? then s'.(pc := s.pc[t := Head]) else s'
    case CData(pos) => s'.(table := Grab(s.table, r.buf[pos]))
    case CCopied(_, item) => s'.(local := s.local[t := item], pc := s.pc[t := Work])
  }

  function SendItem(s: State, t: nat): Ref
    requires t < |s.local|
  {
    if t == 2 then s.result else s.local[t]
  }

  /** One access of stage t in the blocking `push`: a full queue makes it try again. Writing the cell
      adds a reference to the frame sent and drops the one the cell held until now. */
  function PushStep(s: State, t: nat): State
    requires t < 3 && |s.q| == 3 && Q.Bounds(s.q[t])
    requires Sized(s.table) && |s.pc| == |s.local| == STAGES
  {
    var r := s.q[t];
    var s' := s.(q := s.q[t := Q.ProducerStep(r, SendItem(s, t))]);
    match r.prod
    case PIdle => s'
    case PLoaded(_, _) => s'
    case PRoom(item, pos) => s'.(table := Let(Grab(s.table, item), r.buf[pos]))
    case PWrote(_, _) => s'.(pc := s.pc[t := if t == 2 then DropResult else Release])
  }

  /** One step of stage t. In `Work`, inference may skip the frame (`choice` false). */
  ghost function StageStep(s: State, t: nat, choice: bool, hint: SlotId): State
    requires Shape(s) && t < STAGES
  {
    match s.pc[t]
    case Head => s.(pc := s.pc[t := if s.run[t] then Fetch else Exited])
    case Fetch => if t == 0 then CaptureStep(s, choice, hint) else PopStep(s, t)
    case Work =>
      if t == 3 then s.(shown := s.shown + [s.local[3]], pc := s.pc[3 := Release])
      else if t == 2 && !choice then s.(pc := s.pc[2 := Release])
      else if t == 2 then s.(table := Grab(s.table, s.local[2]), result := s.local[2], pc := s.pc[2 := Send])
      else s.(pc := s.pc[t := Send])
    case Send => if t < 3 then PushStep(s, t) else s
    case DropResult => s.(table := Let(s.table, s.result), result := Empty, pc := s.pc[t := Release])
    case Release => s.(table := Let(s.table, s.local[t]), local := s.local[t := Empty], pc := s.pc[t := Head])
    case Asleep => if s.run[t] then s else s.(pc := s.pc[t := Exited])
    case Exited => s
  }

  // ---------------------------------------------------------------- stop

  /** One access of stop in `pop` on queue k; the copy replaces what its variable held. */
  function DrainStep(s: State, k: nat): State
    requires k < 3 && |s.q| == 3 && Q.Bounds(s.q[k])
    requires Sized(s.table)
  {
    var r := s.q[k];
    var r' := Q.ConsumerStep(r);
    var s' := s.(q := s.q[k := r']);
    match r.cons
    case CIdle => s'
    case CLoaded(_) => if r'.cons.CData? then s' else s'.(control := if k == 2 then DropLocals else Drain(k + 1))
    case CData(pos) =>
      if k == 2 then s'.(table := Let(Grab(s.table, r.buf[pos]), s.resultVar), resultVar := Empty)
      else s'.(table := Let(Grab(s.table, r.buf[pos]), s.frameVar), frameVar := Empty)
    case CCopied(_, item) => if k == 2 then s'.(resultVar := item) else s'.(frameVar := item)
  }

  ghost function ControlStep(s: State): State
    requires Shape(s)
  {
    match s.control
    case Serving => s.(control := Clear(0))
    case Clear(t) => if t < STAGES then s.(run := s.run[t := false], control := Join(t)) else s
    case Join(t) =>
      if t < STAGES && s.pc[t].Exited? then s.(control := if t == 3 then Drain(0) else Clear(t + 1)) else s
    case Drain(k) => if k < 3 then DrainStep(s, k) else s
    case DropLocals => s.(table := Let(Let(s.table, s.resultVar), s.frameVar), resultVar := Empty, frameVar := Empty, control := Stopped)
    case Stopped => s
  }

  ghost function Step(s: State, a: Act): State
    requires Shape(s)
  {
    match a
    case Stage(t, choice, hint) => if t < STAGES then StageStep(s, t, choice, hint) else s
    case Control => ControlStep(s)
    case GiveBack(i) => if s.table.slot[i].Returning? then s.(table := s.table.(slot := s.table.slot[i := Free])) else s
  }

  // ---------------------------------------------------------------- counting references

  function One(r: Ref, i: nat): nat {
    if r.Ref? && r.slot == i then 1 else 0
  }

  /** How many of `refs` refer to slot i. */
  function Occ(refs: seq<Ref>, i: nat): nat {
    if refs == [] then 0 else One(refs[0], i) + Occ(refs[1..], i)
  }

  /** The copy that a `pop` under way has already made. */
  function InHand(r: Q.Ring<Ref>): Ref {
    if r.cons.CCopied? then r.cons.item else Empty
  }

  function RingRefs(r: Q.Ring<Ref>, i: nat): nat {
    Occ(r.buf, i) + One(InHand(r), i)
  }

  /** All references to slot i anywhere in the pipeline: variables, ring cells (popped ones included)
      and copies being made. */
  function Refs(s: State, i: nat): nat
    requires |s.q| == 3
  {
    Occ(s.local, i) + One(s.result, i) + One(s.frameVar, i) + One(s.resultVar, i)
    + RingRefs(s.q[0], i) + RingRefs(s.q[1], i) + RingRefs(s.q[2], i)
  }

  // ---------------------------------------------------------------- the invariant

  ghost function Tally(s: State): (n: seq<nat>)
    requires |s.q| == 3
    ensures |n| == POOL
    ensures forall i | 0 <= i < POOL :: n[i] == Refs(s, i)
  {
    seq(POOL, i requires 0 <= i < POOL => Refs(s, i))
  }

  /** The use counts are right, and the pool holds a slot out exactly while it is referenced. */
  ghost predicate Agrees(u: Table, n: seq<nat>) {
    && Sized(u) && |n| == POOL
    && forall i | 0 <= i < POOL :: u.count[i] == n[i] && (n[i] > 0 <==> u.slot[i].Held?)
  }

  ghost predicate CountInv(s: State) {
    |s.q| == 3 && Agrees(s.table, Tally(s))
  }

  function Cleared(c: Control): nat {
    match c
    case Serving => 0
    case Clear(t) => t
    case Join(t) => t + 1
    case _ => STAGES
  }

  function Joined(c: Control): nat {
    match c
    case Serving => 0
    case Clear(t) => t
    case Join(t) => t
    case _ => STAGES
  }

  function Drained(c: Control): nat {
    match c
    case Drain(k) => k
    case DropLocals => 3
    case Stopped => 3
    case _ => 0
  }

  ghost predicate ControlInv(s: State)
    requires Shape(s)
  {
    && (s.control.Clear? || s.control.Join? ==> s.control.t < STAGES)
    && (s.control.Drain? ==> s.control.k < 3)
    && (forall t | 0 <= t < STAGES :: s.run[t] <==> t >= Cleared(s.control))
    && (forall t | 0 <= t < Joined(s.control) && t < STAGES :: s.pc[t].Exited?)
    && (forall t | 0 <= t < STAGES && s.pc[t].Exited? :: !s.run[t])
    && (forall k | 0 <= k < 3 && k < Drained(s.control) :: |s.q[k].taken| == |s.q[k].sent|)
    && (!s.control.Drain? && !s.control.DropLocals? ==> s.frameVar.Empty? && s.resultVar.Empty?)
    && (s.control.Drain? && s.control.k < 2 ==> s.resultVar.Empty?)
    && (s.control.Drain? && s.q[s.control.k].cons.CCopied? ==>
          (if s.control.k == 2 then s.resultVar else s.frameVar).Empty?)
  }

  predicate HoldsFrame(pc: Pc) {
    pc.Work? || pc.Send? || pc.DropResult? || pc.Release?
  }

  ghost predicate LocalInv(s: State)
    requires Shape(s)
  {
    && (forall t | 0 <= t < STAGES :: s.local[t].Ref? <==> HoldsFrame(s.pc[t]))
    && s.result == (if s.pc[2].Send? || s.pc[2].DropResult? then s.local[2] else Empty)
    && !s.pc[3].Send?
    && (forall t | 0 <= t < STAGES && t != 2 :: !s.pc[t].DropResult? && !s.pc[t].Asleep?)
  }

  /** A ring is in the middle of a call only while its stage, or the drain, is in that call. */
  ghost predicate CallInv(s: State)
    requires Shape(s)
  {
    && Sending(s, 0) && Sending(s, 1) && Sending(s, 2)
    && Popping(s, 0) && Popping(s, 1) && Popping(s, 2)
  }

  ghost predicate Sending(s: State, t: nat)
    requires Shape(s) && t < 3
  {
    !s.q[t].prod.PIdle? ==> s.pc[t].Send? && s.q[t].prod.item == s.local[t]
  }

  ghost predicate Popping(s: State, k: nat)
    requires Shape(s) && k < 3
  {
    !s.q[k].cons.CIdle? ==> s.pc[k + 1].Fetch? || s.control == Drain(k)
  }

  ghost predicate RingsInv(s: State)
    requires Shape(s)
  {
    Q.Inv(s.q[0]) && Q.Inv(s.q[1]) && Q.Inv(s.q[2])
  }

  /** The cells hold exactly what was written last: popping clears nothing. */
  ghost predicate Retained(s: State)
    requires |s.q| == 3
  {
    Q.Retains(s.q[0], Empty) && Q.Retains(s.q[1], Empty) && Q.Retains(s.q[2], Empty)
  }

  /** Later entries were captured later. */
  ghost predicate Increasing(refs: seq<Ref>) {
    && (forall k | 0 <= k < |refs| :: refs[k].Ref?)
    && (forall j, k | 0 <= j < k < |refs| :: refs[j].serial < refs[k].serial)
  }

  /** All n captured frames, in order. */
  ghost predicate AllCaptured(refs: seq<Ref>, n: nat) {
    |refs| == n && forall k | 0 <= k < |refs| :: refs[k].Ref? && refs[k].serial == k
  }

  /** The frame that stage t has taken but neither sent nor given up. */
  function Pending(s: State, t: nat): seq<Ref>
    requires t < |s.pc| && t < |s.local|
  {
    if s.pc[t].Work? || s.pc[t].Send? then [s.local[t]] else []
  }

  predicate Draining(c: Control) {
    c.Drain? || c.DropLocals? || c.Stopped?
  }

  /** The frame that postprocess has taken and not yet reported. */
  function Showing(s: State): seq<Ref>
    requires |s.pc| == |s.local| == STAGES
  {
    if s.pc[3].Work? then [s.local[3]] else []
  }

  /** What stage t has sent so far, and what it is about to send. */
  function Out(s: State, t: nat): seq<Ref>
    requires t < |s.q| && t < |s.pc| && t < |s.local|
  {
    s.q[t].sent + Pending(s, t)
  }

  /** What passed where, so far. */
  datatype Flow = Flow(
    captured: nat,
    out0: seq<Ref>, out1: seq<Ref>, out2: seq<Ref>,        // sent, or about to be, by the first three stages
    taken0: seq<Ref>, taken1: seq<Ref>, taken2: seq<Ref>,  // popped from the three queues
    shown: seq<Ref>,                                       // reported, or about to be
    draining: bool)

  function FlowOf(s: State): Flow
    requires |s.q| == 3 && |s.pc| == |s.local| == STAGES
  {
    Flow(s.captured, Out(s, 0), Out(s, 1), Out(s, 2), s.q[0].taken, s.q[1].taken, s.q[2].taken,
         s.shown + Showing(s), Draining(s.control))
  }

  /** What passed each stage, against what entered it. Capture sends all it captures. Until stop drains the
      queues, preprocess and postprocess have passed on everything they took, in order; inference may have
      skipped frames. */
  ghost predicate Orderly(f: Flow) {
    && AllCaptured(f.out0, f.captured)
    && f.out1 <= f.taken0 && (!f.draining ==> f.out1 == f.taken0)
    && Increasing(f.out2)
    && (forall r | r in f.out2 :: r in f.taken1)
    && f.shown <= f.taken2 && (!f.draining ==> f.shown == f.taken2)
  }

  ghost predicate FlowInv(s: State)
    requires Shape(s)
  {
    Orderly(FlowOf(s))
  }

  ghost predicate PlaceInv(s: State)
    requires Shape(s)
  {
    ControlInv(s) && LocalInv(s) && CallInv(s) && RingsInv(s)
  }

  ghost predicate Inv(s: State) {
    Shape(s) && PlaceInv(s) && CountInv(s) && FlowInv(s)
  }

  ghost function Run(s: State, acts: seq<Act>): (r: State)
    requires Shape(s)
    ensures Shape(r)
    decreases |acts|
  {
    if acts == [] then s else
      StepShape(s, acts[0]);
      Run(Step(s, acts[0]), acts[1..])
  }

  lemma StepShape(s: State, a: Act)
    requires Shape(s)
    ensures Shape(Step(s, a))
  {
    match a
    case Stage(t, choice, hint) => if t < STAGES { StageShape(s, t, choice, hint); }
    case Control => ControlShape(s);
    case GiveBack(i) =>
  }

  lemma StageShape(s: State, t: nat, choice: bool, hint: SlotId)
    requires Shape(s) && t < STAGES
    ensures Shape(StageStep(s, t, choice, hint))
  {
    match s.pc[t]
    case Fetch => if t > 0 { PopShape(s, t); }
    case Send => if t < 3 { PushShape(s, t); }
    case _ =>
  }

  lemma PopShape(s: State, t: nat)
    requires Shape(s) && 1 <= t < STAGES
    ensures Shape(PopStep(s, t))
  {
    Q.StepBounds(s.q[t - 1], Q.Consume);
  }

  lemma PushShape(s: State, t: nat)
    requires Shape(s) && t < 3
    ensures Shape(PushStep(s, t))
  {
    Q.StepBounds(s.q[t], Q.Produce(SendItem(s, t)));
  }

  lemma ControlShape(s: State)
    requires Shape(s)
    ensures Shape(ControlStep(s))
  {
    if s.control.Drain? && s.control.k < 3 {
      Q.StepBounds(s.q[s.control.k], Q.Consume);
    }
  }
}
