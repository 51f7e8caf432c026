/** What holds over every run of the pipeline: exclusive frames, order of delivery, the pool bound. */
module PipelineSafety {
  import opened Pipeline
  import opened PipelineCounting
  import opened PipelinePlaces
  import opened PipelineFlow
  import Q = SpscQueue

  lemma InitCounts(loaded: bool)
    ensures CountInv(Init(loaded))
  {
    var s := Init(loaded);
    forall i: nat | i < POOL ensures Refs(s, i) == 0 {
      BlankCells(s.q[0].buf, i);
      BlankCells(s.local, i);
    }
  }

  lemma InitPlaces(loaded: bool)
    ensures Shape(Init(loaded)) && PlaceInv(Init(loaded))
  {
    Q.InitInv(CAPACITY, Empty);
  }

  lemma InitInv(loaded: bool)
    ensures Inv(Init(loaded))
  {
    InitPlaces(loaded);
    InitCounts(loaded);
  }

  lemma {:induction false} BlankCells(refs: seq<Ref>, i: nat)
    requires forall k | 0 <= k < |refs| :: refs[k].Empty?
    ensures Occ(refs, i) == 0
    decreases |refs|
  {
    if refs != [] {
      BlankCells(refs[1..], i);
    }
  }

  /** What a queue hands over is always a frame. */
  lemma CopiesAreFrames(s: State, k: nat)
    requires Shape(s) && TakenIsPrefix(s) && FlowInv(s) && k < 3 && CopiesNext(s.q[k])
    ensures s.q[k].cons.CCopied? ==> s.q[k].cons.item.Ref?
  {
    QueuesIncreasing(s);
    if k == 0 { CopyIsFrame(s.q[0]); } else if k == 1 { CopyIsFrame(s.q[1]); } else { CopyIsFrame(s.q[2]); }
  }

  lemma CopyIsFrame(r: Q.Ring<Ref>)
    requires CopiesNext(r) && Increasing(r.sent)
    ensures r.cons.CCopied? ==> r.cons.item.Ref?
  {
    if r.cons.CCopied? {
      assert (r.taken + [r.cons.item])[|r.taken|] == r.cons.item;
    }
  }

  lemma PopKeepsInv(s: State, t: nat)
    requires Inv(s) && 1 <= t < STAGES && s.pc[t].Fetch?
    ensures Inv(PopStep(s, t))
  {
    RingsGivePrefixes(s);
    ConsumerCopiesNext(s.q[t - 1]);
    CopiesAreFrames(s, t - 1);
    PopPlaces(s, t);
    PopCounts(s, t);
    PopOrderly(s, t);
  }

  lemma PushKeepsInv(s: State, t: nat)
    requires Inv(s) && t < 3 && s.pc[t].Send?
    ensures Inv(PushStep(s, t))
  {
    PushPlaces(s, t);
    PushCounts(s, t);
    PushFlow(s, t);
  }

  lemma InsideKeepsInv(s: State, t: nat, choice: bool, hint: SlotId)
    requires Inv(s) && t < STAGES && Inside(s, t)
    ensures Inv(StageStep(s, t, choice, hint))
  {
    InsidePlaces(s, t, choice, hint);
    InsideCounts(s, t, choice, hint);
    if s.pc[t].Fetch? {
      CaptureOrderly(s, choice, hint);
    } else {
      InsideOrderly(s, t, choice, hint);
    }
  }

  lemma StageKeepsInv(s: State, t: nat, choice: bool, hint: SlotId)
    requires Inv(s) && t < STAGES
    ensures Inv(StageStep(s, t, choice, hint))
  {
    if Inside(s, t) {
      InsideKeepsInv(s, t, choice, hint);
    } else if s.pc[t].Fetch? {
      PopKeepsInv(s, t);
    } else {
      PushKeepsInv(s, t);
    }
  }

  lemma ControlKeepsInv(s: State)
    requires Inv(s)
    ensures Inv(ControlStep(s))
  {
    ControlShape(s);
    ControlPlaces(s);
    match s.control
    case Drain(k) =>
      DrainCounts(s, k);
      DrainOrderly(s, k);
    case DropLocals =>
      DropLocalsCounts(s);
      ServiceOrderly(s);
    case _ =>
      Unmoved(s, ControlStep(s));
      ServiceOrderly(s);
  }

  lemma GiveBackKeepsInv(s: State, i: SlotId)
    requires Inv(s)
    ensures Inv(Step(s, GiveBack(i)))
  {
    GiveBackCounts(s, i);
    assert FlowOf(Step(s, GiveBack(i))) == FlowOf(s);
  }

  lemma StepKeepsInv(s: State, a: Act)
    requires Inv(s)
    ensures Inv(Step(s, a))
  {
    match a
    case Stage(t, choice, hint) => if t < STAGES { StageKeepsInv(s, t, choice, hint); }
    case Control => ControlKeepsInv(s);
    case GiveBack(i) => GiveBackKeepsInv(s, i);
  }

  lemma {:induction false} RunKeepsInv(s: State, acts: seq<Act>)
    requires Inv(s)
    ensures Inv(Run(s, acts))
    decreases |acts|
  {
    if acts != [] {
      StepShape(s, acts[0]);
      StepKeepsInv(s, acts[0]);
      RunKeepsInv(Step(s, acts[0]), acts[1..]);
    }
  }

  /** The queues after one access to one of them, or after none (k == 3). */
  function RingsAfterAccess(q: seq<Q.Ring<Ref>>, k: nat, e: Q.Event<Ref>): seq<Q.Ring<Ref>>
    requires |q| == 3 && forall m | 0 <= m < 3 :: Q.Bounds(q[m])
  {
    if k < 3 then q[k := Q.Step(q[k], e)] else q
  }

  /** The one ring access, if any, that an action makes. */
  function Access(s: State, a: Act): (r: (nat, Q.Event<Ref>))
    requires |s.pc| == |s.local| == STAGES
  {
    match a
    case Stage(t, _, _) =>
      if t < STAGES && s.pc[t].Fetch? && t > 0 then (t - 1, Q.Consume)
      else if t < 3 && s.pc[t].Send? then (t, Q.Produce(SendItem(s, t)))
      else (3, Q.Consume)
    case Control => (if s.control.Drain? then s.control.k else 3, Q.Consume)
    case GiveBack(_) => (3, Q.Consume)
  }

  lemma StepIsOneAccess(s: State, a: Act)
    requires Shape(s)
    ensures Step(s, a).q == RingsAfterAccess(s.q, Access(s, a).0, Access(s, a).1)
  {
  }

  lemma RingRetains(q: seq<Q.Ring<Ref>>, k: nat, e: Q.Event<Ref>, m: nat)
    requires |q| == 3 && (forall u | 0 <= u < 3 :: Q.Bounds(q[u])) && m < 3
    requires Q.Inv(q[m]) && Q.Retains(q[m], Empty)
    ensures Q.Retains(RingsAfterAccess(q, k, e)[m], Empty)
  {
    if k == m {
      Q.StepRetains(q[m], e, Empty);
    }
  }

  lemma AccessRetains(s: State, s': State, k: nat, e: Q.Event<Ref>)
    requires Shape(s) && RingsInv(s) && Retained(s) && s'.q == RingsAfterAccess(s.q, k, e)
    ensures Retained(s')
  {
    RingRetains(s.q, k, e, 0);
    RingRetains(s.q, k, e, 1);
    RingRetains(s.q, k, e, 2);
  }

  lemma {:induction false} RunRetains(s: State, acts: seq<Act>)
    requires Inv(s) && Retained(s)
    ensures Retained(Run(s, acts))
    decreases |acts|
  {
    if acts != [] {
      StepShape(s, acts[0]);
      StepIsOneAccess(s, acts[0]);
      AccessRetains(s, Step(s, acts[0]), Access(s, acts[0]).0, Access(s, acts[0]).1);
      StepKeepsInv(s, acts[0]);
      RunRetains(Step(s, acts[0]), acts[1..]);
    }
  }

  // ---------------------------------------------------------------- what it means

  /** Some interleaving of the threads of a fresh pipeline leads here, whether the model loaded or not. */
  ghost predicate Reachable(s: State) {
    exists loaded, acts :: Shape(Init(loaded)) && s == Run(Init(loaded), acts)
  }

  lemma ReachableInv(s: State)
    requires Reachable(s)
    ensures Inv(s) && Retained(s)
  {
    var loaded, acts :| Shape(Init(loaded)) && s == Run(Init(loaded), acts);
    InitInv(loaded);
    Q.InitRetains(CAPACITY, Empty);
    RunKeepsInv(Init(loaded), acts);
    RunRetains(Init(loaded), acts);
  }

  /** Nothing in the pipeline refers to slot i: no variable, no ring cell (a popped one included), no copy
      being made. */
  ghost predicate Unreferenced(s: State, i: nat)
    requires Shape(s)
  {
    && (forall t | 0 <= t < STAGES :: One(s.local[t], i) == 0)
    && One(s.result, i) == One(s.frameVar, i) == One(s.resultVar, i) == 0
    && (forall k, c | 0 <= k < 3 && 0 <= c < CAPACITY :: One(s.q[k].buf[c], i) == 0)
    && (forall k | 0 <= k < 3 :: One(InHand(s.q[k]), i) == 0)
  }

  lemma {:induction false} OccZero(refs: seq<Ref>, c: nat, i: nat)
    requires c < |refs| && Occ(refs, i) == 0
    ensures One(refs[c], i) == 0
    decreases |refs|
  {
    if c > 0 {
      OccZero(refs[1..], c - 1, i);
    }
  }

  lemma NoRefs(s: State, i: nat)
    requires Shape(s) && Refs(s, i) == 0
    ensures Unreferenced(s, i)
  {
    forall t | 0 <= t < STAGES ensures One(s.local[t], i) == 0 {
      OccZero(s.local, t, i);
    }
    forall k, c | 0 <= k < 3 && 0 <= c < CAPACITY ensures One(s.q[k].buf[c], i) == 0 {
      OccZero(s.q[k].buf, c, i);
    }
  }

  /** A frame handed to capture is nobody else's, in any state of any run. */
  lemma CapturedFrameIsExclusive(s: State, hint: SlotId)
    requires Reachable(s)
    ensures Shape(s)
    ensures var i := PickFree(s.table.slot, hint); i < POOL ==> Unreferenced(s, i)
  {
    ReachableInv(s);
    var i := PickFree(s.table.slot, hint);
    if i < POOL {
      assert Tally(s)[i] == 0;
      NoRefs(s, i);
    }
  }

  /** Over any run capture sends every frame it captures, in order: what it has sent, plus the one it may be
      sending, are the captured ones with none missing. The frames reported by postprocess are, in capture order
      and without duplicates, some of those that went through the capture queue. Preprocess passes
      on every frame: what it has sent, plus the one it may be working on, is what it has taken. */
  lemma DeliveryInCaptureOrder(s: State)
    requires Reachable(s)
    ensures Shape(s)
    ensures AllCaptured(s.q[0].sent + Pending(s, 0), s.captured)
    ensures Increasing(s.q[0].sent) && forall r | r in s.q[0].sent :: r.serial < s.captured
    ensures Increasing(s.shown) && forall r | r in s.shown :: r in s.q[0].sent
    ensures Out(s, 1) <= s.q[0].taken <= s.q[0].sent
    ensures !Draining(s.control) ==> Out(s, 1) == s.q[0].taken
  {
    ReachableInv(s);
    RingsGivePrefixes(s);
    QueuesIncreasing(s);
    DeliveryOrder(s);
  }

  lemma DeliveryOrder(s: State)
    requires Shape(s) && TakenIsPrefix(s) && FlowInv(s)
    requires Increasing(s.q[0].sent) && Increasing(s.q[2].sent)
    ensures forall r | r in s.q[0].sent :: r.serial < s.captured
    ensures Increasing(s.shown) && forall r | r in s.shown :: r in s.q[0].sent
  {
    assert s.shown <= s.shown + Showing(s) <= s.q[2].taken <= s.q[2].sent;
    PrefixIncreasing(s.shown, s.q[2].sent);
    forall r | r in s.shown ensures r in s.q[0].sent {
      assert r in Out(s, 2);
      assert r in Out(s, 1);
      assert r in s.q[0].taken;
    }
    forall r | r in s.q[0].sent ensures r.serial < s.captured {
      var k :| 0 <= k < |s.q[0].sent| && s.q[0].sent[k] == r;
      assert Out(s, 0)[k] == r;
    }
  }

  // ---------------------------------------------------------------- no frame gets lost in the inference stage

  /** Frames that left the second queue and were not sent on. */
  function Unsent(s: State): int
    requires Shape(s)
  {
    |s.q[1].taken| - |Out(s, 2)|
  }

  /** Inference skips its frame, or stop pops one from the queue before it. */
  predicate GivesUp(s: State, a: Act)
    requires Shape(s)
  {
    match a
    case Stage(t, choice, _) => t == 2 && s.pc[2].Work? && !choice
    case Control => s.control == Drain(1) && s.q[1].cons.CCopied?
    case GiveBack(_) => false
  }

  lemma OtherStageQueues(s: State, t: nat, choice: bool, hint: SlotId)
    requires Shape(s) && t < STAGES && t != 2 && Shape(StageStep(s, t, choice, hint))
    ensures var s' := StageStep(s, t, choice, hint); s'.q[1].taken == s.q[1].taken && s'.q[2].sent == s.q[2].sent
  {
    StepIsOneAccess(s, Stage(t, choice, hint));
    if 1 <= t { ConsumerHistory(s.q[t - 1]); }
  }

  lemma OtherStageSendsNothing(s: State, t: nat, choice: bool, hint: SlotId)
    requires Shape(s) && t < STAGES && t != 2 && Shape(StageStep(s, t, choice, hint))
    ensures Unsent(StageStep(s, t, choice, hint)) == Unsent(s)
  {
    OtherStageQueues(s, t, choice, hint);
    assert StageStep(s, t, choice, hint).pc[2] == s.pc[2] && StageStep(s, t, choice, hint).local[2] == s.local[2];
  }

  lemma InferenceSends(s: State, choice: bool, hint: SlotId)
    requires Shape(s) && LocalInv(s) && CallInv(s) && Shape(StageStep(s, 2, choice, hint))
    ensures Unsent(StageStep(s, 2, choice, hint)) == Unsent(s) + if GivesUp(s, Stage(2, choice, hint)) then 1 else 0
  {
    match s.pc[2]
    case Fetch => if s.q[1].cons.CCopied? { PopTakes(s, 2); } else { PopKeepsFlow(s, 2); }
      FlowTells(s, PopStep(s, 2));
    case Send => PushFlow(s, 2);
      FlowTells(s, PushStep(s, 2));
    case _ => assert StageStep(s, 2, choice, hint).q == s.q;
  }

  lemma FlowTells(s: State, s': State)
    requires Shape(s) && Shape(s')
    ensures Unsent(s') == |FlowOf(s').taken1| - |FlowOf(s').out2| && Unsent(s) == |FlowOf(s).taken1| - |FlowOf(s).out2|
  {
  }

  lemma ControlSendsNothing(s: State)
    requires Shape(s) && Shape(ControlStep(s))
    ensures Unsent(ControlStep(s)) == Unsent(s) + if GivesUp(s, Control) then 1 else 0
  {
    StepIsOneAccess(s, Control);
    if s.control.Drain? && s.control.k < 3 { ConsumerHistory(s.q[s.control.k]); }
    assert ControlStep(s).pc == s.pc && ControlStep(s).local == s.local;
  }

  lemma StepSends(s: State, a: Act)
    requires Inv(s)
    ensures Shape(Step(s, a)) && Unsent(Step(s, a)) == Unsent(s) + if GivesUp(s, a) then 1 else 0
  {
    StepShape(s, a);
    match a
    case Stage(t, choice, hint) =>
      if t == 2 { InferenceSends(s, choice, hint); } else if t < STAGES { OtherStageSendsNothing(s, t, choice, hint); }
    case Control => ControlSendsNothing(s);
    case GiveBack(i) => assert FlowOf(Step(s, a)) == FlowOf(s);
  }

  ghost function GivenUp(s: State, acts: seq<Act>): nat
    requires Shape(s)
    decreases |acts|
  {
    if acts == [] then 0 else
      StepShape(s, acts[0]);
      (if GivesUp(s, acts[0]) then 1 else 0) + GivenUp(Step(s, acts[0]), acts[1..])
  }

  lemma {:induction false} RunSends(s: State, acts: seq<Act>)
    requires Inv(s)
    ensures |Run(s, acts).q[1].taken| == |Out(Run(s, acts), 2)| + Unsent(s) + GivenUp(s, acts)
    decreases |acts|
  {
    if acts != [] {
      StepShape(s, acts[0]);
      StepSends(s, acts[0]);
      StepKeepsInv(s, acts[0]);
      RunSends(Step(s, acts[0]), acts[1..]);
    }
  }

  /** Over any run inference sends on every frame it takes, but for those it skips; stop pops the others. */
  lemma InferenceLosesNothing(loaded: bool, acts: seq<Act>)
    ensures Shape(Init(loaded))
    ensures var s := Run(Init(loaded), acts); |s.q[1].taken| == |Out(s, 2)| + GivenUp(Init(loaded), acts)
  {
    InitInv(loaded);
    RunSends(Init(loaded), acts);
  }

  // ---------------------------------------------------------------- the pool bound

  function Slots(refs: seq<Ref>): set<nat> {
    set k | 0 <= k < |refs| && refs[k].Ref? :: refs[k].slot
  }

  lemma {:induction false} SlotsBounded(refs: seq<Ref>)
    ensures |Slots(refs)| <= |refs|
    decreases |refs|
  {
    if refs == [] {
      assert Slots(refs) == {};
    } else {
      var n := |refs| - 1;
      SlotsBounded(refs[..n]);
      var last := if refs[n].Ref? then {refs[n].slot} else {};
      assert Slots(refs) == Slots(refs[..n]) + last;
    }
  }

  lemma {:induction false} OccWitness(refs: seq<Ref>, i: nat)
    requires Occ(refs, i) >= 1
    ensures i in Slots(refs)
    decreases |refs|
  {
    if One(refs[0], i) == 1 {
      assert refs[0].slot == i;
    } else {
      OccWitness(refs[1..], i);
      var k :| 0 <= k < |refs[1..]| && refs[1..][k].Ref? && refs[1..][k].slot == i;
      assert refs[k + 1].slot == i;
    }
  }

  /** No stage holds a frame and nothing is queued. */
  ghost predicate Idle(s: State)
    requires Shape(s)
  {
    && (forall t | 0 <= t < STAGES :: !HoldsFrame(s.pc[t]))
    && (forall k | 0 <= k < 3 :: |s.q[k].taken| == |s.q[k].sent|)
    && s.control.Serving?
  }

  /** When the pipeline has run dry, the cells of the second queue hold the very frames that the cells of
      the first one hold, so the rings pin at most 16 of the 18 slots. */
  lemma IdlePinsAtMostSixteen(s: State)
    requires Reachable(s) && Shape(s) && Idle(s)
    ensures s.q[1].buf == s.q[0].buf
    ensures |set i: nat | i < POOL && s.table.slot[i].Held?| <= 16
  {
    ReachableInv(s);
    assert Sending(s, 0) && Sending(s, 1) && Sending(s, 2);
    assert s.q[1].sent == Out(s, 1) == s.q[0].taken == s.q[0].sent;
    var held := set i: nat | i < POOL && s.table.slot[i].Held?;
    var pinned := Slots(s.q[0].buf) + Slots(s.q[2].buf);
    forall i | i in held ensures i in pinned {
      assert Tally(s)[i] >= 1;
      BlankCells(s.local, i);
      if Occ(s.q[2].buf, i) >= 1 { OccWitness(s.q[2].buf, i); } else { OccWitness(s.q[0].buf, i); }
    }
    SlotsBounded(s.q[0].buf);
    SlotsBounded(s.q[2].buf);
    SubsetSize(held, pinned);
  }

  lemma {:induction false} SubsetSize(a: set<nat>, b: set<nat>)
    requires a <= b
    ensures |a| <= |b|
    decreases a
  {
    if a != {} {
      var x :| x in a;
      SubsetSize(a - {x}, b - {x});
    }
  }

  /** The pool of 18 cannot stay exhausted: in any run, once the stages have caught up and the released
      slots are back on the list, get_frame finds a frame. */
  lemma PoolRecovers(s: State, hint: SlotId)
    requires Reachable(s) && Shape(s) && Idle(s)
    requires forall i | 0 <= i < POOL :: !s.table.slot[i].Returning?
    ensures PickFree(s.table.slot, hint) < POOL
  {
    IdlePinsAtMostSixteen(s);
    if PickFree(s.table.slot, hint) == POOL {
      AllHeld(s.table.slot, POOL);
    }
  }

  lemma {:induction false} AllHeld(slot: seq<Slot>, n: nat)
    requires n <= |slot| && forall i | 0 <= i < n :: slot[i].Held?
    ensures |set i: nat | i < n && slot[i].Held?| == n
  {
    if n > 0 {
      AllHeld(slot, n - 1);
      assert (set i: nat | i < n && slot[i].Held?) == (set i: nat | i < n - 1 && slot[i].Held?) + {n - 1};
    }
  }
}
