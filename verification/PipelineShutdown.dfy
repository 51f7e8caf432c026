/** `Pipeline::stop` terminates: the ordered shutdown cannot deadlock although every `push` blocks. */
module PipelineShutdown {
  import opened Pipeline
  import opened PipelineSafety
  import opened PipelinePlaces
  import Q = SpscQueue

  // ---------------------------------------------------------------- the work that is left

  function Queued(r: Q.Ring<Ref>): nat {
    if |r.taken| <= |r.sent| then |r.sent| - |r.taken| else 0
  }

  function QueueWeight(k: nat): nat {
    if k == 0 then 22 else if k == 1 then 14 else 5
  }

  function WorkWeight(t: nat): nat {
    if t == 0 then 30 else if t == 1 then 22 else if t == 2 then 14 else 5
  }

  /** A stage at one point of its loop. Looking at an empty queue or at a full one costs nothing. */
  function StageWeight(t: nat, pc: Pc, cons: Q.Consumer<Ref>, prod: Q.Producer<Ref>): nat
    requires t < STAGES
  {
    match pc
    case Head => 3
    case Fetch => if t == 0 then 31 else if cons.CData? then 2 else if cons.CCopied? then 1 else 3
    case Work => WorkWeight(t)
    case Send => WorkWeight(t) - (if prod.PWrote? then 3 else if prod.PRoom? then 2 else 1)
    case DropResult => 5
    case Release => 4
    case Asleep => 1
    case Exited => 0
  }

  function ControlWeight(c: Control, cons: Q.Consumer<Ref>): nat {
    match c
    case Serving => 27
    case Clear(t) => if t < STAGES then 20 + 2 * (3 - t) else 0
    case Join(t) => if t < STAGES then 19 + 2 * (3 - t) else 0
    case Drain(k) =>
      (if k == 0 then 13 else if k == 1 then 7 else 1)
      + (match cons case CIdle => 5 case CLoaded(_) => 4 case CData(_) => 3 case CCopied(_, _) => 2)
    case DropLocals => 1
    case Stopped => 0
  }

  function DrainedRing(s: State): Q.Consumer<Ref>
    requires |s.q| == 3
  {
    if s.control.Drain? && s.control.k < 3 then s.q[s.control.k].cons else Q.CIdle
  }

  function Incoming(s: State, t: nat): Q.Consumer<Ref>
    requires |s.q| == 3 && t < STAGES
  {
    if t > 0 then s.q[t - 1].cons else Q.CIdle
  }

  function Outgoing(s: State, t: nat): Q.Producer<Ref>
    requires |s.q| == 3 && t < STAGES
  {
    if t < 3 then s.q[t].prod else Q.PIdle
  }

  ghost function StageLeft(s: State, t: nat): nat
    requires Shape(s) && t < STAGES
  {
    StageWeight(t, s.pc[t], Incoming(s, t), Outgoing(s, t))
  }

  ghost function QueuesLeft(s: State): nat
    requires Shape(s)
  {
    QueueWeight(0) * Queued(s.q[0]) + QueueWeight(1) * Queued(s.q[1]) + QueueWeight(2) * Queued(s.q[2])
  }

  /** The work left for the stages and for stop: a weighted count of queued items, items in flight and
      steps to go. */
  ghost function Left(s: State): nat
    requires Shape(s)
  {
    StageLeft(s, 0) + StageLeft(s, 1) + StageLeft(s, 2) + StageLeft(s, 3)
    + QueuesLeft(s) + ControlWeight(s.control, DrainedRing(s))
  }

  // ---------------------------------------------------------------- who can move on

  function Actor(a: Act): nat {
    match a
    case Stage(t, _, _) => if t < STAGES then t else 5
    case Control => 4
    case GiveBack(_) => 5
  }

  /** Stage t looks for input. */
  predicate Polling(pc: Pc, t: nat, cons: Q.Consumer<Ref>) {
    pc.Head? || (pc.Fetch? && t > 0 && (cons.CIdle? || cons.CLoaded?))
  }

  /** Stage t looks for room. */
  predicate Offering(pc: Pc, prod: Q.Producer<Ref>) {
    pc.Send? && (prod.PIdle? || prod.PLoaded?)
  }

  ghost predicate Full(r: Q.Ring<Ref>) {
    Queued(r) == CAPACITY - 1
  }

  /** Thread h will do some of the work left within its own next three steps, whatever the others do. */
  ghost predicate Able(s: State, h: nat)
    requires Shape(s)
  {
    if h == 4 then !s.control.Stopped? && (s.control.Join? ==> s.control.t < STAGES && s.pc[s.control.t].Exited?)
    else
      && h < STAGES && !s.pc[h].Exited?
      && (Polling(s.pc[h], h, Incoming(s, h)) ==> !s.run[h] || (h > 0 && Queued(s.q[h - 1]) > 0))
      && (h < 3 && Offering(s.pc[h], s.q[h].prod) ==> !Full(s.q[h]))
      && (s.pc[h].Asleep? ==> !s.run[h])
  }

  /** How many steps of h that takes at most. */
  ghost function Rank(s: State, h: nat): nat
    requires Shape(s)
  {
    if h >= STAGES then 1
    else match s.pc[h]
      case Head => if s.run[h] then 3 else 1
      case Fetch =>
        if h == 0 then 1
        else (match s.q[h - 1].cons case CIdle => 2 case _ => 1) + (if s.run[h] then 0 else 1)
      case Send => if h < 3 && s.q[h].prod.PIdle? then 2 else 1
      case _ => 1
  }

  // ---------------------------------------------------------------- room for what is still on its way

  /** The frame a stage has taken and not yet sent. */
  function Busy(pc: Pc): nat {
    if pc.Work? || pc.Send? then 1 else 0
  }

  /** The frames that preprocess may still have to send before stop makes it leave: while its flag is set
      all that is before it, afterwards at most the one that it is busy with. */
  ghost function Demand(s: State): nat
    requires Shape(s)
  {
    if s.run[1] then Busy(s.pc[1]) + Queued(s.q[0]) + Busy(s.pc[0]) + (if s.pc[0].Fetch? then 1 else 0)
    else if s.pc[1].Fetch? then (if Queued(s.q[0]) > 0 then 1 else 0)
    else Busy(s.pc[1])
  }

  /** The model did not load and nobody has told the inference thread to leave. */
  ghost predicate NoModel(s: State)
    requires Shape(s)
  {
    s.pc[2].Asleep? && s.run[2]
  }

  /** If inference sleeps, its queue has room for all that preprocess may still have to send. */
  ghost predicate Safe(s: State)
    requires Shape(s)
  {
    NoModel(s) ==> Demand(s) + Queued(s.q[1]) <= CAPACITY - 1
  }

  /** stop has cleared the capture flag. */
  ghost predicate Phase(s: State) {
    Inv(s) && !s.control.Serving? && s.control != Clear(0)
  }

  ghost predicate Stopping(s: State) {
    Phase(s) && Safe(s)
  }

  // ---------------------------------------------------------------- one step

  /** What a stage step may do: less is left, or the thread only looked and the rest is as it was. */
  ghost predicate OnlyLooked(s: State, s': State, t: nat)
    requires Shape(s) && Shape(s') && t < STAGES
  {
    && s'.run == s.run && s'.control == s.control && s'.pc == s.pc[t := s'.pc[t]]
    && (forall k | 0 <= k < 3 :: Queued(s'.q[k]) == Queued(s.q[k]))
    && (forall k | 0 <= k < 3 && k != t :: s'.q[k].prod == s.q[k].prod)
    && (forall k | 0 <= k < 3 && k + 1 != t :: s'.q[k].cons == s.q[k].cons)
    && (s.pc[t].Exited? ==> s'.pc[t].Exited?)
    && (Able(s, t) ==> Able(s', t) && Rank(s', t) < Rank(s, t))
  }

  ghost predicate Progress(s: State, s': State, t: nat)
    requires Shape(s) && Shape(s') && t < STAGES
  {
    Left(s') <= Left(s) && (Left(s') == Left(s) ==> OnlyLooked(s, s', t))
  }

  /** A push: the index load meets a full queue or not, the index store adds an item. */
  ghost predicate ProducerDoes(r: Q.Ring<Ref>, r': Q.Ring<Ref>) {
    && r'.cons == r.cons
    && Queued(r') == Queued(r) + (if r.prod.PWrote? then 1 else 0)
    && (r.prod.PIdle? ==> r'.prod.PLoaded?)
    && (r.prod.PLoaded? ==> if Full(r) then r'.prod.PIdle? else r'.prod.PRoom?)
    && (r.prod.PRoom? ==> r'.prod.PWrote?)
    && (r.prod.PWrote? ==> r'.prod.PIdle?)
  }

  lemma ProducerEffect(r: Q.Ring<Ref>, x: Ref)
    requires Q.Inv(r) && |r.buf| == CAPACITY
    ensures ProducerDoes(r, Q.ProducerStep(r, x))
  {
    Q.RefusesExactlyWhenFullOrEmpty(r, x);
  }

  /** A pop: the index load meets an empty queue or not, the index store removes an item. */
  ghost predicate ConsumerDoes(r: Q.Ring<Ref>, r': Q.Ring<Ref>) {
    && r'.prod == r.prod
    && Queued(r) == Queued(r') + (if r.cons.CCopied? then 1 else 0)
    && (r.cons.CIdle? ==> r'.cons.CLoaded?)
    && (r.cons.CLoaded? ==> if Queued(r) == 0 then r'.cons.CIdle? else r'.cons.CData?)
    && (r.cons.CData? ==> r'.cons.CCopied?)
    && (r.cons.CCopied? ==> r'.cons.CIdle?)
  }

  lemma ConsumerEffect(r: Q.Ring<Ref>)
    requires Q.Inv(r)
    ensures ConsumerDoes(r, Q.ConsumerStep(r))
  {
    Q.RefusesExactlyWhenFullOrEmpty(r, Empty);
  }

  /** Outside the drain, a stage changes what is left by its own weight and by what it puts or takes. */
  lemma LeftChange(s: State, s': State, t: nat)
    requires Shape(s) && Shape(s') && t < STAGES && s'.control == s.control && !s.control.Drain?
    requires forall u | 0 <= u < STAGES && u != t :: StageLeft(s', u) == StageLeft(s, u)
    ensures Left(s') - Left(s) == StageLeft(s', t) - StageLeft(s, t) + QueuesLeft(s') - QueuesLeft(s)
  {
    if t == 0 {
    } else if t == 1 {
    } else if t == 2 {
    } else {
    }
  }

  // ----- push

  ghost predicate PushDoes(s: State, s': State, t: nat)
    requires Shape(s) && Shape(s') && t < 3
  {
    && s.pc[t].Send? && CallFrame(s, s', t, t) && ProducerDoes(s.q[t], s'.q[t])
    && s'.pc[t] == if !s.q[t].prod.PWrote? then Send else if t == 2 then DropResult else Release
  }

  lemma PushLooks(s: State, s': State, t: nat)
    requires Shape(s) && Shape(s') && t < 3 && PushDoes(s, s', t)
    requires s.q[t].prod.PIdle? || (s.q[t].prod.PLoaded? && Full(s.q[t]))
    ensures OnlyLooked(s, s', t)
  {
    assert s'.pc == s.pc[t := s'.pc[t]];
  }

  lemma PushProgress(s: State, t: nat)
    requires Shape(s) && t < 3 && s.pc[t].Send? && !s.control.Drain?
    requires ProducerDoes(s.q[t], Q.ProducerStep(s.q[t], SendItem(s, t)))
    ensures Shape(PushStep(s, t)) && Progress(s, PushStep(s, t), t)
  {
    var s' := PushStep(s, t);
    PushShape(s, t);
    PushFrame(s, t);
    if Left(s') == Left(s) { PushLooks(s, s', t); }
  }

  // ----- pop

  ghost predicate PopDoes(s: State, s': State, t: nat)
    requires Shape(s) && Shape(s') && 1 <= t < STAGES
  {
    && s.pc[t].Fetch? && CallFrame(s, s', t, t - 1) && ConsumerDoes(s.q[t - 1], s'.q[t - 1])
    && s'.pc[t] == match s.q[t - 1].cons
                   case CLoaded(_) => if Queued(s.q[t - 1]) == 0 then Head else Fetch
                   case CCopied(_, _) => Work
                   case _ => Fetch
  }

  lemma PopLooks(s: State, s': State, t: nat)
    requires Shape(s) && Shape(s') && 1 <= t < STAGES && PopDoes(s, s', t)
    requires s.q[t - 1].cons.CIdle? || (s.q[t - 1].cons.CLoaded? && Queued(s.q[t - 1]) == 0)
    ensures OnlyLooked(s, s', t)
  {
    assert s'.pc == s.pc[t := s'.pc[t]];
  }

  lemma PopProgress(s: State, t: nat)
    requires Shape(s) && 1 <= t < STAGES && s.pc[t].Fetch? && !s.control.Drain?
    requires ConsumerDoes(s.q[t - 1], Q.ConsumerStep(s.q[t - 1]))
    ensures Shape(PopStep(s, t)) && Progress(s, PopStep(s, t), t)
  {
    var s' := PopStep(s, t);
    PopShape(s, t);
    PopFrame(s, t);
    if Left(s') == Left(s) { PopLooks(s, s', t); }
  }

  // ----- the other steps

  ghost predicate InsideNext(s: State, t: nat, next: Pc)
    requires Shape(s) && t < STAGES
  {
    match s.pc[t]
    case Head => next == if s.run[t] then Fetch else Exited
    case Fetch => next.Head? || next.Work?
    case Work => if t == 3 then next.Release? else next.Send? || (t == 2 && next.Release?)
    case DropResult => next.Release?
    case Release => next.Head?
    case Asleep => next == if s.run[t] then Asleep else Exited
    case _ => next == s.pc[t]
  }

  ghost predicate InsideDoes(s: State, s': State, t: nat)
    requires Shape(s) && Shape(s') && t < STAGES
  {
    && Inside(s, t) && s'.q == s.q && s'.run == s.run && s'.control == s.control
    && s'.pc == s.pc[t := s'.pc[t]] && InsideNext(s, t, s'.pc[t])
  }

  /** Nothing of the stage's calls is under way when it is outside them. */
  ghost predicate Settled(s: State, t: nat)
    requires Shape(s) && t < STAGES
  {
    && (s.pc[t].Work? ==> Outgoing(s, t).PIdle?)
    && (s.pc[t].Head? ==> Incoming(s, t).CIdle?)
  }

  lemma InsideLooks(s: State, s': State, t: nat)
    requires Shape(s) && Shape(s') && t < STAGES && InsideDoes(s, s', t) && Settled(s, t)
    requires t > 0 && s.pc[t].Head? && s.run[t]
    ensures OnlyLooked(s, s', t)
  {
  }

  lemma InsideStays(s: State, s': State, t: nat)
    requires Shape(s) && Shape(s') && t < STAGES && InsideDoes(s, s', t) && s'.pc[t] == s.pc[t]
    ensures s.pc[t].Exited? || (s.pc[t].Asleep? && s.run[t])
    ensures OnlyLooked(s, s', t)
  {
  }

  lemma InsideDo(s: State, t: nat, choice: bool, hint: SlotId)
    requires Shape(s) && t < STAGES && Inside(s, t) && (s.pc[t].DropResult? ==> t == 2)
    ensures Shape(StageStep(s, t, choice, hint)) && InsideDoes(s, StageStep(s, t, choice, hint), t)
  {
    StageShape(s, t, choice, hint);
  }

  lemma CallsSettled(s: State, t: nat)
    requires Shape(s) && CallInv(s) && t < STAGES && !s.control.Drain?
    ensures Settled(s, t)
  {
    if t < 3 { assert Sending(s, t); }
    if t > 0 { assert Popping(s, t - 1); }
  }

  lemma InsideProgress(s: State, t: nat, choice: bool, hint: SlotId)
    requires Shape(s) && CallInv(s) && LocalInv(s) && t < STAGES && Inside(s, t) && !s.control.Drain?
    requires t == 0 && s.pc[0].Head? ==> !s.run[0]
    ensures Shape(StageStep(s, t, choice, hint)) && Progress(s, StageStep(s, t, choice, hint), t)
  {
    var s' := StageStep(s, t, choice, hint);
    InsideDo(s, t, choice, hint);
    CallsSettled(s, t);
    if Left(s') == Left(s) {
      if s'.pc[t] == s.pc[t] { InsideStays(s, s', t); } else { InsideLooks(s, s', t); }
    }
  }

  lemma StageProgress(s: State, t: nat, choice: bool, hint: SlotId)
    requires Shape(s) && PlaceInv(s) && t < STAGES
    requires t == 0 && s.pc[0].Head? ==> !s.run[0]
    ensures Shape(StageStep(s, t, choice, hint)) && Progress(s, StageStep(s, t, choice, hint), t)
  {
    if s.pc[t].Exited? {
    } else if Inside(s, t) {
      InsideProgress(s, t, choice, hint);
    } else if s.pc[t].Fetch? {
      ConsumerEffect(s.q[t - 1]);
      PopProgress(s, t);
    } else {
      ProducerEffect(s.q[t], SendItem(s, t));
      PushProgress(s, t);
    }
  }

  lemma DrainProgress(s: State, k: nat)
    requires Shape(s) && k < 3 && s.control == Drain(k)
    requires ConsumerDoes(s.q[k], Q.ConsumerStep(s.q[k]))
    requires forall t | 0 <= t < STAGES :: s.pc[t].Exited?
    ensures Shape(DrainStep(s, k)) && Left(DrainStep(s, k)) < Left(s)
  {
    ControlShape(s);
    if k == 0 {
    } else if k == 1 {
    } else {
    }
  }

  /** A step of stop always gets on, except while it waits for a stage and when it has returned. */
  lemma ControlProgress(s: State)
    requires Stopping(s)
    ensures Shape(ControlStep(s)) && (Able(s, 4) ==> Left(ControlStep(s)) < Left(s))
    ensures !Able(s, 4) ==> ControlStep(s) == s
  {
    ControlShape(s);
    if s.control.Drain? {
      ConsumerEffect(s.q[s.control.k]);
      DrainProgress(s, s.control.k);
    }
  }

  /** Less is left, or h is still able and no further away, closer if it was the one that acted. */
  ghost predicate Advances(s: State, s': State, h: nat, acted: bool)
    requires Shape(s) && Shape(s')
  {
    && Left(s') <= Left(s)
    && (Left(s') == Left(s) ==> Able(s', h) && Rank(s', h) <= Rank(s, h) && (acted ==> Rank(s', h) < Rank(s, h)))
  }

  lemma StageAdvances(s: State, s': State, t: nat, h: nat)
    requires Shape(s) && Shape(s') && t < STAGES && Progress(s, s', t) && Able(s, h)
    ensures Advances(s, s', h, t == h)
  {
    if Left(s') == Left(s) && h != t {
    }
  }

  lemma ControlAdvances(s: State, h: nat)
    requires Stopping(s) && Able(s, h)
    ensures Shape(ControlStep(s)) && Advances(s, ControlStep(s), h, h == 4)
  {
    ControlProgress(s);
  }

  lemma GiveBackAdvances(s: State, i: SlotId, h: nat)
    requires Shape(s) && Able(s, h) && Shape(Step(s, GiveBack(i)))
    ensures Advances(s, Step(s, GiveBack(i)), h, false)
  {
  }

  lemma SafeAfterPush(s: State, s': State, t: nat)
    requires Shape(s) && Shape(s') && ControlInv(s) && Safe(s) && t < 3 && PushDoes(s, s', t)
    ensures Safe(s')
  {
  }

  lemma SafeAfterInside(s: State, s': State, t: nat)
    requires Shape(s) && Shape(s') && ControlInv(s) && LocalInv(s) && Safe(s) && t < STAGES && InsideDoes(s, s', t)
    requires !s.run[0]
    ensures Safe(s')
  {
  }

  lemma SafeAfterControl(s: State)
    requires Shape(s) && ControlInv(s) && Safe(s) && Shape(ControlStep(s))
    requires !s.control.Serving? && s.control != Clear(0)
    ensures Safe(ControlStep(s))
  {
    if s.control.Drain? {
      DrainFrame(s, s.control.k);
    }
  }

  lemma StageKeepsSafe(s: State, t: nat, choice: bool, hint: SlotId)
    requires Shape(s) && PlaceInv(s) && Safe(s) && t < STAGES && !s.run[0]
    ensures Shape(StageStep(s, t, choice, hint)) && Safe(StageStep(s, t, choice, hint))
  {
    StageShape(s, t, choice, hint);
    var s' := StageStep(s, t, choice, hint);
    if Inside(s, t) {
      InsideDo(s, t, choice, hint);
      SafeAfterInside(s, s', t);
    } else if s.pc[t].Fetch? {
      ConsumerEffect(s.q[t - 1]);
      PopFrame(s, t);
    } else {
      ProducerEffect(s.q[t], SendItem(s, t));
      PushFrame(s, t);
      SafeAfterPush(s, s', t);
    }
  }

  /** No step takes away the room. */
  lemma StepKeepsSafe(s: State, a: Act)
    requires Shape(s) && PlaceInv(s) && Safe(s) && !s.control.Serving? && s.control != Clear(0)
    ensures Shape(Step(s, a)) && Safe(Step(s, a))
  {
    StepShape(s, a);
    match a
    case Stage(t, choice, hint) => if t < STAGES { StageKeepsSafe(s, t, choice, hint); }
    case Control => SafeAfterControl(s);
    case GiveBack(i) =>
  }

  lemma StepKeepsStopping(s: State, a: Act)
    requires Stopping(s)
    ensures Stopping(Step(s, a))
  {
    StepKeepsInv(s, a);
    StepKeepsPhase(s, a);
    StepKeepsSafe(s, a);
  }

  lemma StepKeepsPhase(s: State, a: Act)
    requires Shape(s) && !s.control.Serving? && s.control != Clear(0)
    ensures var c := Step(s, a).control; !c.Serving? && c != Clear(0)
  {
  }

  /** Main step lemma: whoever acts, the work left never grows, and an able thread stays able. */
  lemma StepAdvances(s: State, a: Act, h: nat)
    requires Stopping(s) && Able(s, h)
    ensures Stopping(Step(s, a)) && Advances(s, Step(s, a), h, Actor(a) == h)
  {
    StepKeepsStopping(s, a);
    match a
    case Stage(t, choice, hint) =>
      if t < STAGES {
        StageProgress(s, t, choice, hint);
        StageAdvances(s, Step(s, a), t, h);
      }
    case Control => ControlAdvances(s, h);
    case GiveBack(i) => GiveBackAdvances(s, i, h);
  }

  // ---------------------------------------------------------------- somebody can always move on

  /** Follow the full queues downstream from the stage being joined; postprocess never blocks. */
  ghost function Unblocked(s: State, t: nat): nat
    requires Shape(s) && t < STAGES
    decreases STAGES - t
  {
    if t < 3 && Offering(s.pc[t], s.q[t].prod) && Full(s.q[t]) then Unblocked(s, t + 1) else t
  }

  /** Preprocess is not stuck in front of a queue that nobody empties. */
  ghost predicate PassesOn(s: State)
    requires Shape(s)
  {
    NoModel(s) ==> !(Offering(s.pc[1], s.q[1].prod) && Full(s.q[1]))
  }

  /** Stage t has something to do, or has been told to leave. */
  ghost predicate Wanted(s: State, t: nat)
    requires Shape(s) && t < STAGES
  {
    && !s.pc[t].Exited?
    && (Polling(s.pc[t], t, Incoming(s, t)) ==> !s.run[t] || (t > 0 && Queued(s.q[t - 1]) > 0))
    && (s.pc[t].Asleep? ==> !s.run[t])
  }

  lemma {:induction false} UnblockedIsAble(s: State, t: nat)
    requires Shape(s) && LocalInv(s) && t < STAGES && Wanted(s, t) && PassesOn(s)
    requires forall u | t < u < STAGES :: !s.pc[u].Exited?
    ensures Unblocked(s, t) < STAGES && Able(s, Unblocked(s, t))
    decreases STAGES - t
  {
    if t < 3 && Offering(s.pc[t], s.q[t].prod) && Full(s.q[t]) {
      UnblockedIsAble(s, t + 1);
    }
  }

  /** No deadlock: until stop has returned, some thread is able. While stop waits for a stage that is stuck
      in a push on a full queue, that thread is a later stage. This needs the model, or room in the queue
      before the inference thread that sleeps without one. */
  lemma SomebodyIsAble(s: State) returns (h: nat)
    requires Shape(s) && ControlInv(s) && LocalInv(s) && !s.control.Serving? && s.control != Clear(0)
    requires Safe(s) && !s.control.Stopped?
    ensures h <= 4 && Able(s, h)
    ensures s.control.Join? && !s.pc[s.control.t].Exited? ==> s.control.t <= h < STAGES
  {
    if s.control.Join? && !s.pc[s.control.t].Exited? {
      h := Unblocked(s, s.control.t);
      UnblockedIsAble(s, s.control.t);
    } else {
      h := 4;
    }
  }

  // ---------------------------------------------------------------- fair schedules

  function Turns(acts: seq<Act>, h: nat): nat {
    if acts == [] then 0 else (if Actor(acts[0]) == h then 1 else 0) + Turns(acts[1..], h)
  }

  /** Every thread gets at least three turns, in any order and with anything in between. */
  predicate FairRound(acts: seq<Act>) {
    Turns(acts, 0) >= 3 && Turns(acts, 1) >= 3 && Turns(acts, 2) >= 3 && Turns(acts, 3) >= 3 && Turns(acts, 4) >= 3
  }

  lemma {:induction false} RunNeverAddsWork(s: State, acts: seq<Act>)
    requires Stopping(s)
    ensures Stopping(Run(s, acts)) && Left(Run(s, acts)) <= Left(s)
    ensures s.control.Stopped? ==> Run(s, acts).control.Stopped?
    decreases |acts|
  {
    if acts != [] {
      StepLeavesLess(s, acts[0]);
      RunNeverAddsWork(Step(s, acts[0]), acts[1..]);
    }
  }

  lemma StepLeavesLess(s: State, a: Act)
    requires Stopping(s)
    ensures Stopping(Step(s, a)) && Left(Step(s, a)) <= Left(s)
    ensures s.control.Stopped? ==> Step(s, a).control.Stopped?
  {
    StepKeepsStopping(s, a);
    if s.control.Stopped? {
    } else {
      var h := SomebodyIsAble(s);
      StepAdvances(s, a, h);
    }
  }

  lemma {:induction false} AbleGetsThere(s: State, acts: seq<Act>, h: nat)
    requires Stopping(s) && Able(s, h) && Turns(acts, h) >= Rank(s, h)
    ensures Left(Run(s, acts)) < Left(s)
    decreases |acts|
  {
    RankIsPositive(s, h);
    var s' := Step(s, acts[0]);
    StepAdvances(s, acts[0], h);
    if Left(s') < Left(s) {
      RunNeverAddsWork(s', acts[1..]);
    } else {
      AbleGetsThere(s', acts[1..], h);
    }
  }

  lemma RankIsPositive(s: State, h: nat)
    requires Shape(s) && Able(s, h)
    ensures 1 <= Rank(s, h) <= 3
  {
  }

  lemma RoundDoesWork(s: State, acts: seq<Act>)
    requires Stopping(s) && FairRound(acts) && !s.control.Stopped?
    ensures Left(Run(s, acts)) < Left(s)
  {
    var h := SomebodyIsAble(s);
    RankIsPositive(s, h);
    AbleGetsThere(s, acts, h);
  }

  /** The state after a whole schedule, round by round. */
  ghost function Rounds(s: State, rounds: seq<seq<Act>>): (r: State)
    requires Shape(s)
    ensures Shape(r)
    decreases |rounds|
  {
    if rounds == [] then s else Rounds(Run(s, rounds[0]), rounds[1..])
  }

  lemma {:induction false} RoundsFinish(s: State, rounds: seq<seq<Act>>)
    requires Stopping(s) && (forall r | r in rounds :: FairRound(r)) && |rounds| >= Left(s)
    ensures Stopping(Rounds(s, rounds)) && Rounds(s, rounds).control.Stopped?
    decreases |rounds|
  {
    if rounds == [] {
    } else {
      RunNeverAddsWork(s, rounds[0]);
      if s.control.Stopped? {
        StaysStopped(Run(s, rounds[0]), rounds[1..]);
      } else {
        RoundDoesWork(s, rounds[0]);
        RoundsFinish(Run(s, rounds[0]), rounds[1..]);
      }
    }
  }

  lemma {:induction false} StaysStopped(s: State, rounds: seq<seq<Act>>)
    requires Stopping(s) && s.control.Stopped?
    ensures Stopping(Rounds(s, rounds)) && Rounds(s, rounds).control.Stopped?
    decreases |rounds|
  {
    if rounds != [] {
      RunNeverAddsWork(s, rounds[0]);
      StaysStopped(Run(s, rounds[0]), rounds[1..]);
    }
  }

  /** Each queue holds at most seven items, so what is left is bounded. */
  lemma LeftIsBounded(s: State)
    requires Shape(s) && RingsInv(s) && !s.control.Serving? && s.control != Clear(0)
    ensures Left(s) <= 384
  {
    assert Queued(s.q[0]) <= 7 && Queued(s.q[1]) <= 7 && Queued(s.q[2]) <= 7;
    StageWeightBound(0, s.pc[0], Q.CIdle, s.q[0].prod);
    StageWeightBound(1, s.pc[1], s.q[0].cons, s.q[1].prod);
    StageWeightBound(2, s.pc[2], s.q[1].cons, s.q[2].prod);
    StageWeightBound(3, s.pc[3], s.q[2].cons, Q.PIdle);
  }

  lemma StageWeightBound(t: nat, pc: Pc, cons: Q.Consumer<Ref>, prod: Q.Producer<Ref>)
    requires t < STAGES
    ensures StageWeight(t, pc, cons, prod) <= if t == 0 then 31 else WorkWeight(t)
  {
  }

  /** Main result. From any reachable state in which stop has cleared the capture flag, whatever the four
      stages are doing and however full the queues are, every schedule of 384 fair rounds ends with stop
      returned, all stages exited and all queues empty, provided that the model has loaded or that the
      sleeping inference thread leaves room enough. Module PipelineDeadlocks shows that it needs that. */
  lemma StopTerminates(s: State, rounds: seq<seq<Act>>)
    requires Reachable(s) && !s.control.Serving? && s.control != Clear(0) && Shape(s) && Safe(s)
    requires |rounds| >= 384 && forall r | r in rounds :: FairRound(r)
    ensures var e := Rounds(s, rounds);
            && e.control.Stopped?
            && (forall t | 0 <= t < STAGES :: e.pc[t].Exited?)
            && (forall k | 0 <= k < 3 :: |e.q[k].taken| == |e.q[k].sent|)
  {
    ReachableInv(s);
    StopFromInv(s, rounds);
  }

  lemma StopFromInv(s: State, rounds: seq<seq<Act>>)
    requires Stopping(s) && |rounds| >= 384 && forall r | r in rounds :: FairRound(r)
    ensures var e := Rounds(s, rounds);
            && e.control.Stopped?
            && (forall t | 0 <= t < STAGES :: e.pc[t].Exited?)
            && (forall k | 0 <= k < 3 :: |e.q[k].taken| == |e.q[k].sent|)
  {
    LeftIsBounded(s);
    RoundsFinish(s, rounds);
  }

}
