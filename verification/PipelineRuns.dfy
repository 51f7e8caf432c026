/** Building runs of the pipeline: one stage at a time moves one frame at a time. The runs built here show that
    the states other modules reason about do occur. */
module PipelineRuns {
  import opened Pipeline
  import opened PipelineCounting
  import opened PipelinePlaces
  import opened PipelineSafety
  import opened PipelineShutdown
  import Q = SpscQueue

  /** The slots from c on have never been used. */
  ghost predicate Spare(s: State, c: nat) {
    c <= POOL == |s.table.slot| && forall i | c <= i < POOL :: s.table.slot[i].Free?
  }

  // ---------------------------------------------------------------- what is not out stays as it is

  lemma OutIsUnreferenced(s: State, i: nat)
    requires Shape(s) && CountInv(s) && i < POOL && !s.table.slot[i].Held?
    ensures s.table.count[i] == 0 && Unreferenced(s, i)
  {
    assert Tally(s)[i] == 0;
    NoRefs(s, i);
  }

  /** What a stage step does to the table, as one copy added and one dropped. */
  ghost predicate TableMoves(u: Table, v: Table, added: Ref, dropped: Ref)
    requires Sized(u)
  {
    v == Let(Grab(u, added), dropped)
  }

  lemma StageMoves(s: State, t: nat, choice: bool, hint: SlotId) returns (added: Ref, dropped: Ref)
    requires Shape(s) && LocalInv(s) && t < STAGES && !(t == 0 && s.pc[0].Fetch?)
    ensures TableMoves(s.table, StageStep(s, t, choice, hint).table, added, dropped)
    ensures added == Empty || s.pc[t].Fetch? || (t < 3 && s.q[t].prod.PRoom? && added == s.q[t].prod.item) || added == s.local[t]
    ensures s.pc[t].Fetch? && t > 0 && added != Empty ==> s.q[t - 1].cons.CData? && added == s.q[t - 1].buf[s.q[t - 1].cons.pos]
  {
    added, dropped := Empty, Empty;
    if s.pc[t].Send? && s.q[t].prod.PRoom? {
      added, dropped := s.q[t].prod.item, s.q[t].buf[s.q[t].prod.pos];
    } else if s.pc[t].Fetch? && s.q[t - 1].cons.CData? {
      added := s.q[t - 1].buf[s.q[t - 1].cons.pos];
    } else if s.pc[t].Work? && t == 2 && choice {
      added := s.local[2];
    } else if s.pc[t].DropResult? {
      dropped := s.result;
    } else if s.pc[t].Release? {
      dropped := s.local[t];
    }
  }

  /** Only capture takes a slot out of the pool, and only the release thread puts one back. */
  lemma StageKeepsSlot(s: State, t: nat, choice: bool, hint: SlotId, i: nat)
    requires Inv(s) && t < STAGES && i < POOL && !s.table.slot[i].Held? && !(t == 0 && s.pc[0].Fetch?)
    ensures Sized(StageStep(s, t, choice, hint).table)
    ensures StageStep(s, t, choice, hint).table.slot[i] == s.table.slot[i]
  {
    OutIsUnreferenced(s, i);
    if t < 3 { assert Sending(s, t); }
    var added, dropped := StageMoves(s, t, choice, hint);
  }

  lemma StageKeepsSpare(s: State, t: nat, choice: bool, hint: SlotId, c: nat)
    requires Inv(s) && t < STAGES && Spare(s, c) && !(t == 0 && s.pc[0].Fetch?)
    ensures Spare(StageStep(s, t, choice, hint), c)
  {
    StageKeepsInv(s, t, choice, hint);
    forall i | c <= i < POOL ensures StageStep(s, t, choice, hint).table.slot[i].Free? {
      StageKeepsSlot(s, t, choice, hint, i);
    }
  }

  // ---------------------------------------------------------------- a loaded model stays loaded

  lemma StageStaysAwake(s: State, t: nat, choice: bool, hint: SlotId)
    requires Shape(s) && t < STAGES && !s.pc[2].Asleep?
    ensures !StageStep(s, t, choice, hint).pc[2].Asleep?
  {
    if s.pc[t].Fetch? && t > 0 {
      PopShape(s, t);
      PopFrame(s, t);
    } else if s.pc[t].Send? && t < 3 {
      PushShape(s, t);
      PushFrame(s, t);
    }
  }

  lemma ControlStaysAwake(s: State)
    requires Shape(s)
    ensures ControlStep(s).pc == s.pc
  {
  }

  lemma StaysAwake(s: State, a: Act)
    requires Shape(s) && !s.pc[2].Asleep?
    ensures !Step(s, a).pc[2].Asleep?
  {
    match a
    case Stage(t, choice, hint) => if t < STAGES { StageStaysAwake(s, t, choice, hint); }
    case Control => ControlStaysAwake(s);
    case GiveBack(i) =>
  }

  // ---------------------------------------------------------------- one stage, one frame

  predicate NotTaken(pc: Pc) {
    pc.Head? || pc.Fetch?
  }

  predicate NotSent(pc: Pc) {
    NotTaken(pc) || pc.Work? || pc.Send?
  }

  /** Steps of stage t until it is back at its loop head. */
  function Togo(pc: Pc, cons: Q.Consumer<Ref>, prod: Q.Producer<Ref>): nat {
    match pc
    case Head => 30
    case Fetch => 20 + (match cons case CIdle => 4 case CLoaded(_) => 3 case CData(_) => 2 case CCopied(_, _) => 1)
    case Work => 15
    case Send => 5 + (match prod case PIdle => 4 case PLoaded(_, _) => 3 case PRoom(_, _) => 2 case PWrote(_, _) => 1)
    case DropResult => 5
    case Release => 4
    case _ => 0
  }

  /** The stage finds what it looks for. */
  ghost predicate Ready(s: State, t: nat, c: nat)
    requires Shape(s) && t < 3
  {
    && s.control.Serving? && s.run[t] && !s.pc[t].Exited? && !s.pc[t].Asleep?
    && (NotTaken(s.pc[t]) ==> if t == 0 then c < POOL else Queued(s.q[t - 1]) > 0)
    && (NotSent(s.pc[t]) ==> !Full(s.q[t]))
  }

  /** What is in hand goes on, and what was not taken yet is taken. */
  ghost predicate Forwards(s: State, s': State, t: nat)
    requires Shape(s) && Shape(s') && t < 3
  {
    && s'.run == s.run && s'.control == s.control && s'.pc == s.pc[t := s'.pc[t]]
    && (forall k | 0 <= k < 3 && k != t && k != t - 1 :: Queued(s'.q[k]) == Queued(s.q[k]))
    && (t > 0 ==> Queued(s'.q[t - 1]) == Queued(s.q[t - 1]) - if NotTaken(s.pc[t]) && !NotTaken(s'.pc[t]) then 1 else 0)
    && Queued(s'.q[t]) == Queued(s.q[t]) + (if NotSent(s.pc[t]) && !NotSent(s'.pc[t]) then 1 else 0)
    && !s'.pc[t].Exited? && !s'.pc[t].Asleep?
    && Togo(s'.pc[t], Incoming(s', t), Outgoing(s', t)) < Togo(s.pc[t], Incoming(s, t), Outgoing(s, t))
  }

  lemma PopForwards(s: State, s': State, t: nat)
    requires Shape(s) && Shape(s') && 1 <= t < 3 && PopDoes(s, s', t) && Queued(s.q[t - 1]) > 0
    ensures Forwards(s, s', t)
  {
    assert s'.pc == s.pc[t := s'.pc[t]];
  }

  lemma InsideForwards(s: State, s': State, t: nat)
    requires Shape(s) && Shape(s') && t < 3 && InsideDoes(s, s', t) && Settled(s, t) && s.run[t]
    requires !s.pc[t].Release? && !s.pc[t].Exited? && !s.pc[t].Asleep?
    requires s.pc[t].Fetch? ==> s'.pc[t].Work?
    requires s.pc[t].Work? ==> s'.pc[t].Send?
    ensures Forwards(s, s', t)
  {
  }

  lemma InsideStageForwards(s: State, t: nat, c: nat, hint: SlotId)
    requires Shape(s) && CallInv(s) && LocalInv(s) && t < 3 && Ready(s, t, c) && Inside(s, t) && !s.pc[t].Release?
    requires t == 0 && s.pc[0].Fetch? ==> Spare(s, c) && hint == c
    ensures Shape(StageStep(s, t, true, hint)) && Forwards(s, StageStep(s, t, true, hint), t)
  {
    InsideDo(s, t, true, hint);
    CallsSettled(s, t);
    InsideForwards(s, StageStep(s, t, true, hint), t);
  }

  lemma PopStageForwards(s: State, t: nat, c: nat)
    requires Shape(s) && RingsInv(s) && 1 <= t < 3 && Ready(s, t, c) && s.pc[t].Fetch?
    ensures Shape(PopStep(s, t)) && Forwards(s, PopStep(s, t), t)
  {
    PopShape(s, t);
    ConsumerEffect(s.q[t - 1]);
    PopFrame(s, t);
    PopForwards(s, PopStep(s, t), t);
  }

  lemma PushStageForwards(s: State, t: nat, c: nat)
    requires Shape(s) && RingsInv(s) && t < 3 && Ready(s, t, c) && s.pc[t].Send?
    ensures Shape(PushStep(s, t)) && Forwards(s, PushStep(s, t), t)
  {
    PushShape(s, t);
    ProducerEffect(s.q[t], SendItem(s, t));
    PushFrame(s, t);
  }

  lemma StageForwards(s: State, t: nat, c: nat, hint: SlotId)
    requires Shape(s) && PlaceInv(s) && t < 3 && Ready(s, t, c) && !s.pc[t].Release?
    requires t == 0 && s.pc[0].Fetch? ==> Spare(s, c) && hint == c
    ensures Shape(StageStep(s, t, true, hint)) && Forwards(s, StageStep(s, t, true, hint), t)
  {
    if Inside(s, t) {
      InsideStageForwards(s, t, c, hint);
    } else if s.pc[t].Fetch? {
      PopStageForwards(s, t, c);
    } else {
      PushStageForwards(s, t, c);
    }
  }

  lemma CaptureTakes(s: State, c: nat)
    requires Shape(s) && s.pc[0].Fetch? && Spare(s, c) && c < POOL
    ensures var s' := StageStep(s, 0, true, c);
            Shape(s') && Spare(s', c + 1)
  {
  }

  /** One step of a stage that finds what it looks for. */
  lemma Moves(s: State, t: nat, c: nat) returns (a: Act, c': nat)
    requires Inv(s) && t < 3 && Spare(s, c) && Ready(s, t, c) && !s.pc[t].Release?
    ensures a.Stage? && a.t == t && Inv(Step(s, a)) && Forwards(s, Step(s, a), t) && Spare(Step(s, a), c')
    ensures c' == if t == 0 && s.pc[0].Fetch? then c + 1 else c
  {
    var hint: SlotId := if c < POOL then c else 0;
    a := Stage(t, true, hint);
    c' := if t == 0 && s.pc[0].Fetch? then c + 1 else c;
    StageKeepsInv(s, t, true, hint);
    StageForwards(s, t, c, hint);
    if t == 0 && s.pc[0].Fetch? {
      CaptureTakes(s, c);
    } else {
      StageKeepsSpare(s, t, true, hint, c);
    }
  }

  /** Only stages before 3, told by `upto`, act. */
  predicate Only(acts: seq<Act>, upto: nat) {
    forall a | a in acts :: a.Stage? && a.t < upto
  }

  /** Stage t is back at its loop head; what it had not taken is taken, what it had not sent is sent. */
  ghost predicate Done(s: State, s': State, t: nat)
    requires Shape(s) && Shape(s') && t < 3
  {
    && s'.run == s.run && s'.control == s.control && s'.pc == s.pc[t := Head]
    && (forall k | 0 <= k < 3 && k != t && k != t - 1 :: Queued(s'.q[k]) == Queued(s.q[k]))
    && (t > 0 ==> Queued(s'.q[t - 1]) == Queued(s.q[t - 1]) - if NotTaken(s.pc[t]) then 1 else 0)
    && Queued(s'.q[t]) == Queued(s.q[t]) + (if NotSent(s.pc[t]) then 1 else 0)
  }

  lemma StillReady(s: State, s1: State, t: nat, c: nat, c1: nat)
    requires Shape(s) && Shape(s1) && t < 3 && Ready(s, t, c) && Forwards(s, s1, t) && !s.pc[t].Release?
    requires c1 == if t == 0 && s.pc[0].Fetch? then c + 1 else c
    ensures Ready(s1, t, c1) && (NotTaken(s1.pc[t]) ==> c1 == c)
  {
  }

  lemma RunCons(s: State, a: Act, rest: seq<Act>)
    requires Shape(s) && Shape(Step(s, a))
    ensures Run(s, [a] + rest) == Run(Step(s, a), rest)
  {
    assert ([a] + rest)[1..] == rest;
  }

  lemma CycleEnd(s: State, t: nat, c: nat) returns (acts: seq<Act>)
    requires Inv(s) && t < 3 && Spare(s, c) && s.pc[t].Release?
    ensures Only(acts, t + 1) && Spare(Run(s, acts), c) && Done(s, Run(s, acts), t)
  {
    var a := Stage(t, true, 0);
    acts := [a];
    StageShape(s, t, true, 0);
    StageKeepsSpare(s, t, true, 0, c);
    assert acts == [a] + [];
    RunCons(s, a, []);
  }

  lemma CyclePrepend(s: State, a: Act, rest: seq<Act>, t: nat)
    requires Shape(s) && Shape(Step(s, a)) && t < 3 && a.Stage? && a.t == t && Only(rest, t + 1)
    requires Forwards(s, Step(s, a), t) && Done(Step(s, a), Run(Step(s, a), rest), t)
    ensures Run(s, [a] + rest) == Run(Step(s, a), rest) && Only([a] + rest, t + 1) && Done(s, Run(s, [a] + rest), t)
  {
    RunCons(s, a, rest);
  }

  /** A run of stage t alone from s with these properties. */
  ghost predicate Cycled(s: State, acts: seq<Act>, t: nat, c: nat)
    requires Shape(s) && t < 3
  {
    Only(acts, t + 1) && Spare(Run(s, acts), c) && Done(s, Run(s, acts), t)
  }

  lemma CycleLonger(s: State, a: Act, rest: seq<Act>, t: nat, c: nat)
    requires Shape(s) && Shape(Step(s, a)) && t < 3 && a.Stage? && a.t == t
    requires Forwards(s, Step(s, a), t) && Cycled(Step(s, a), rest, t, c)
    ensures Cycled(s, [a] + rest, t, c)
  {
    CyclePrepend(s, a, rest, t);
  }

  lemma MovesReady(s: State, t: nat, c: nat) returns (a: Act, c': nat)
    requires Inv(s) && t < 3 && Spare(s, c) && Ready(s, t, c) && !s.pc[t].Release?
    ensures a.Stage? && a.t == t && Inv(Step(s, a)) && Forwards(s, Step(s, a), t) && Spare(Step(s, a), c')
    ensures Ready(Step(s, a), t, c') && (NotTaken(Step(s, a).pc[t]) ==> c' == c)
    ensures c' == if t == 0 && s.pc[0].Fetch? then c + 1 else c
  {
    a, c' := Moves(s, t, c);
    StillReady(s, Step(s, a), t, c, c');
  }

  /** Stage t alone passes one frame on and is back at its loop head. */
  lemma {:induction false} Cycle(s: State, t: nat, c: nat) returns (acts: seq<Act>, c': nat)
    requires Inv(s) && t < 3 && Spare(s, c) && Ready(s, t, c)
    ensures Cycled(s, acts, t, c')
    ensures c' == if t == 0 && NotTaken(s.pc[0]) then c + 1 else c
    decreases Togo(s.pc[t], Incoming(s, t), Outgoing(s, t))
  {
    if s.pc[t].Release? {
      acts := CycleEnd(s, t, c);
      c' := c;
    } else {
      var a, c1 := MovesReady(s, t, c);
      var rest;
      rest, c' := Cycle(Step(s, a), t, c1);
      acts := [a] + rest;
      CycleLonger(s, a, rest, t, c');
    }
  }

  /** Stage t has a frame and is about to push it. */
  ghost predicate Loaded(s: State, s': State, t: nat)
    requires Shape(s) && Shape(s') && t < 3
  {
    && s'.pc == s.pc[t := Send] && s'.q[t].prod.PIdle? && Queued(s'.q[t]) == Queued(s.q[t])
    && s'.run == s.run && s'.control == s.control
    && (forall k | 0 <= k < 3 && k != t - 1 :: Queued(s'.q[k]) == Queued(s.q[k]))
  }

  ghost predicate Loadable(s: State, t: nat)
    requires Shape(s) && 1 <= t < 3
  {
    && s.control.Serving? && s.run[t]
    && ((NotTaken(s.pc[t]) && Queued(s.q[t - 1]) > 0) || s.pc[t].Work? || (s.pc[t].Send? && s.q[t].prod.PIdle?))
  }

  /** Stage t alone takes a frame and is about to push it. */
  lemma {:induction false} Load(s: State, t: nat, c: nat) returns (acts: seq<Act>)
    requires Inv(s) && 1 <= t < 3 && Spare(s, c) && Loadable(s, t)
    ensures Only(acts, t + 1) && Inv(Run(s, acts)) && Loaded(s, Run(s, acts), t)
    decreases Togo(s.pc[t], Incoming(s, t), Outgoing(s, t))
  {
    if s.pc[t].Send? {
      acts := [];
    } else {
      var a := Stage(t, true, 0);
      StageKeepsInv(s, t, true, 0);
      StageKeepsSpare(s, t, true, 0, c);
      LoadMoves(s, t);
      var rest := Load(Step(s, a), t, c);
      acts := [a] + rest;
      RunCons(s, a, rest);
      LoadedAfter(s, Step(s, a), Run(s, acts), t);
    }
  }

  lemma LoadedAfter(s: State, s1: State, s2: State, t: nat)
    requires Shape(s) && Shape(s1) && Shape(s2) && t < 3 && Forwards(s, s1, t) && Loaded(s1, s2, t)
    requires !s.pc[t].Send?
    requires NotSent(s.pc[t]) && NotSent(s1.pc[t])
    ensures Loaded(s, s2, t)
  {
    assert s2.pc == s.pc[t := Send];
  }

  lemma LoadPops(s: State, t: nat)
    requires Shape(s) && PlaceInv(s) && 1 <= t < 3 && s.pc[t].Fetch? && Loadable(s, t)
    ensures var s' := StageStep(s, t, true, 0);
            Shape(s') && Forwards(s, s', t) && Loadable(s', t) && NotSent(s'.pc[t])
  {
    var s' := StageStep(s, t, true, 0);
    StageShape(s, t, true, 0);
    ConsumerEffect(s.q[t - 1]);
    PopFrame(s, t);
    PopForwards(s, s', t);
  }

  lemma LoadMoves(s: State, t: nat)
    requires Shape(s) && PlaceInv(s) && 1 <= t < 3 && Loadable(s, t) && !s.pc[t].Send?
    ensures var s' := StageStep(s, t, true, 0);
            Shape(s') && Forwards(s, s', t) && Loadable(s', t) && NotSent(s'.pc[t])
  {
    if s.pc[t].Fetch? {
      LoadPops(s, t);
    } else {
      InsideDo(s, t, true, 0);
      CallsSettled(s, t);
      InsideForwards(s, StageStep(s, t, true, 0), t);
    }
  }

  lemma {:induction false} RunConcat(s: State, a: seq<Act>, b: seq<Act>)
    requires Shape(s)
    ensures Run(s, a + b) == Run(Run(s, a), b)
    decreases |a|
  {
    if a == [] {
      assert a + b == b;
    } else {
      StepShape(s, a[0]);
      assert (a + b)[0] == a[0] && (a + b)[1..] == a[1..] + b;
      RunConcat(Step(s, a[0]), a[1..], b);
    }
  }

  lemma ReachRun(s: State, acts: seq<Act>)
    requires Reachable(s)
    ensures Shape(s) && Reachable(Run(s, acts))
  {
    var loaded, before :| Shape(Init(loaded)) && s == Run(Init(loaded), before);
    RunConcat(Init(loaded), before, acts);
  }

  // ---------------------------------------------------------------- filling the queues

  /** Nothing is in hand; capture and preprocess are at their loop heads. */
  ghost predicate Paused(s: State, loaded: bool, n0: nat, n1: nat, n2: nat, c: nat) {
    && Inv(s) && Spare(s, c) && s.control.Serving? && s.run == [true, true, true, true]
    && s.pc == [Head, Head, if loaded then Head else Asleep, Head]
    && Queued(s.q[0]) == n0 && Queued(s.q[1]) == n1 && Queued(s.q[2]) == n2
  }

  lemma PausedCapture(s: State, loaded: bool, n0: nat, n1: nat, n2: nat, c: nat) returns (acts: seq<Act>)
    requires Paused(s, loaded, n0, n1, n2, c) && n0 < CAPACITY - 1 && c < POOL
    ensures Only(acts, 1) && Paused(Run(s, acts), loaded, n0 + 1, n1, n2, c + 1)
  {
    var c1;
    acts, c1 := Cycle(s, 0, c);
    RunKeepsInv(s, acts);
    assert Run(s, acts).pc == s.pc;
  }

  lemma PausedPreprocess(s: State, loaded: bool, n0: nat, n1: nat, n2: nat, c: nat) returns (acts: seq<Act>)
    requires Paused(s, loaded, n0, n1, n2, c) && n0 > 0 && n1 < CAPACITY - 1
    ensures Only(acts, 2) && Paused(Run(s, acts), loaded, n0 - 1, n1 + 1, n2, c)
  {
    var c1;
    acts, c1 := Cycle(s, 1, c);
    RunKeepsInv(s, acts);
    assert Run(s, acts).pc == s.pc;
  }

  lemma PausedInference(s: State, n0: nat, n1: nat, n2: nat, c: nat) returns (acts: seq<Act>)
    requires Paused(s, true, n0, n1, n2, c) && n1 > 0 && n2 < CAPACITY - 1
    ensures Only(acts, 3) && Paused(Run(s, acts), true, n0, n1 - 1, n2 + 1, c)
  {
    var c1;
    acts, c1 := Cycle(s, 2, c);
    RunKeepsInv(s, acts);
    assert Run(s, acts).pc == s.pc;
  }

  lemma InitPaused(loaded: bool)
    ensures Paused(Init(loaded), loaded, 0, 0, 0, 0)
  {
    InitInv(loaded);
  }

  /** One frame goes from the camera to the queue of inference. */
  lemma Through(s: State, loaded: bool, n1: nat, n2: nat, c: nat) returns (acts: seq<Act>)
    requires Paused(s, loaded, 0, n1, n2, c) && n1 < CAPACITY - 1 && c < POOL
    ensures Only(acts, 2) && Paused(Run(s, acts), loaded, 0, n1 + 1, n2, c + 1)
  {
    var a := PausedCapture(s, loaded, 0, n1, n2, c);
    var b := PausedPreprocess(Run(s, a), loaded, 1, n1, n2, c + 1);
    acts := a + b;
    RunConcat(s, a, b);
  }

  /** n more frames reach the queue of inference. */
  lemma {:induction false} FillSecond(s: State, loaded: bool, n1: nat, n: nat, c: nat) returns (acts: seq<Act>)
    requires Paused(s, loaded, 0, n1, 0, c) && n1 + n <= CAPACITY - 1 && c + n <= POOL
    ensures Only(acts, 2) && Paused(Run(s, acts), loaded, 0, n1 + n, 0, c + n)
    decreases n
  {
    if n == 0 {
      acts := [];
    } else {
      var a := Through(s, loaded, n1, 0, c);
      var rest := FillSecond(Run(s, a), loaded, n1 + 1, n - 1, c + 1);
      acts := a + rest;
      RunConcat(s, a, rest);
    }
  }

  /** n more frames reach the queue of postprocess. */
  lemma {:induction false} FillThird(s: State, n2: nat, n: nat, c: nat) returns (acts: seq<Act>)
    requires Paused(s, true, 0, 0, n2, c) && n2 + n <= CAPACITY - 1 && c + n <= POOL
    ensures Only(acts, 3) && Paused(Run(s, acts), true, 0, 0, n2 + n, c + n)
    decreases n
  {
    if n == 0 {
      acts := [];
    } else {
      var a := Through(s, true, 0, n2, c);
      var b := PausedInference(Run(s, a), 0, 1, n2, c + 1);
      RunConcat(s, a, b);
      var rest := FillThird(Run(s, a + b), n2 + 1, n - 1, c + 1);
      acts := a + b + rest;
      RunConcat(s, a + b, rest);
    }
  }

  /** A run without postprocess after which its queue is full and inference is about to push. */
  lemma FullAndOffering() returns (acts: seq<Act>)
    ensures Only(acts, 3) && Shape(Init(true))
    ensures var s := Run(Init(true), acts);
            Inv(s) && s.pc[2].Send? && s.q[2].prod.PIdle? && Full(s.q[2]) && s.pc[3].Head? && s.control.Serving?
  {
    InitPaused(true);
    var a := FillThird(Init(true), 0, 7, 0);
    var s1 := Run(Init(true), a);
    var b := Through(s1, true, 0, 7, 7);
    var s2 := Run(s1, b);
    var d := Load(s2, 2, 8);
    acts := a + b + d;
    RunConcat(Init(true), a, b);
    RunConcat(Init(true), a + b, d);
  }
}
