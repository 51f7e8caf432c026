/** Two ways in which stopping the pipeline can hang: joining the stages in the opposite order, and an
    inference thread that sleeps because its model did not load. The second one happens in the order that
    stop does take; here is exactly when. */
module PipelineDeadlocks {
  import opened Pipeline
  import opened PipelineCounting
  import opened PipelinePlaces
  import opened PipelineSafety
  import opened PipelineShutdown
  import opened PipelineRuns
  import Q = SpscQueue

  // ---------------------------------------------------------------- stopping in the opposite order

  /** Postprocess gone, queue 2 full, and inference in its blocking push. */
  ghost predicate Stuck(s: State) {
    Shape(s) && s.pc[3].Exited? && Offering(s.pc[2], s.q[2].prod) && Q.Inv(s.q[2]) && Full(s.q[2])
    && (s.q[2].prod.PLoaded? ==> s.q[2].prod.pos == s.q[2].wr)
  }

  /** Stopping the stages in the opposite order can deadlock: were postprocess joined first, inference
      could stay in its push for ever, whatever the remaining threads do. */
  lemma {:induction false} ReverseOrderDeadlocks(s: State, acts: seq<Act>)
    requires Stuck(s) && forall a | a in acts :: a.Stage?
    ensures Stuck(Run(s, acts))
    decreases |acts|
  {
    if acts != [] {
      StuckStays(s, acts[0]);
      ReverseOrderDeadlocks(Step(s, acts[0]), acts[1..]);
    }
  }

  /** The last queue stays full while nobody pops from it. */
  lemma FullStays(r: Q.Ring<Ref>, x: Ref)
    requires Q.Inv(r) && |r.buf| == CAPACITY && Full(r) && (r.prod.PIdle? || r.prod.PLoaded?)
    requires r.prod.PLoaded? ==> r.prod.pos == r.wr
    ensures var t := Q.ProducerStep(r, x);
            && Q.Inv(t) && Full(t) && (t.prod.PIdle? || t.prod.PLoaded?)
            && (t.prod.PLoaded? ==> t.prod.pos == t.wr)
  {
    ProducerEffect(r, x);
    Q.ProducerStepInv(r, x);
  }

  lemma StuckStays(s: State, a: Act)
    requires Stuck(s) && a.Stage?
    ensures Stuck(Step(s, a))
  {
    StepShape(s, a);
    if a.t < 2 {
    } else if a.t == 2 {
      FullStays(s.q[2], SendItem(s, 2));
    }
  }

  /** It does happen: some run of the other stages fills the queue of postprocess; if postprocess is then told
      to leave first, it leaves at its loop head, and no schedule ever gets inference out of its push. */
  lemma ReverseOrderHangs() returns (acts: seq<Act>)
    ensures Only(acts, 3) && Shape(Init(true))
    ensures var s := Run(Init(true), acts);
            var r := s.(run := s.run[3 := false]);
            && Shape(r) && Shape(Step(r, Stage(3, true, 0)))
            && Step(r, Stage(3, true, 0)).pc[3].Exited?
            && forall more: seq<Act> | Only(more, STAGES) :: Run(Step(r, Stage(3, true, 0)), more).pc[2].Send?
  {
    acts := FullAndOffering();
    var s := Run(Init(true), acts);
    var e := Step(s.(run := s.run[3 := false]), Stage(3, true, 0));
    forall more: seq<Act> | Only(more, STAGES) ensures Run(e, more).pc[2].Send? {
      ReverseOrderDeadlocks(e, more);
    }
  }

  // ---------------------------------------------------------------- no model: hopeless states

  /** Inference sleeps with its flag set, its queue is full, and preprocess is in its push. */
  ghost predicate Hopeless(s: State)
    requires Shape(s)
  {
    NoModel(s) && Offering(s.pc[1], s.q[1].prod) && Full(s.q[1])
  }

  lemma StageKeepsHopeless(s: State, t: nat, choice: bool, hint: SlotId)
    requires Shape(s) && PlaceInv(s) && Hopeless(s) && t < STAGES
    ensures Shape(StageStep(s, t, choice, hint)) && Hopeless(StageStep(s, t, choice, hint))
  {
    StageShape(s, t, choice, hint);
    var s' := StageStep(s, t, choice, hint);
    if Inside(s, t) {
      assert s'.q == s.q;
    } else if s.pc[t].Fetch? {
      ConsumerEffect(s.q[t - 1]);
      PopFrame(s, t);
    } else {
      ProducerEffect(s.q[t], SendItem(s, t));
      PushFrame(s, t);
    }
  }

  lemma StepKeepsHopeless(s: State, a: Act)
    requires Inv(s) && Hopeless(s)
    ensures Inv(Step(s, a)) && Hopeless(Step(s, a))
  {
    StepKeepsInv(s, a);
    match a
    case Stage(t, choice, hint) => if t < STAGES { StageKeepsHopeless(s, t, choice, hint); }
    case Control => assert !s.control.Drain?;
    case GiveBack(i) =>
  }

  lemma {:induction false} RunKeepsHopeless(s: State, acts: seq<Act>)
    requires Inv(s) && Hopeless(s)
    ensures Inv(Run(s, acts)) && Hopeless(Run(s, acts))
    decreases |acts|
  {
    if acts != [] {
      StepKeepsHopeless(s, acts[0]);
      RunKeepsHopeless(Step(s, acts[0]), acts[1..]);
    }
  }

  lemma {:induction false} HopelessForEver(s: State, rounds: seq<seq<Act>>)
    requires Inv(s) && Hopeless(s)
    ensures !Rounds(s, rounds).control.Stopped?
    decreases |rounds|
  {
    if rounds == [] {
    } else {
      RunKeepsHopeless(s, rounds[0]);
      HopelessForEver(Run(s, rounds[0]), rounds[1..]);
    }
  }

  // ---------------------------------------------------------------- without room, a schedule gets there

  /** stop has cleared the capture flag, and the sleeping inference thread leaves too little room. */
  ghost predicate Cramped(s: State) {
    Phase(s) && Reachable(s) && !Safe(s)
  }

  /** Capture is about to ask for a frame, preprocess looks for one, and nothing is between them. */
  ghost predicate Awaiting(s: State)
    requires Shape(s)
  {
    NoModel(s) && s.pc[0].Fetch? && Queued(s.q[0]) == 0 && Polling(s.pc[1], 1, s.q[0].cons)
  }

  /** Who can move: preprocess, or else capture. */
  lemma CrampedIsAble(s: State) returns (h: nat)
    requires Phase(s) && !Safe(s) && !Hopeless(s)
    ensures h < 2 && Able(s, h)
    ensures h == 0 && s.pc[0].Fetch? ==> Awaiting(s)
  {
    h := if Able(s, 1) then 1 else 0;
  }

  /** All that preprocess was given it has passed on, so the cells of the first two queues are the same. */
  lemma AwaitingCells(s: State)
    requires Inv(s) && Retained(s) && Phase(s) && Awaiting(s)
    ensures s.q[0].buf == s.q[1].buf
  {
    assert !s.control.Drain? && !s.control.DropLocals? && !s.control.Stopped?;
    assert Sending(s, 0) && Sending(s, 1);
    assert s.q[1].sent == Out(s, 1) == s.q[0].taken == s.q[0].sent;
  }

  /** The one frame that postprocess may have. */
  function Last(s: State): Ref
    requires |s.q| == 3 && |s.local| == STAGES
  {
    if s.local[3].Ref? then s.local[3] else InHand(s.q[2])
  }

  lemma LocalOcc(local: seq<Ref>, i: nat)
    requires |local| == STAGES && local[0] == local[1] == local[2] == Empty
    ensures Occ(local, i) == One(local[3], i)
  {
    var a, b, c := local[1..], local[2..], local[3..];
    assert a[1..] == b && b[1..] == c && c[1..] == [];
    assert Occ(c, i) == One(local[3], i);
    assert Occ(b, i) == Occ(c, i) && Occ(a, i) == Occ(b, i);
  }

  lemma AwaitingRefs(s: State, i: nat)
    requires Inv(s) && Phase(s) && Awaiting(s) && s.q[0].buf == s.q[1].buf && Refs(s, i) >= 1
    ensures Occ(s.q[0].buf, i) >= 1 || Occ(s.q[2].buf, i) >= 1 || One(Last(s), i) == 1
  {
    assert !s.control.Drain? && !s.control.DropLocals?;
    assert Popping(s, 0) && Popping(s, 1) && Popping(s, 2);
    LocalOcc(s.local, i);
    assert InHand(s.q[0]) == Empty && InHand(s.q[1]) == Empty;
  }

  /** A slot is left for the frame that capture is about to ask for. */
  lemma SlotIsLeft(s: State) returns (i: SlotId)
    requires Inv(s) && Retained(s) && Phase(s) && Awaiting(s)
    ensures !s.table.slot[i].Held?
  {
    AwaitingCells(s);
    var held := set j: nat | j < POOL && s.table.slot[j].Held?;
    var pinned := Slots(s.q[0].buf) + Slots(s.q[2].buf) + Slots([Last(s)]);
    forall j | j in held ensures j in pinned {
      assert Tally(s)[j] >= 1;
      AwaitingRefs(s, j);
      if Occ(s.q[0].buf, j) >= 1 { OccWitness(s.q[0].buf, j); }
      else if Occ(s.q[2].buf, j) >= 1 { OccWitness(s.q[2].buf, j); }
      else { OccWitness([Last(s)], j); }
    }
    SlotsBounded(s.q[0].buf);
    SlotsBounded(s.q[2].buf);
    SlotsBounded([Last(s)]);
    SubsetSize(held, pinned);
    if forall j | 0 <= j < POOL :: s.table.slot[j].Held? {
      AllHeld(s.table.slot, POOL);
      assert false;
    }
    i :| 0 <= i < POOL && !s.table.slot[i].Held?;
  }

  lemma CaptureSucceeds(s: State, i: SlotId)
    requires Shape(s) && s.pc[0].Fetch? && s.table.slot[i].Free?
    ensures StageStep(s, 0, true, i).pc[0].Work?
  {
  }

  lemma StageKeepsUnsafe(s: State, t: nat, hint: SlotId)
    requires Shape(s) && PlaceInv(s) && !Safe(s) && t < 2 && !s.run[0]
    requires t == 0 && s.pc[0].Fetch? ==> s.table.slot[hint].Free?
    ensures Shape(StageStep(s, t, true, hint)) && !Safe(StageStep(s, t, true, hint))
  {
    StageShape(s, t, true, hint);
    var s' := StageStep(s, t, true, hint);
    if Inside(s, t) {
      InsideDo(s, t, true, hint);
      if t == 0 && s.pc[0].Fetch? { CaptureSucceeds(s, hint); }
    } else if s.pc[t].Fetch? {
      ConsumerEffect(s.q[t - 1]);
      PopFrame(s, t);
    } else {
      ProducerEffect(s.q[t], SendItem(s, t));
      PushFrame(s, t);
    }
  }

  lemma ReachStep(s: State, a: Act)
    requires Reachable(s)
    ensures Shape(s) && Reachable(Step(s, a))
  {
    ReachRun(s, [a]);
    assert [a] == [a] + [];
    StepShape(s, a);
    RunCons(s, a, []);
  }

  /** Stage h moves on; what is short of room stays short of room. */
  lemma Nudge(s: State, h: nat, hint: SlotId)
    requires Cramped(s) && h < 2 && Able(s, h) && (h == 0 && s.pc[0].Fetch? ==> s.table.slot[hint].Free?)
    ensures var s' := Step(s, Stage(h, true, hint));
            && Cramped(s')
            && (Left(s') < Left(s) ||
                 (Left(s') == Left(s) && Able(s', h) && Rank(s', h) < Rank(s, h) && !(h == 0 && s'.pc[0].Fetch?)))
  {
    var a := Stage(h, true, hint);
    StepKeepsInv(s, a);
    StepKeepsPhase(s, a);
    ReachStep(s, a);
    StageKeepsUnsafe(s, h, hint);
    StageProgress(s, h, true, hint);
    if h == 0 && Step(s, a).pc[0].Fetch? { FetchAgain(s, hint); }
  }

  /** Capture with its flag cleared never comes back to asking for a frame. */
  lemma FetchAgain(s: State, hint: SlotId)
    requires Shape(s) && !s.run[0] && (s.pc[0].Fetch? ==> s.table.slot[hint].Free?)
    ensures !StageStep(s, 0, true, hint).pc[0].Fetch?
  {
  }

  lemma GiveBackFrees(s: State, i: SlotId)
    requires Shape(s) && s.table.slot[i].Returning?
    ensures var s' := Step(s, GiveBack(i));
            && Shape(s') && s'.table.slot[i].Free? && Left(s') == Left(s) && s'.control == s.control
            && (Awaiting(s) ==> Awaiting(s')) && (Safe(s) <==> Safe(s')) && (Able(s, 0) <==> Able(s', 0))
  {
  }

  /** The slot that capture will get, given back first if its release is still under way. */
  lemma MakeRoom(s: State) returns (acts: seq<Act>, i: SlotId)
    requires Cramped(s) && Awaiting(s)
    ensures var s' := Run(s, acts);
            Cramped(s') && Awaiting(s') && Left(s') == Left(s) && s'.table.slot[i].Free?
  {
    ReachableInv(s);
    i := SlotIsLeft(s);
    if s.table.slot[i].Free? {
      acts := [];
    } else {
      var a := GiveBack(i);
      acts := [a];
      assert acts == [a] + [];
      StepKeepsInv(s, a);
      ReachStep(s, a);
      GiveBackFrees(s, i);
      RunCons(s, a, []);
    }
  }

  /** Stage h alone gets some work done. */
  lemma {:induction false} Drive(s: State, h: nat) returns (acts: seq<Act>)
    requires Cramped(s) && h < 2 && Able(s, h) && (h == 0 ==> !s.pc[0].Fetch?)
    ensures Cramped(Run(s, acts)) && Left(Run(s, acts)) < Left(s)
    decreases Rank(s, h)
  {
    var a := Stage(h, true, 0);
    var s' := Step(s, a);
    Nudge(s, h, 0);
    var rest := [];
    if Left(s') == Left(s) {
      rest := Drive(s', h);
    }
    acts := [a] + rest;
    RunCons(s, a, rest);
  }

  lemma CaptureNow(s: State, i: SlotId)
    requires Cramped(s) && Awaiting(s) && s.table.slot[i].Free?
    ensures var acts := [Stage(0, true, i)];
            Cramped(Run(s, acts)) && Left(Run(s, acts)) < Left(s)
  {
    var a := Stage(0, true, i);
    Nudge(s, 0, i);
    CaptureIsWork(s, i);
    assert [a] == [a] + [];
    RunCons(s, a, []);
  }

  lemma DriveCapture(s: State) returns (acts: seq<Act>)
    requires Cramped(s) && Awaiting(s)
    ensures Cramped(Run(s, acts)) && Left(Run(s, acts)) < Left(s)
  {
    var first, i := MakeRoom(s);
    CaptureNow(Run(s, first), i);
    acts := first + [Stage(0, true, i)];
    RunConcat(s, first, [Stage(0, true, i)]);
  }

  /** A capture that succeeds leaves less to do. */
  lemma CaptureIsWork(s: State, i: SlotId)
    requires Shape(s) && s.pc[0].Fetch? && s.table.slot[i].Free? && !s.control.Drain?
    ensures Shape(StageStep(s, 0, true, i)) && Left(StageStep(s, 0, true, i)) < Left(s)
  {
    var s' := StageStep(s, 0, true, i);
    StageShape(s, 0, true, i);
    LeftChange(s, s', 0);
  }

  /** Preprocess and capture alone bring a cramped pipeline into a hopeless state. */
  lemma {:induction false} Jam(s: State) returns (acts: seq<Act>)
    requires Cramped(s)
    ensures Inv(Run(s, acts)) && Hopeless(Run(s, acts))
    decreases Left(s)
  {
    if Hopeless(s) {
      acts := [];
    } else {
      var h := CrampedIsAble(s);
      var first;
      if h == 0 && s.pc[0].Fetch? { first := DriveCapture(s); } else { first := Drive(s, h); }
      var rest := Jam(Run(s, first));
      acts := first + rest;
      RunConcat(s, first, rest);
    }
  }

  // ---------------------------------------------------------------- exactly when stop returns

  lemma {:induction false} TurnsAdd(a: seq<Act>, b: seq<Act>, h: nat)
    ensures Turns(a + b, h) == Turns(a, h) + Turns(b, h)
    decreases |a|
  {
    if a == [] {
      assert a + b == b;
    } else {
      assert (a + b)[1..] == a[1..] + b;
      TurnsAdd(a[1..], b, h);
    }
  }

  lemma FairPrefix(a: seq<Act>, b: seq<Act>)
    requires FairRound(b)
    ensures FairRound(a + b)
  {
    TurnsAdd(a, b, 0);
    TurnsAdd(a, b, 1);
    TurnsAdd(a, b, 2);
    TurnsAdd(a, b, 3);
    TurnsAdd(a, b, 4);
  }

  /** Each thread once. */
  function Everyone(): seq<Act> {
    [Stage(0, true, 0), Stage(1, true, 0), Stage(2, true, 0), Stage(3, true, 0), Act.Control]
  }

  lemma SomeRoundIsFair() returns (r: seq<Act>)
    ensures FairRound(r)
  {
    var e := Everyone();
    r := e + e + e;
    forall h: nat | h <= 4 ensures Turns(r, h) == 3 {
      TurnsAdd(e, e, h);
      TurnsAdd(e + e, e, h);
    }
  }

  /** Every fair schedule that is long enough ends with stop returned. */
  ghost predicate AlwaysReturns(s: State)
    requires Shape(s)
  {
    forall rounds: seq<seq<Act>> | |rounds| >= 384 && (forall r | r in rounds :: FairRound(r)) ::
      Rounds(s, rounds).control.Stopped?
  }

  lemma CrampedMayHang(s: State) returns (rounds: seq<seq<Act>>)
    requires Cramped(s)
    ensures |rounds| == 384 && forall r | r in rounds :: FairRound(r)
    ensures !Rounds(s, rounds).control.Stopped?
  {
    var acts := Jam(s);
    var r := SomeRoundIsFair();
    FairPrefix(acts, r);
    rounds := [acts + r] + seq(383, _ => r);
    assert rounds[1..] == seq(383, _ => r);
    RunConcat(s, acts, r);
    RunKeepsHopeless(Run(s, acts), r);
    HopelessForEver(Run(s, rounds[0]), rounds[1..]);
  }

  /** Main result. Once stop has cleared the capture flag it returns, whatever the fair schedule, exactly if the
      model has loaded or the queue before the sleeping inference thread has room for every frame that
      preprocess may still have to send. */
  lemma StopReturnsIff(s: State)
    requires Reachable(s) && !s.control.Serving? && s.control != Clear(0)
    ensures Shape(s) && (AlwaysReturns(s) <==> Safe(s))
  {
    ReachableInv(s);
    if Safe(s) {
      forall rounds: seq<seq<Act>> | |rounds| >= 384 && (forall r | r in rounds :: FairRound(r))
        ensures Rounds(s, rounds).control.Stopped?
      {
        StopTerminates(s, rounds);
      }
    } else {
      var rounds := CrampedMayHang(s);
    }
  }

  /** With a model nothing is asked for. */
  lemma LoadedIsSafe(s: State, acts: seq<Act>)
    requires Shape(Init(true)) && s == Run(Init(true), acts)
    ensures Safe(s)
  {
    NeverAsleep(Init(true), acts);
  }

  lemma {:induction false} NeverAsleep(s: State, acts: seq<Act>)
    requires Shape(s) && !s.pc[2].Asleep?
    ensures !Run(s, acts).pc[2].Asleep?
    decreases |acts|
  {
    if acts != [] {
      StepShape(s, acts[0]);
      StaysAwake(s, acts[0]);
      NeverAsleep(Step(s, acts[0]), acts[1..]);
    }
  }

  lemma EightCaptured() returns (acts: seq<Act>)
    ensures Shape(Init(false)) && Paused(Run(Init(false), acts), false, 1, 7, 0, 8)
  {
    InitPaused(false);
    var a := FillSecond(Init(false), false, 0, 7, 0);
    var b := PausedCapture(Run(Init(false), a), false, 0, 7, 0, 7);
    acts := a + b;
    RunConcat(Init(false), a, b);
  }

  /** It does happen: eight frames captured without a model, then stop. */
  lemma StopCanHang() returns (acts: seq<Act>)
    ensures Shape(Init(false))
    ensures var s := Run(Init(false), acts);
            Reachable(s) && s.control == Join(0) && !Safe(s) && !AlwaysReturns(s)
  {
    var before := EightCaptured();
    var stop := [Act.Control, Act.Control];
    acts := before + stop;
    RunConcat(Init(false), before, stop);
    assert Reachable(Run(Init(false), acts));
    StopReturnsIff(Run(Init(false), acts));
  }

}
