/** The pool cannot stay exhausted: while the pipeline serves, with a model, fair schedules bring a slot back. */
module PipelineRecovery {
  import opened Pipeline
  import opened PipelineCounting
  import opened PipelinePlaces
  import opened PipelineSafety
  import opened PipelineShutdown
  import opened PipelineRuns
  import Q = SpscQueue

  /** get_frame would find a frame. */
  ghost predicate HasFree(s: State)
    requires Shape(s)
  {
    exists i: nat | i < POOL :: s.table.slot[i].Free?
  }

  lemma HasFreeIsFound(s: State, hint: SlotId)
    requires Shape(s)
    ensures HasFree(s) <==> PickFree(s.table.slot, hint) < POOL
  {
  }

  /** A model is loaded and stop has not been called. */
  ghost predicate Serves(s: State) {
    Inv(s) && s.control.Serving? && !s.pc[2].Asleep?
  }

  // ---------------------------------------------------------------- capture waiting for a slot does no work

  /** Capture asking in vain counts as capture at its loop head. */
  ghost function Norm(s: State): State
    requires Shape(s)
  {
    if s.pc[0].Fetch? then s.(pc := s.pc[0 := Head]) else s
  }

  lemma NormFits(s: State)
    requires Shape(s) && PlaceInv(s)
    ensures Shape(Norm(s)) && PlaceInv(Norm(s))
  {
    assert forall k | 0 <= k < 3 :: Sending(s, k) && Popping(s, k);
    assert forall k | 0 <= k < 3 :: Sending(Norm(s), k) && Popping(Norm(s), k);
  }

  lemma PopCommutes(s: State, t: nat)
    requires Shape(s) && 1 <= t < STAGES && Shape(PopStep(s, t))
    ensures Norm(PopStep(s, t)) == PopStep(Norm(s), t)
  {
    if s.pc[0].Fetch? { assert s.pc[0 := Head][t] == s.pc[t]; }
    assert s.pc[0 := Head][t := Head] == s.pc[t := Head][0 := Head];
    assert s.pc[0 := Head][t := Work] == s.pc[t := Work][0 := Head];
  }

  lemma PushCommutes(s: State, t: nat)
    requires Shape(s) && 1 <= t < 3 && Shape(PushStep(s, t))
    ensures Norm(PushStep(s, t)) == PushStep(Norm(s), t)
  {
    var after := if t == 2 then DropResult else Release;
    assert SendItem(Norm(s), t) == SendItem(s, t);
    assert s.pc[0 := Head][t := after] == s.pc[t := after][0 := Head];
  }

  /** Two places of two stages, set in either order. */
  lemma PlacesCommute(pc: seq<Pc>, t: nat, next: Pc)
    requires |pc| == STAGES && 1 <= t < STAGES
    ensures pc[0 := Head][t := next] == pc[t := next][0 := Head]
    ensures pc[0 := Head][t] == pc[t] && pc[t := next][0] == pc[0]
  {
  }

  lemma WorkCommutes(s: State, t: nat, choice: bool, hint: SlotId)
    requires Shape(s) && 1 <= t < STAGES && s.pc[t].Work? && Shape(StageStep(s, t, choice, hint))
    ensures Norm(StageStep(s, t, choice, hint)) == StageStep(Norm(s), t, choice, hint)
  {
    PlacesCommute(s.pc, t, StageStep(s, t, choice, hint).pc[t]);
  }

  lemma EndCommutes(s: State, t: nat, choice: bool, hint: SlotId)
    requires Shape(s) && 1 <= t < STAGES && (s.pc[t].DropResult? || s.pc[t].Release?)
    requires Shape(StageStep(s, t, choice, hint))
    ensures Norm(StageStep(s, t, choice, hint)) == StageStep(Norm(s), t, choice, hint)
  {
    PlacesCommute(s.pc, t, StageStep(s, t, choice, hint).pc[t]);
  }

  lemma HeadCommutes(s: State, t: nat, choice: bool, hint: SlotId)
    requires Shape(s) && 1 <= t < STAGES && (s.pc[t].Head? || s.pc[t].Asleep? || s.pc[t].Exited?)
    requires Shape(StageStep(s, t, choice, hint))
    ensures Norm(StageStep(s, t, choice, hint)) == StageStep(Norm(s), t, choice, hint)
  {
    PlacesCommute(s.pc, t, StageStep(s, t, choice, hint).pc[t]);
  }

  lemma NormCommutes(s: State, t: nat, choice: bool, hint: SlotId)
    requires Shape(s) && 1 <= t < STAGES
    ensures Shape(StageStep(s, t, choice, hint)) && Shape(Norm(s))
    ensures Norm(StageStep(s, t, choice, hint)) == StageStep(Norm(s), t, choice, hint)
  {
    StageShape(s, t, choice, hint);
    if s.pc[t].Fetch? {
      PopCommutes(s, t);
    } else if s.pc[t].Send? && t < 3 {
      PushCommutes(s, t);
    } else if s.pc[t].Work? {
      WorkCommutes(s, t, choice, hint);
    } else if s.pc[t].DropResult? || s.pc[t].Release? {
      EndCommutes(s, t, choice, hint);
    } else if !s.pc[t].Send? {
      HeadCommutes(s, t, choice, hint);
    }
  }

  /** Asking in vain, or going to ask. */
  lemma CaptureWaits(s: State, choice: bool, hint: SlotId)
    requires Shape(s) && s.run[0] && !HasFree(s) && (s.pc[0].Head? || s.pc[0].Fetch?)
    ensures Shape(StageStep(s, 0, choice, hint)) && Norm(StageStep(s, 0, choice, hint)) == Norm(s)
  {
    StageShape(s, 0, choice, hint);
    HasFreeIsFound(s, hint);
  }

  ghost function Busyness(s: State): nat
    requires Shape(s)
  {
    Left(Norm(s))
  }

  /** Less is left, or h is still able, and closer if it acted. */
  ghost predicate Serving(s: State, s': State, h: nat, acted: bool)
    requires Shape(s) && Shape(s')
  {
    Advances(Norm(s), Norm(s'), h, acted)
  }

  lemma LaterStageServes(s: State, t: nat, choice: bool, hint: SlotId, h: nat)
    requires Shape(s) && PlaceInv(s) && 1 <= t < STAGES && Able(Norm(s), h)
    ensures Shape(StageStep(s, t, choice, hint)) && Serving(s, StageStep(s, t, choice, hint), h, t == h)
  {
    NormFits(s);
    NormCommutes(s, t, choice, hint);
    StageProgress(Norm(s), t, choice, hint);
    StageAdvances(Norm(s), StageStep(Norm(s), t, choice, hint), t, h);
  }

  lemma CaptureServes(s: State, choice: bool, hint: SlotId, h: nat)
    requires Shape(s) && PlaceInv(s) && s.run[0] && !HasFree(s) && Able(Norm(s), h)
    ensures Shape(StageStep(s, 0, choice, hint)) && Serving(s, StageStep(s, 0, choice, hint), h, 0 == h)
  {
    if s.pc[0].Head? || s.pc[0].Fetch? {
      CaptureWaits(s, choice, hint);
    } else {
      StageProgress(s, 0, choice, hint);
      StageAdvances(s, StageStep(s, 0, choice, hint), 0, h);
    }
  }

  lemma StageKeepsControl(s: State, t: nat, choice: bool, hint: SlotId)
    requires Shape(s) && t < STAGES
    ensures StageStep(s, t, choice, hint).control == s.control
  {
  }

  lemma StepKeepsControl(s: State, a: Act)
    requires Shape(s) && !a.Control?
    ensures Step(s, a).control == s.control
  {
    match a
    case Stage(t, choice, hint) => if t < STAGES { StageKeepsControl(s, t, choice, hint); }
    case GiveBack(i) =>
  }

  lemma StepKeepsServes(s: State, a: Act)
    requires Serves(s) && !a.Control?
    ensures Serves(Step(s, a))
  {
    StepKeepsControl(s, a);
    StepKeepsInv(s, a);
    StaysAwake(s, a);
  }

  lemma StepServes(s: State, a: Act, h: nat)
    requires Serves(s) && !a.Control? && !HasFree(s) && Able(Norm(s), h)
    ensures Serves(Step(s, a)) && (HasFree(Step(s, a)) || Serving(s, Step(s, a), h, Actor(a) == h && h < 4))
  {
    StepKeepsServes(s, a);
    match a
    case Stage(t, choice, hint) =>
      if t == 0 {
        CaptureServes(s, choice, hint, h);
      } else if t < STAGES {
        LaterStageServes(s, t, choice, hint, h);
      }
    case GiveBack(i) => assert s.table.slot[i].Returning? ==> Step(s, a).table.slot[i].Free?;
  }

  // ---------------------------------------------------------------- somebody can always move on

  lemma UnwantedHasNothing(s: State, t: nat)
    requires Shape(s) && PlaceInv(s) && s.control.Serving? && !s.pc[2].Asleep? && t < STAGES && !Wanted(Norm(s), t)
    ensures !HoldsFrame(s.pc[t]) && (t > 0 ==> Queued(s.q[t - 1]) == 0)
  {
    if t > 0 { assert Popping(s, t - 1); }
  }

  /** If nobody has anything to do, nothing is in hand and nothing is queued. */
  lemma NobodyWantedIsIdle(s: State)
    requires Serves(s) && forall t | 0 <= t < STAGES :: !Wanted(Norm(s), t)
    ensures Idle(s)
  {
    UnwantedHasNothing(s, 0);
    UnwantedHasNothing(s, 1);
    UnwantedHasNothing(s, 2);
    UnwantedHasNothing(s, 3);
  }

  lemma SomebodyServes(s: State) returns (h: nat)
    requires Serves(s) && Reachable(s) && !HasFree(s) && forall i | 0 <= i < POOL :: !s.table.slot[i].Returning?
    ensures h < STAGES && Able(Norm(s), h)
  {
    NormFits(s);
    if t: nat :| t < STAGES && Wanted(Norm(s), t) {
      h := Unblocked(Norm(s), t);
      UnblockedIsAble(Norm(s), t);
    } else {
      NobodyWantedIsIdle(s);
      PoolRecovers(s, 0);
      HasFreeIsFound(s, 0);
      assert false;
    }
  }

  // ---------------------------------------------------------------- fair schedules

  /** A slot is free at some point of the run. */
  ghost predicate FreedDuring(s: State, acts: seq<Act>)
    requires Shape(s)
    decreases |acts|
  {
    HasFree(s) || (acts != [] && (StepShape(s, acts[0]); FreedDuring(Step(s, acts[0]), acts[1..])))
  }

  ghost predicate FreedWithin(s: State, rounds: seq<seq<Act>>)
    requires Shape(s)
    decreases |rounds|
  {
    if rounds == [] then HasFree(s)
    else FreedDuring(s, rounds[0]) || FreedWithin(Run(s, rounds[0]), rounds[1..])
  }

  /** Every stage gets three turns and every release under way ends; stop is not called. */
  predicate FairService(acts: seq<Act>) {
    && Turns(acts, 0) >= 3 && Turns(acts, 1) >= 3 && Turns(acts, 2) >= 3 && Turns(acts, 3) >= 3
    && (forall i: SlotId :: GiveBack(i) in acts)
    && (forall a | a in acts :: !a.Control?)
  }

  lemma ReturningStays(s: State, a: Act, i: SlotId)
    requires Serves(s) && !a.Control? && s.table.slot[i].Returning? && a != GiveBack(i)
    ensures Sized(Step(s, a).table) && Step(s, a).table.slot[i].Returning?
  {
    match a
    case Stage(t, choice, hint) =>
      if t < STAGES && !(t == 0 && s.pc[0].Fetch?) { StageKeepsSlot(s, t, choice, hint, i); }
    case GiveBack(j) =>
  }

  lemma {:induction false} GivenBackInRound(s: State, acts: seq<Act>, i: SlotId)
    requires Serves(s) && s.table.slot[i].Returning? && GiveBack(i) in acts && forall a | a in acts :: !a.Control?
    ensures FreedDuring(s, acts)
    decreases |acts|
  {
    var a := acts[0];
    StepShape(s, a);
    StepKeepsServes(s, a);
    if a == GiveBack(i) {
      assert Step(s, a).table.slot[i].Free?;
      assert HasFree(Step(s, a));
    } else {
      ReturningStays(s, a, i);
      assert GiveBack(i) in acts[1..];
      GivenBackInRound(Step(s, a), acts[1..], i);
    }
  }

  lemma {:induction false} RunServes(s: State, acts: seq<Act>)
    requires Serves(s) && Reachable(s) && forall a | a in acts :: !a.Control?
    ensures Serves(Run(s, acts)) && Reachable(Run(s, acts))
    decreases |acts|
  {
    ReachRun(s, acts);
    if acts != [] {
      StepKeepsServes(s, acts[0]);
      ReachRun(s, acts[..1]);
      assert acts == acts[..1] + acts[1..];
      RunConcat(s, acts[..1], acts[1..]);
      RunServes(Run(s, acts[..1]), acts[1..]);
    }
  }

  /** Within a round either a slot is free at some point, or less is left. */
  lemma {:induction false} AbleServes(s: State, acts: seq<Act>, h: nat)
    requires Serves(s) && Able(Norm(s), h) && h < STAGES && (forall a | a in acts :: !a.Control?)
    requires Turns(acts, h) >= Rank(Norm(s), h)
    ensures FreedDuring(s, acts) || Busyness(Run(s, acts)) < Busyness(s)
    decreases |acts|
  {
    if !HasFree(s) {
      RankIsPositive(Norm(s), h);
      var a := acts[0];
      var s' := Step(s, a);
      StepShape(s, a);
      StepServes(s, a, h);
      if !HasFree(s') {
        if Busyness(s') < Busyness(s) {
          NeverBusier(s', acts[1..]);
        } else {
          AbleServes(s', acts[1..], h);
        }
      } else {
        assert FreedDuring(s', acts[1..]);
      }
    }
  }

  lemma StepNotBusier(s: State, a: Act)
    requires Serves(s) && !a.Control? && !HasFree(s)
    ensures Serves(Step(s, a)) && (HasFree(Step(s, a)) || Busyness(Step(s, a)) <= Busyness(s))
  {
    StepKeepsServes(s, a);
    NormFits(s);
    StepServes(s, a, 4);
  }

  lemma {:induction false} NeverBusier(s: State, acts: seq<Act>)
    requires Serves(s) && forall a | a in acts :: !a.Control?
    ensures FreedDuring(s, acts) || Busyness(Run(s, acts)) <= Busyness(s)
    decreases |acts|
  {
    if acts != [] && !HasFree(s) {
      StepShape(s, acts[0]);
      StepNotBusier(s, acts[0]);
      if HasFree(Step(s, acts[0])) {
        assert FreedDuring(Step(s, acts[0]), acts[1..]);
      } else {
        NeverBusier(Step(s, acts[0]), acts[1..]);
      }
    }
  }

  lemma RoundRelieves(s: State, acts: seq<Act>)
    requires Serves(s) && Reachable(s) && FairService(acts)
    ensures FreedDuring(s, acts) || Busyness(Run(s, acts)) < Busyness(s)
  {
    if !HasFree(s) {
      if i: SlotId :| s.table.slot[i].Returning? {
        GivenBackInRound(s, acts, i);
      } else {
        var h := SomebodyServes(s);
        RankIsPositive(Norm(s), h);
        AbleServes(s, acts, h);
      }
    }
  }

  lemma {:induction false} RoundsRelieve(s: State, rounds: seq<seq<Act>>)
    requires Serves(s) && Reachable(s) && |rounds| > Busyness(s) && forall r | r in rounds :: FairService(r)
    ensures FreedWithin(s, rounds)
    decreases |rounds|
  {
    RoundRelieves(s, rounds[0]);
    if !FreedDuring(s, rounds[0]) {
      RunServes(s, rounds[0]);
      RoundsRelieve(Run(s, rounds[0]), rounds[1..]);
    }
  }

  lemma BusynessIsBounded(s: State)
    requires Shape(s) && PlaceInv(s) && s.control.Serving?
    ensures Busyness(s) <= 385
  {
    var u := Norm(s);
    NormFits(s);
    assert Queued(u.q[0]) <= 7 && Queued(u.q[1]) <= 7 && Queued(u.q[2]) <= 7;
    StageWeightBound(0, u.pc[0], Q.CIdle, u.q[0].prod);
    StageWeightBound(1, u.pc[1], u.q[0].cons, u.q[1].prod);
    StageWeightBound(2, u.pc[2], u.q[1].cons, u.q[2].prod);
    StageWeightBound(3, u.pc[3], u.q[2].cons, Q.PIdle);
    assert StageLeft(u, 0) <= 30;
  }

  /** Main result. However exhausted the pool, while the pipeline serves with a model loaded, every schedule of
      386 fair rounds makes a slot free at some point, so that get_frame would find a frame. */
  lemma PoolNeverStaysExhausted(s: State, rounds: seq<seq<Act>>)
    requires Reachable(s) && Shape(s) && s.control.Serving? && !s.pc[2].Asleep?
    requires |rounds| >= 386 && forall r | r in rounds :: FairService(r)
    ensures FreedWithin(s, rounds)
  {
    ReachableInv(s);
    BusynessIsBounded(s);
    RoundsRelieve(s, rounds);
  }
}
