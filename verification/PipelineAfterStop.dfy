/** What is left when stop has returned: the queues are empty, but a popped cell keeps its reference. */
module PipelineAfterStop {
  import opened Pipeline
  import opened PipelineCounting
  import opened PipelinePlaces
  import opened PipelineFlow
  import opened PipelineSafety
  import opened PipelineShutdown
  import opened PipelineRuns
  import opened PipelineDeadlocks
  import Q = SpscQueue

  /** Frame j of queue k is among the last eight that went through it, and it lies in slot i. */
  ghost predicate LastSent(s: State, i: nat, k: nat, j: nat)
    requires Shape(s)
  {
    k < 3 && j < |s.q[k].sent| <= j + CAPACITY && One(s.q[k].sent[j], i) == 1
  }

  /** When stop has returned nobody is inside a call and no variable holds a frame. */
  ghost predicate AtRest(s: State)
    requires Shape(s)
  {
    && (forall t | 0 <= t < STAGES :: s.local[t].Empty?)
    && s.result.Empty? && s.frameVar.Empty? && s.resultVar.Empty?
    && (forall k | 0 <= k < 3 :: s.q[k].prod.PIdle? && s.q[k].cons.CIdle? && |s.q[k].taken| == |s.q[k].sent|)
  }

  lemma StoppedIsAtRest(s: State)
    requires Shape(s) && ControlInv(s) && LocalInv(s) && CallInv(s) && s.control.Stopped?
    ensures AtRest(s)
  {
    assert forall k | 0 <= k < 3 :: Sending(s, k) && Popping(s, k);
  }

  /** At rest only cells refer to frames. */
  lemma AtRestRefs(s: State, i: nat) returns (k: nat)
    requires Shape(s) && AtRest(s) && Refs(s, i) >= 1
    ensures k < 3 && Occ(s.q[k].buf, i) >= 1
  {
    BlankCells(s.local, i);
    k := if Occ(s.q[0].buf, i) >= 1 then 0 else if Occ(s.q[1].buf, i) >= 1 then 1 else 2;
  }

  lemma CellWasSent(r: Q.Ring<Ref>, i: nat) returns (j: nat)
    requires |r.buf| == CAPACITY && Q.Retains(r, Empty) && r.prod.PIdle? && Occ(r.buf, i) >= 1
    ensures j < |r.sent| <= j + CAPACITY && One(r.sent[j], i) == 1
  {
    OccWitness(r.buf, i);
    var c :| 0 <= c < |r.buf| && r.buf[c].Ref? && r.buf[c].slot == i;
    var found := Q.LayoutOnlyHolds(CAPACITY, Empty, r.sent, c);
    j := found;
  }

  lemma SentIsCounted(s: State, i: nat, k: nat, j: nat)
    requires Shape(s) && AtRest(s) && CountInv(s) && k < 3 && Q.Retains(s.q[k], Empty) && LastSent(s, i, k, j)
    ensures i < POOL && s.table.slot[i].Held?
  {
    Q.LayoutHolds(CAPACITY, Empty, s.q[k].sent, j);
    CellIsCounted(s, k, j % CAPACITY);
    assert Tally(s)[i] >= 1;
  }

  lemma HeldWasSent(s: State, i: nat) returns (k: nat, j: nat)
    requires Shape(s) && AtRest(s) && CountInv(s) && Retained(s) && i < POOL && s.table.slot[i].Held?
    ensures LastSent(s, i, k, j)
  {
    assert Tally(s)[i] >= 1;
    k := AtRestRefs(s, i);
    j := CellWasSent(s.q[k], i);
  }

  /** What the invariants say about the state after stop. */
  ghost predicate Final(s: State) {
    Shape(s) && AtRest(s) && CountInv(s) && Retained(s)
  }

  lemma StoppedIsFinal(s: State)
    requires Reachable(s) && Shape(s) && s.control.Stopped?
    ensures Final(s) && Increasing(s.q[0].sent)
    ensures s.q[0].sent == [] ==> s.q[1].sent == [] && s.q[2].sent == []
  {
    ReachableInv(s);
    StoppedIsAtRest(s);
    RingsGivePrefixes(s);
    QueuesIncreasing(s);
    if s.q[0].sent == [] { NothingSentAfter(s); }
  }

  lemma HeldIffSent(s: State, i: nat)
    requires Final(s) && i < POOL
    ensures s.table.slot[i].Held? <==> exists k, j :: LastSent(s, i, k, j)
  {
    if s.table.slot[i].Held? {
      var k, j := HeldWasSent(s, i);
    }
    if k, j :| LastSent(s, i, k, j) {
      SentIsCounted(s, i, k, j);
    }
  }

  /** Exactly which slots are missing from the pool when stop has returned: those of the last eight frames
      that went through each of the three queues. */
  lemma HeldAfterStopIff(s: State, i: nat)
    requires Reachable(s) && Shape(s) && s.control.Stopped? && i < POOL
    ensures s.table.slot[i].Held? <==> exists k, j :: LastSent(s, i, k, j)
  {
    StoppedIsFinal(s);
    HeldIffSent(s, i);
  }

  lemma SomethingIn(a: seq<Ref>, b: seq<Ref>)
    requires forall k | 0 <= k < |a| :: a[k] in b
    ensures a != [] ==> b != []
  {
    if a != [] {
      assert a[0] in b;
    }
  }

  lemma NothingSentAfter(s: State)
    requires Shape(s) && FlowInv(s) && TakenIsPrefix(s) && s.q[0].sent == []
    ensures s.q[1].sent == [] && s.q[2].sent == []
  {
    assert s.q[1].sent <= Out(s, 1) <= s.q[0].taken;
    SomethingIn(Out(s, 2), s.q[1].taken);
  }

  lemma NewestIsHeld(s: State)
    requires Final(s) && Increasing(s.q[0].sent) && s.q[0].sent != []
    ensures exists i | 0 <= i < POOL :: s.table.slot[i].Held?
  {
    var j := |s.q[0].sent| - 1;
    var i := s.q[0].sent[j].slot;
    assert LastSent(s, i, 0, j);
    SentIsCounted(s, i, 0, j);
  }

  lemma NoneIsHeld(s: State)
    requires Final(s) && s.q[0].sent == s.q[1].sent == s.q[2].sent == []
    ensures forall i | 0 <= i < POOL :: !s.table.slot[i].Held?
  {
    forall i | 0 <= i < POOL ensures !s.table.slot[i].Held? {
      HeldIffSent(s, i);
    }
  }

  /** So stop releases every frame exactly if none was ever sent. */
  lemma AllReleasedIffNothingSent(s: State)
    requires Reachable(s) && Shape(s) && s.control.Stopped?
    ensures |s.table.slot| == POOL
    ensures (forall i | 0 <= i < POOL :: !s.table.slot[i].Held?) <==> s.q[0].sent == []
  {
    StoppedIsFinal(s);
    if s.q[0].sent == [] { NoneIsHeld(s); } else { NewestIsHeld(s); }
  }

  // ---------------------------------------------------------------- such a state is reached

  lemma StepSendsMore(s: State, a: Act)
    requires Shape(s)
    ensures Shape(Step(s, a)) && |Step(s, a).q[0].sent| >= |s.q[0].sent|
  {
    StepShape(s, a);
    StepIsOneAccess(s, a);
  }

  lemma {:induction false} RunSendsMore(s: State, acts: seq<Act>)
    requires Shape(s)
    ensures |Run(s, acts).q[0].sent| >= |s.q[0].sent|
    decreases |acts|
  {
    if acts != [] {
      StepSendsMore(s, acts[0]);
      RunSendsMore(Step(s, acts[0]), acts[1..]);
    }
  }

  /** A schedule is a run. */
  lemma {:induction false} RoundsReach(s: State, rounds: seq<seq<Act>>)
    requires Reachable(s) && Shape(s)
    ensures Reachable(Rounds(s, rounds)) && |Rounds(s, rounds).q[0].sent| >= |s.q[0].sent|
    decreases |rounds|
  {
    if rounds != [] {
      ReachRun(s, rounds[0]);
      RunSendsMore(s, rounds[0]);
      RoundsReach(Run(s, rounds[0]), rounds[1..]);
    }
  }

  lemma OneCaptured() returns (acts: seq<Act>)
    ensures Shape(Init(true)) && Paused(Run(Init(true), acts), true, 1, 0, 0, 1)
  {
    InitPaused(true);
    acts := PausedCapture(Init(true), true, 0, 0, 0, 0);
  }

  /** One frame sent, then stop, run to its end: stop has returned and that frame is still out. */
  lemma FrameStaysOut() returns (s: State, i: nat)
    ensures Reachable(s) && Shape(s) && s.control.Stopped? && s.q[0].sent != []
    ensures i < POOL && s.table.slot[i].Held?
  {
    var before := OneCaptured();
    var s0 := Run(Init(true), before);
    assert Reachable(s0);
    var stop := [Act.Control, Act.Control];
    var s1 := Run(s0, stop);
    ReachRun(s0, stop);
    RunSendsMore(s0, stop);
    var r := SomeRoundIsFair();
    var rounds := seq(384, _ => r);
    StopTerminates(s1, rounds);
    RoundsReach(s1, rounds);
    s := Rounds(s1, rounds);
    AllReleasedIffNothingSent(s);
    i :| 0 <= i < POOL && s.table.slot[i].Held?;
  }
}
