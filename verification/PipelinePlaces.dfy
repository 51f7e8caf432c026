/** Where each thread of the pipeline can be, after every step: the part of the invariant that ties
    program counters, running flags, local variables and the calls under way inside the rings. */
module PipelinePlaces {
  import opened Pipeline
  import Q = SpscQueue

  lemma RingsAfter(s: State, s': State, k: nat, e: Q.Event<Ref>)
    requires Shape(s) && Shape(s') && RingsInv(s) && k < 3 && s'.q == s.q[k := Q.Step(s.q[k], e)]
    ensures RingsInv(s')
  {
    Q.StepInv(s.q[k], e);
  }

  // ---------------------------------------------------------------- push

  lemma PushControl(s: State, t: nat)
    requires Shape(s) && ControlInv(s) && t < 3 && s.pc[t].Send? && Shape(PushStep(s, t))
    ensures ControlInv(PushStep(s, t))
  {
  }

  lemma PushLocals(s: State, t: nat)
    requires Shape(s) && LocalInv(s) && t < 3 && s.pc[t].Send? && Shape(PushStep(s, t))
    ensures LocalInv(PushStep(s, t))
  {
  }

  /** What a stage in a queue call leaves alone: everything but its own place and one ring. */
  ghost predicate CallFrame(s: State, s': State, t: nat, k: nat)
    requires Shape(s) && Shape(s') && t < STAGES && k < 3
  {
    && s'.control == s.control && s'.run == s.run
    && (forall u | 0 <= u < STAGES && u != t :: s'.pc[u] == s.pc[u] && s'.local[u] == s.local[u])
    && (forall m | 0 <= m < 3 && m != k :: s'.q[m] == s.q[m])
  }

  lemma PushFrame(s: State, t: nat)
    requires Shape(s) && t < 3 && s.pc[t].Send? && Shape(PushStep(s, t))
    ensures CallFrame(s, PushStep(s, t), t, t) && PushStep(s, t).q[t].cons == s.q[t].cons
  {
  }

  lemma PushCalls(s: State, t: nat)
    requires Shape(s) && LocalInv(s) && CallInv(s) && t < 3 && s.pc[t].Send? && Shape(PushStep(s, t))
    ensures CallInv(PushStep(s, t))
  {
    PushFrame(s, t);
  }

  lemma PushPlaces(s: State, t: nat)
    requires Shape(s) && PlaceInv(s) && t < 3 && s.pc[t].Send?
    ensures Shape(PushStep(s, t)) && PlaceInv(PushStep(s, t))
  {
    PushShape(s, t);
    PushControl(s, t);
    PushLocals(s, t);
    PushCalls(s, t);
    RingsAfter(s, PushStep(s, t), t, Q.Produce(SendItem(s, t)));
  }

  // ---------------------------------------------------------------- pop

  lemma PopControl(s: State, t: nat)
    requires Shape(s) && ControlInv(s) && 1 <= t < STAGES && s.pc[t].Fetch? && Shape(PopStep(s, t))
    ensures ControlInv(PopStep(s, t))
  {
  }

  lemma PopLocals(s: State, t: nat)
    requires Shape(s) && LocalInv(s) && 1 <= t < STAGES && s.pc[t].Fetch? && Shape(PopStep(s, t))
    requires s.q[t - 1].cons.CCopied? ==> s.q[t - 1].cons.item.Ref?
    ensures LocalInv(PopStep(s, t))
  {
    PopFrame(s, t);
  }

  lemma PopFrame(s: State, t: nat)
    requires Shape(s) && 1 <= t < STAGES && s.pc[t].Fetch? && Shape(PopStep(s, t))
    ensures var s' := PopStep(s, t);
            && CallFrame(s, s', t, t - 1) && s'.q[t - 1].prod == s.q[t - 1].prod
            && (s'.pc[t].Fetch? || s'.q[t - 1].cons.CIdle?)
  {
  }

  lemma PopCalls(s: State, t: nat)
    requires Shape(s) && CallInv(s) && 1 <= t < STAGES && s.pc[t].Fetch? && Shape(PopStep(s, t))
    ensures CallInv(PopStep(s, t))
  {
    PopFrame(s, t);
  }

  lemma PopPlaces(s: State, t: nat)
    requires Shape(s) && PlaceInv(s) && 1 <= t < STAGES && s.pc[t].Fetch?
    requires s.q[t - 1].cons.CCopied? ==> s.q[t - 1].cons.item.Ref?
    ensures Shape(PopStep(s, t)) && PlaceInv(PopStep(s, t))
  {
    PopShape(s, t);
    PopControl(s, t);
    PopLocals(s, t);
    PopCalls(s, t);
    RingsAfter(s, PopStep(s, t), t - 1, Q.Consume);
  }

  // ---------------------------------------------------------------- the steps inside a stage

  predicate Inside(s: State, t: nat)
    requires t < |s.pc|
  {
    s.pc[t].Head? || s.pc[t].Work? || s.pc[t].DropResult? || s.pc[t].Release? || s.pc[t].Asleep?
    || s.pc[t].Exited?
    || (t == 0 && s.pc[t].Fetch?)
  }

  lemma InsideControl(s: State, t: nat, choice: bool, hint: SlotId)
    requires Shape(s) && ControlInv(s) && t < STAGES && Inside(s, t) && Shape(StageStep(s, t, choice, hint))
    ensures ControlInv(StageStep(s, t, choice, hint))
  {
  }

  lemma InsideLocals(s: State, t: nat, choice: bool, hint: SlotId)
    requires Shape(s) && LocalInv(s) && t < STAGES && Inside(s, t) && Shape(StageStep(s, t, choice, hint))
    ensures LocalInv(StageStep(s, t, choice, hint))
  {
  }

  lemma InsideCalls(s: State, t: nat, choice: bool, hint: SlotId)
    requires Shape(s) && CallInv(s) && t < STAGES && Inside(s, t) && Shape(StageStep(s, t, choice, hint))
    ensures CallInv(StageStep(s, t, choice, hint))
  {
  }

  lemma InsidePlaces(s: State, t: nat, choice: bool, hint: SlotId)
    requires Shape(s) && PlaceInv(s) && t < STAGES && Inside(s, t)
    ensures Shape(StageStep(s, t, choice, hint)) && PlaceInv(StageStep(s, t, choice, hint))
  {
    StageShape(s, t, choice, hint);
    InsideControl(s, t, choice, hint);
    InsideLocals(s, t, choice, hint);
    InsideCalls(s, t, choice, hint);
    assert StageStep(s, t, choice, hint).q == s.q;
  }

  // ---------------------------------------------------------------- stop

  lemma DrainControl(s: State, k: nat)
    requires Shape(s) && ControlInv(s) && CallInv(s) && k < 3 && s.control == Drain(k) && Shape(DrainStep(s, k))
    requires s.q[k].cons.CLoaded? && Q.ConsumerStep(s.q[k]).cons.CIdle? ==> |s.q[k].taken| == |s.q[k].sent|
    ensures ControlInv(DrainStep(s, k))
  {
  }

  lemma DrainFrame(s: State, k: nat)
    requires Shape(s) && k < 3 && s.control == Drain(k) && Shape(DrainStep(s, k))
    ensures var s' := DrainStep(s, k);
            && s'.pc == s.pc && s'.local == s.local && s'.run == s.run
            && (forall m | 0 <= m < 3 :: s'.q[m].prod == s.q[m].prod)
            && (forall m | 0 <= m < 3 && m != k :: s'.q[m] == s.q[m])
            && (s'.control == Drain(k) || s'.q[k].cons.CIdle?)
  {
  }

  lemma DrainCalls(s: State, k: nat)
    requires Shape(s) && CallInv(s) && k < 3 && s.control == Drain(k) && Shape(DrainStep(s, k))
    ensures CallInv(DrainStep(s, k))
  {
    DrainFrame(s, k);
  }

  lemma DrainRings(s: State, k: nat)
    requires Shape(s) && RingsInv(s) && k < 3 && s.control == Drain(k)
    ensures Shape(DrainStep(s, k)) && RingsInv(DrainStep(s, k))
    ensures s.q[k].cons.CLoaded? && Q.ConsumerStep(s.q[k]).cons.CIdle? ==> |s.q[k].taken| == |s.q[k].sent|
  {
    ControlShape(s);
    Q.RefusesExactlyWhenFullOrEmpty(s.q[k], Empty);
    RingsAfter(s, DrainStep(s, k), k, Q.Consume);
  }

  lemma DrainPlaces(s: State, k: nat)
    requires Shape(s) && PlaceInv(s) && k < 3 && s.control == Drain(k)
    ensures Shape(DrainStep(s, k)) && PlaceInv(DrainStep(s, k))
  {
    DrainRings(s, k);
    DrainControl(s, k);
    DrainCalls(s, k);
  }

  lemma ServiceControl(s: State)
    requires Shape(s) && ControlInv(s) && !s.control.Drain? && Shape(ControlStep(s))
    ensures ControlInv(ControlStep(s))
  {
  }

  lemma ServiceCalls(s: State)
    requires Shape(s) && CallInv(s) && !s.control.Drain? && Shape(ControlStep(s))
    ensures CallInv(ControlStep(s))
  {
  }

  lemma ControlPlaces(s: State)
    requires Shape(s) && PlaceInv(s)
    ensures Shape(ControlStep(s)) && PlaceInv(ControlStep(s))
  {
    ControlShape(s);
    if s.control.Drain? {
      DrainPlaces(s, s.control.k);
    } else {
      ServiceControl(s);
      ServiceCalls(s);
    }
  }
}
