/** Which frames have passed which stage, after every step: no stage duplicates or reorders frames. */
module PipelineFlow {
  import opened Pipeline
  import opened PipelinePlaces
  import Q = SpscQueue

  ghost predicate TakenIsPrefix(s: State)
    requires Shape(s)
  {
    && s.q[0].taken <= s.q[0].sent && s.q[1].taken <= s.q[1].sent && s.q[2].taken <= s.q[2].sent
  }

  lemma RingsGivePrefixes(s: State)
    requires Shape(s) && RingsInv(s)
    ensures TakenIsPrefix(s)
  {
  }

  lemma PrefixIncreasing(a: seq<Ref>, b: seq<Ref>)
    requires a <= b && Increasing(b)
    ensures Increasing(a)
  {
  }

  lemma AllIncreasing(refs: seq<Ref>, n: nat)
    requires AllCaptured(refs, n)
    ensures Increasing(refs)
  {
  }

  /** Every queue carries frames in capture order. */
  lemma QueuesIncreasing(s: State)
    requires Shape(s) && TakenIsPrefix(s) && FlowInv(s)
    ensures Increasing(s.q[0].sent) && Increasing(s.q[1].sent) && Increasing(s.q[2].sent)
  {
    AllIncreasing(Out(s, 0), s.captured);
    PrefixIncreasing(s.q[0].sent, Out(s, 0));
    assert s.q[1].sent <= Out(s, 1) <= s.q[0].taken <= s.q[0].sent;
    PrefixIncreasing(s.q[1].sent, s.q[0].sent);
    PrefixIncreasing(s.q[2].sent, Out(s, 2));
  }

  /** The item a pop has copied is the next one of its queue. */
  ghost predicate CopiesNext(r: Q.Ring<Ref>) {
    r.cons.CCopied? ==> r.taken + [r.cons.item] <= r.sent
  }

  lemma ConsumerCopiesNext(r: Q.Ring<Ref>)
    requires Q.Inv(r)
    ensures CopiesNext(r)
  {
    if r.cons.CCopied? {
      assert r.sent[..|r.taken| + 1] == r.taken + [r.cons.item];
    }
  }

  // ---------------------------------------------------------------- the flow alone

  lemma NextIsLater(out: seq<Ref>, taken: seq<Ref>, x: Ref)
    requires Increasing(out) && Increasing(taken + [x]) && forall r | r in out :: r in taken
    ensures Increasing(out + [x])
  {
    var all := taken + [x];
    assert all[|taken|] == x;
    forall j | 0 <= j < |out| ensures out[j].serial < x.serial {
      assert out[j] in taken;
      var k :| 0 <= k < |taken| && taken[k] == out[j];
      assert all[k] == taken[k];
    }
  }

  lemma InferenceTakes(f: Flow, x: Ref)
    requires Orderly(f) && Increasing(f.taken1 + [x])
    ensures Orderly(f.(taken1 := f.taken1 + [x], out2 := f.out2 + [x]))
  {
    NextIsLater(f.out2, f.taken1, x);
  }

  lemma InferenceSkips(f: Flow, kept: seq<Ref>)
    requires Orderly(f) && kept <= f.out2
    ensures Orderly(f.(out2 := kept))
  {
    PrefixIncreasing(kept, f.out2);
  }

  // ---------------------------------------------------------------- the steps

  lemma PushFlow(s: State, t: nat)
    requires Shape(s) && t < 3 && Sending(s, t) && s.pc[t].Send? && Shape(PushStep(s, t))
    ensures FlowOf(PushStep(s, t)) == FlowOf(s)
  {
    var s' := PushStep(s, t);
    assert Out(s', t) == Out(s, t);
    PushFrame(s, t);
  }

  function Append(f: Flow, t: nat, x: Ref): Flow {
    if t == 1 then f.(taken0 := f.taken0 + [x], out1 := f.out1 + [x])
    else if t == 2 then f.(taken1 := f.taken1 + [x], out2 := f.out2 + [x])
    else f.(taken2 := f.taken2 + [x], shown := f.shown + [x])
  }

  /** What one access of a consumer does to the histories of its ring. */
  lemma ConsumerHistory(r: Q.Ring<Ref>)
    requires Q.Bounds(r)
    ensures Q.ConsumerStep(r).sent == r.sent
    ensures Q.ConsumerStep(r).taken == if r.cons.CCopied? then r.taken + [r.cons.item] else r.taken
  {
  }

  lemma PopKeepsFlow(s: State, t: nat)
    requires Shape(s) && 1 <= t < STAGES && s.pc[t].Fetch? && !s.q[t - 1].cons.CCopied?
    ensures FlowOf(PopStep(s, t)) == FlowOf(s)
  {
    ConsumerHistory(s.q[t - 1]);
    var s' := PopStep(s, t);
    assert !HoldsFrame(s'.pc[t]) && s'.local == s.local;
    assert forall u | 0 <= u < STAGES && u != t :: s'.pc[u] == s.pc[u];
    SamePending(s, s');
  }

  lemma SamePending(s: State, s': State)
    requires |s.q| == |s'.q| == 3 && |s.pc| == |s.local| == |s'.pc| == |s'.local| == STAGES
    requires forall k | 0 <= k < 3 :: s'.q[k].sent == s.q[k].sent && s'.q[k].taken == s.q[k].taken
    requires forall u | 0 <= u < STAGES :: s'.local[u] == s.local[u]
    requires forall u | 0 <= u < STAGES :: s'.pc[u] == s.pc[u] || (!HoldsFrame(s.pc[u]) && !HoldsFrame(s'.pc[u]))
    requires s'.captured == s.captured && s'.shown == s.shown && s'.control == s.control
    ensures FlowOf(s') == FlowOf(s)
  {
  }

  lemma PopTakes(s: State, t: nat)
    requires Shape(s) && 1 <= t < STAGES && s.pc[t].Fetch? && s.q[t - 1].cons.CCopied?
    ensures FlowOf(PopStep(s, t)) == Append(FlowOf(s), t, s.q[t - 1].cons.item)
  {
    ConsumerHistory(s.q[t - 1]);
    var s' := PopStep(s, t);
    if t == 1 {
      assert Out(s', 0) == Out(s, 0) && Out(s', 2) == Out(s, 2);
    } else if t == 2 {
      assert Out(s', 0) == Out(s, 0) && Out(s', 1) == Out(s, 1);
    } else {
      assert Out(s', 0) == Out(s, 0) && Out(s', 1) == Out(s, 1) && Out(s', 2) == Out(s, 2);
    }
  }

  lemma PopOrderly(s: State, t: nat)
    requires Shape(s) && FlowInv(s) && TakenIsPrefix(s) && 1 <= t < STAGES && CopiesNext(s.q[t - 1])
    requires s.pc[t].Fetch? && Shape(PopStep(s, t)) && !Draining(s.control)
    ensures FlowInv(PopStep(s, t))
  {
    if !s.q[t - 1].cons.CCopied? {
      PopKeepsFlow(s, t);
    } else {
      PopTakes(s, t);
      if t == 2 {
        QueuesIncreasing(s);
        PrefixIncreasing(s.q[1].taken + [s.q[1].cons.item], s.q[1].sent);
        InferenceTakes(FlowOf(s), s.q[1].cons.item);
      }
    }
  }

  lemma CaptureOrderly(s: State, sample: bool, hint: SlotId)
    requires Shape(s) && FlowInv(s) && s.pc[0].Fetch? && Shape(CaptureStep(s, sample, hint))
    ensures FlowInv(CaptureStep(s, sample, hint))
  {
    var s' := CaptureStep(s, sample, hint);
    if s'.pc[0].Work? {
      assert Out(s', 0) == Out(s, 0) + [s'.local[0]];
      assert FlowOf(s') == FlowOf(s).(captured := s.captured + 1, out0 := Out(s, 0) + [s'.local[0]]);
    } else {
      assert FlowOf(s') == FlowOf(s);
    }
  }

  lemma SkipOrderly(s: State, hint: SlotId)
    requires Shape(s) && FlowInv(s) && s.pc[2].Work? && Shape(StageStep(s, 2, false, hint))
    ensures FlowInv(StageStep(s, 2, false, hint))
  {
    var s' := StageStep(s, 2, false, hint);
    assert Out(s', 0) == Out(s, 0) && Out(s', 1) == Out(s, 1) && Showing(s') == Showing(s);
    InferenceSkips(FlowOf(s), Out(s', 2));
    assert FlowOf(s') == FlowOf(s).(out2 := Out(s', 2));
  }

  /** From work to send nothing has passed yet; everywhere else there is no frame in hand. */
  lemma InsideKeepsFlow(s: State, t: nat, choice: bool, hint: SlotId)
    requires Shape(s) && t < STAGES && Shape(StageStep(s, t, choice, hint))
    requires !s.pc[t].Fetch? && !s.pc[t].Send? && (s.pc[t].DropResult? ==> t == 2)
    requires !(s.pc[t].Work? && (t == 3 || (t == 2 && !choice)))
    ensures FlowOf(StageStep(s, t, choice, hint)) == FlowOf(s)
  {
    var s' := StageStep(s, t, choice, hint);
    assert s'.q == s.q && s'.captured == s.captured && s'.shown == s.shown && s'.control == s.control;
    assert forall u | 0 <= u < STAGES && u != t :: s'.pc[u] == s.pc[u] && s'.local[u] == s.local[u];
    if t < 3 {
      assert Pending(s', t) == Pending(s, t);
    }
  }

  /** Loop heads, work and scope exits. */
  lemma InsideOrderly(s: State, t: nat, choice: bool, hint: SlotId)
    requires Shape(s) && FlowInv(s) && t < STAGES && Shape(StageStep(s, t, choice, hint))
    requires !s.pc[t].Fetch? && !s.pc[t].Send? && (s.pc[t].DropResult? ==> t == 2)
    ensures FlowInv(StageStep(s, t, choice, hint))
  {
    if s.pc[t].Work? && t == 3 {
    } else if s.pc[t].Work? && t == 2 && !choice {
      SkipOrderly(s, hint);
    } else {
      InsideKeepsFlow(s, t, choice, hint);
    }
  }

  lemma DrainHistories(s: State, k: nat)
    requires Shape(s) && k < 3 && s.control == Drain(k) && Shape(DrainStep(s, k))
    ensures var s' := DrainStep(s, k);
            && s'.shown == s.shown && s'.captured == s.captured && Draining(s'.control)
            && s'.q[k].sent == s.q[k].sent && s.q[k].taken <= s'.q[k].taken
  {
    ConsumerHistory(s.q[k]);
  }

  lemma DrainOrderly(s: State, k: nat)
    requires Shape(s) && FlowInv(s) && k < 3 && s.control == Drain(k) && Shape(DrainStep(s, k))
    ensures FlowInv(DrainStep(s, k))
  {
    DrainFrame(s, k);
    DrainHistories(s, k);
  }

  lemma ServiceOrderly(s: State)
    requires Shape(s) && FlowInv(s) && !s.control.Drain? && Shape(ControlStep(s))
    ensures FlowInv(ControlStep(s))
  {
    var s' := ControlStep(s);
    assert s'.q == s.q && s'.pc == s.pc && s'.local == s.local;
    assert FlowOf(s') == FlowOf(s).(draining := Draining(s'.control));
  }
}
