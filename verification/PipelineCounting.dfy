/** The use counts of the pipeline's frames equal the references that exist, after every step. */
module PipelineCounting {
  import opened Pipeline
  import Q = SpscQueue

  lemma {:induction false} OccUpdate(refs: seq<Ref>, j: nat, v: Ref, i: nat)
    requires j < |refs|
    ensures Occ(refs[j := v], i) + One(refs[j], i) == Occ(refs, i) + One(v, i)
    decreases |refs|
  {
    var u := refs[j := v];
    if j == 0 {
      assert u[1..] == refs[1..];
    } else {
      assert u[1..] == refs[1..][j - 1 := v];
      OccUpdate(refs[1..], j - 1, v, i);
    }
  }

  lemma {:induction false} OccAt(refs: seq<Ref>, j: nat)
    requires j < |refs| && refs[j].Ref?
    ensures Occ(refs, refs[j].slot) >= 1
    decreases |refs|
  {
    if j > 0 {
      OccAt(refs[1..], j - 1);
    }
  }

  /** Copying an existing reference and dropping an existing one keeps the table right. */
  lemma TableStep(u: Table, n: seq<nat>, m: seq<nat>, added: Ref, dropped: Ref)
    requires Agrees(u, n) && |m| == POOL
    requires forall i | 0 <= i < POOL :: m[i] + One(dropped, i) == n[i] + One(added, i)
    requires added.Ref? ==> n[added.slot] >= 1
    requires dropped.Ref? ==> n[dropped.slot] >= 1
    ensures Agrees(Let(Grab(u, added), dropped), m)
  {
  }

  lemma Moved(s: State, s': State, added: Ref, dropped: Ref)
    requires CountInv(s) && |s'.q| == 3
    requires s'.table == Let(Grab(s.table, added), dropped)
    requires forall i: nat | i < POOL :: Refs(s', i) + One(dropped, i) == Refs(s, i) + One(added, i)
    requires added.Ref? ==> Refs(s, added.slot) >= 1
    requires dropped.Ref? ==> Refs(s, dropped.slot) >= 1
    ensures CountInv(s')
  {
    TableStep(s.table, Tally(s), Tally(s'), added, dropped);
  }

  lemma Unmoved(s: State, s': State)
    requires CountInv(s) && |s'.q| == 3 && s'.table == s.table
    requires forall i: nat | i < POOL :: Refs(s', i) == Refs(s, i)
    ensures CountInv(s')
  {
    assert Tally(s') == Tally(s);
  }

  // ---------------------------------------------------------------- rings

  /** The references a ring holds, before and after one access of the producer. */
  lemma ProducerRefs(r: Q.Ring<Ref>, x: Ref, i: nat)
    requires Q.Bounds(r)
    ensures var r' := Q.ProducerStep(r, x);
            RingRefs(r', i) + (if r.prod.PRoom? then One(r.buf[r.prod.pos], i) else 0)
            == RingRefs(r, i) + (if r.prod.PRoom? then One(r.prod.item, i) else 0)
  {
    if r.prod.PRoom? {
      OccUpdate(r.buf, r.prod.pos, r.prod.item, i);
    }
  }

  /** And of the consumer: copying a cell adds a reference, finishing the call hands it to the caller. */
  lemma ConsumerRefs(r: Q.Ring<Ref>, i: nat)
    requires Q.Bounds(r)
    ensures var r' := Q.ConsumerStep(r);
            RingRefs(r', i) + (if r.cons.CCopied? then One(r.cons.item, i) else 0)
            == RingRefs(r, i) + (if r.cons.CData? then One(r.buf[r.cons.pos], i) else 0)
  {
  }

  lemma RingUpdated(s: State, s': State, k: nat, r: Q.Ring<Ref>, i: nat)
    requires |s.q| == 3 && k < 3 && s'.q == s.q[k := r]
    ensures RingRefs(s'.q[0], i) + RingRefs(s'.q[1], i) + RingRefs(s'.q[2], i) + RingRefs(s.q[k], i)
            == RingRefs(s.q[0], i) + RingRefs(s.q[1], i) + RingRefs(s.q[2], i) + RingRefs(r, i)
  {
  }

  lemma CellIsCounted(s: State, k: nat, pos: nat)
    requires |s.q| == 3 && k < 3 && pos < |s.q[k].buf| && s.q[k].buf[pos].Ref?
    ensures Refs(s, s.q[k].buf[pos].slot) >= 1
  {
    OccAt(s.q[k].buf, pos);
  }

  lemma LocalIsCounted(s: State, t: nat)
    requires |s.q| == 3 && t < |s.local| && s.local[t].Ref?
    ensures Refs(s, s.local[t].slot) >= 1
  {
    OccAt(s.local, t);
  }

  // ---------------------------------------------------------------- the steps

  lemma PushCounts(s: State, t: nat)
    requires Shape(s) && CountInv(s) && t < 3
    requires !s.q[t].prod.PIdle? ==> s.q[t].prod.item == s.local[t]
    ensures CountInv(PushStep(s, t))
  {
    var s' := PushStep(s, t);
    var r := s.q[t];
    forall i: nat | i < POOL
      ensures Refs(s', i) + (if r.prod.PRoom? then One(r.buf[r.prod.pos], i) else 0)
              == Refs(s, i) + (if r.prod.PRoom? then One(r.prod.item, i) else 0)
    {
      ProducerRefs(r, SendItem(s, t), i);
      RingUpdated(s, s', t, s'.q[t], i);
    }
    if r.prod.PRoom? {
      if r.buf[r.prod.pos].Ref? { CellIsCounted(s, t, r.prod.pos); }
      if s.local[t].Ref? { LocalIsCounted(s, t); }
      Moved(s, s', r.prod.item, r.buf[r.prod.pos]);
    } else {
      Unmoved(s, s');
    }
  }

  lemma PopCounts(s: State, t: nat)
    requires Shape(s) && CountInv(s) && 1 <= t < STAGES && s.local[t].Empty?
    ensures CountInv(PopStep(s, t))
  {
    var s' := PopStep(s, t);
    var r := s.q[t - 1];
    forall i: nat | i < POOL
      ensures Refs(s', i) == Refs(s, i) + (if r.cons.CData? then One(r.buf[r.cons.pos], i) else 0)
    {
      ConsumerRefs(r, i);
      RingUpdated(s, s', t - 1, s'.q[t - 1], i);
      if r.cons.CCopied? { OccUpdate(s.local, t, r.cons.item, i); }
    }
    if r.cons.CData? {
      if r.buf[r.cons.pos].Ref? { CellIsCounted(s, t - 1, r.cons.pos); }
      Moved(s, s', r.buf[r.cons.pos], Empty);
    } else {
      Unmoved(s, s');
    }
  }

  lemma CaptureCounts(s: State, sample: bool, hint: SlotId)
    requires Shape(s) && CountInv(s) && s.local[0].Empty?
    ensures CountInv(CaptureStep(s, sample, hint))
  {
    var s' := CaptureStep(s, sample, hint);
    var j := PickFree(s.table.slot, hint);
    if sample && j < POOL {
      forall i: nat | i < POOL ensures Refs(s', i) == Refs(s, i) + if i == j then 1 else 0 {
        OccUpdate(s.local, 0, Ref(j, s.captured), i);
      }
      assert Tally(s)[j] == 0;
      assert Agrees(s'.table, Tally(s'));
    } else {
      Unmoved(s, s');
    }
  }

  lemma WorkCounts(s: State, t: nat, choice: bool, hint: SlotId)
    requires Shape(s) && CountInv(s) && t < STAGES && s.pc[t].Work? && s.local[t].Ref? && (t == 2 ==> s.result.Empty?)
    ensures CountInv(StageStep(s, t, choice, hint))
  {
    var s' := StageStep(s, t, choice, hint);
    if t == 2 && choice {
      LocalIsCounted(s, 2);
      Moved(s, s', s.local[2], Empty);
    } else {
      Unmoved(s, s');
    }
  }

  lemma ReleaseCounts(s: State, t: nat, choice: bool, hint: SlotId)
    requires Shape(s) && CountInv(s) && t < STAGES && (s.pc[t].Release? || s.pc[t].DropResult?)
    ensures CountInv(StageStep(s, t, choice, hint))
  {
    var s' := StageStep(s, t, choice, hint);
    if s.pc[t].DropResult? {
      Moved(s, s', Empty, s.result);
    } else {
      forall i: nat | i < POOL ensures Refs(s', i) + One(s.local[t], i) == Refs(s, i) {
        OccUpdate(s.local, t, Empty, i);
      }
      if s.local[t].Ref? { LocalIsCounted(s, t); }
      Moved(s, s', Empty, s.local[t]);
    }
  }

  lemma InsideCounts(s: State, t: nat, choice: bool, hint: SlotId)
    requires Shape(s) && CountInv(s) && LocalInv(s) && t < STAGES && !s.pc[t].Send? && (s.pc[t].Fetch? ==> t == 0)
    ensures CountInv(StageStep(s, t, choice, hint))
  {
    match s.pc[t]
    case Fetch => CaptureCounts(s, choice, hint);
    case Work => WorkCounts(s, t, choice, hint);
    case DropResult => ReleaseCounts(s, t, choice, hint);
    case Release => ReleaseCounts(s, t, choice, hint);
    case Head => Unmoved(s, StageStep(s, t, choice, hint));
    case Asleep => Unmoved(s, StageStep(s, t, choice, hint));
    case Exited => Unmoved(s, StageStep(s, t, choice, hint));
    case Send =>
  }

  lemma DrainCounts(s: State, k: nat)
    requires Shape(s) && CountInv(s) && k < 3
    requires s.q[k].cons.CCopied? ==> (if k == 2 then s.resultVar else s.frameVar).Empty?
    ensures CountInv(DrainStep(s, k))
  {
    var s' := DrainStep(s, k);
    var r := s.q[k];
    var held := if k == 2 then s.resultVar else s.frameVar;
    forall i: nat | i < POOL
      ensures Refs(s', i) + (if r.cons.CData? then One(held, i) else 0)
              == Refs(s, i) + (if r.cons.CData? then One(r.buf[r.cons.pos], i) else 0)
    {
      ConsumerRefs(r, i);
      RingUpdated(s, s', k, s'.q[k], i);
    }
    if r.cons.CData? {
      if r.buf[r.cons.pos].Ref? { CellIsCounted(s, k, r.cons.pos); }
      Moved(s, s', r.buf[r.cons.pos], held);
    } else {
      Unmoved(s, s');
    }
  }

  lemma DropLocalsCounts(s: State)
    requires Shape(s) && CountInv(s) && s.control.DropLocals?
    ensures CountInv(ControlStep(s))
  {
    var mid := s.(table := Let(s.table, s.resultVar), resultVar := Empty);
    Moved(s, mid, Empty, s.resultVar);
    Moved(mid, ControlStep(s), Empty, s.frameVar);
  }

  lemma GiveBackCounts(s: State, i: SlotId)
    requires Shape(s) && CountInv(s)
    ensures CountInv(Step(s, GiveBack(i)))
  {
    var s' := Step(s, GiveBack(i));
    assert Tally(s') == Tally(s);
  }
}
