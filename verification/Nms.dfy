/** Per-class non-maximum suppression (gateway_engine/pipeline/stages/PostprocessStage.cpp:36-51, 207-228),
    over the reals. */
module Nms {
  import opened GreedyChoice

  datatype Detection = Detection(classId: int, confidence: real, x: real, y: real, w: real, h: real)

  function Max(a: real, b: real): real { if a < b then b else a }
  function Min(a: real, b: real): real { if b < a then b else a }

  /** The length two intervals share. */
  function Overlap(a: real, la: real, b: real, lb: real): real {
    Max(0.0, Min(a + la, b + lb) - Max(a, b))
  }

  function Inter(a: Detection, b: Detection): real {
    Overlap(a.x, a.w, b.x, b.w) * Overlap(a.y, a.h, b.y, b.h)
  }

  /** calc_iou. */
  function Iou(a: Detection, b: Detection): real {
    Ratio(Inter(a, b), Area(a) + Area(b) - Inter(a, b))
  }

  function Area(a: Detection): real { a.w * a.h }

  function Ratio(n: real, union: real): real {
    if union > 0.0 then n / union else 0.0
  }

  function Clash(limit: real): (Detection, Detection) -> bool {
    (a: Detection, b: Detection) => a.classId == b.classId && Iou(a, b) > limit
  }

  function Class(d: Detection): int { d.classId }
  function Confidence(d: Detection): real { d.confidence }

  // ---------------------------------------------------------------- the overlap measure

  lemma OverlapSymmetric(a: real, la: real, b: real, lb: real)
    ensures Overlap(a, la, b, lb) == Overlap(b, lb, a, la)
  {
  }

  lemma IouSymmetric(a: Detection, b: Detection)
    ensures Iou(a, b) == Iou(b, a)
  {
    OverlapSymmetric(a.x, a.w, b.x, b.w);
    OverlapSymmetric(a.y, a.h, b.y, b.h);
    assert Inter(a, b) == Inter(b, a);
  }

  lemma OverlapBounds(a: real, la: real, b: real, lb: real)
    requires la >= 0.0 && lb >= 0.0
    ensures 0.0 <= Overlap(a, la, b, lb) <= la && Overlap(a, la, b, lb) <= lb
  {
  }

  lemma ProductBounds(p: real, q: real, w: real, h: real)
    requires 0.0 <= p <= w && 0.0 <= q <= h
    ensures 0.0 <= p * q <= w * h
  {
    assert p * q <= w * q <= w * h;
  }

  lemma RatioBounds(n: real, p: real, q: real)
    requires 0.0 <= n <= p && n <= q
    ensures 0.0 <= Ratio(n, p + q - n) <= 1.0
  {
    if p + q - n > 0.0 { Quotient(n, p + q - n); }
  }

  lemma Quotient(n: real, d: real)
    requires 0.0 <= n <= d && d > 0.0
    ensures 0.0 <= n / d <= 1.0
  {
  }

  lemma InterBounds(a: Detection, b: Detection)
    requires a.w >= 0.0 && a.h >= 0.0 && b.w >= 0.0 && b.h >= 0.0
    ensures 0.0 <= Inter(a, b) <= Area(a) && Inter(a, b) <= Area(b)
  {
    var p, q := Overlap(a.x, a.w, b.x, b.w), Overlap(a.y, a.h, b.y, b.h);
    OverlapBounds(a.x, a.w, b.x, b.w);
    OverlapBounds(a.y, a.h, b.y, b.h);
    ProductBounds(p, q, a.w, a.h);
    ProductBounds(p, q, b.w, b.h);
  }

  /** The measure lies between 0 and 1. */
  lemma IouBounds(a: Detection, b: Detection)
    requires a.w >= 0.0 && a.h >= 0.0 && b.w >= 0.0 && b.h >= 0.0
    ensures 0.0 <= Iou(a, b) <= 1.0
  {
    InterBounds(a, b);
    RatioBounds(Inter(a, b), Area(a), Area(b));
  }

  /** A box of positive area overlaps itself entirely. */
  lemma IouOfSame(a: Detection)
    requires a.w > 0.0 && a.h > 0.0
    ensures Iou(a, a) == 1.0
  {
    assert Overlap(a.x, a.w, a.x, a.w) == a.w && Overlap(a.y, a.h, a.y, a.h) == a.h;
    AreaPositive(a.w, a.h);
    assert Inter(a, a) == Area(a);
    Whole(Area(a));
  }

  lemma AreaPositive(w: real, h: real)
    requires w > 0.0 && h > 0.0
    ensures w * h > 0.0
  {
  }

  lemma Whole(n: real)
    requires n > 0.0
    ensures Ratio(n, n + n - n) == 1.0
  {
  }

  // ---------------------------------------------------------------- what it measures

  /** The unit cells of a box with whole coordinates. */
  function Cells(x: int, y: int, w: nat, h: nat): set<(int, int)> {
    set i, j | x <= i < x + w && y <= j < y + h :: (i, j)
  }

  lemma {:induction false} CellsInRow(x: int, y: int, w: nat)
    ensures |Cells(x, y, w, 1)| == w
    decreases w
  {
    if w > 0 {
      CellsInRow(x, y, w - 1);
      assert Cells(x, y, w, 1) == Cells(x, y, w - 1, 1) + {(x + w - 1, y)};
    } else {
      assert Cells(x, y, 0, 1) == {};
    }
  }

  lemma OneRowMore(w: nat, h: nat)
    requires h > 0
    ensures w * h == w * (h - 1) + w
  {
  }

  lemma LastRow(x: int, y: int, w: nat, h: nat)
    requires h > 0
    ensures |Cells(x, y, w, h)| == |Cells(x, y, w, h - 1)| + |Cells(x, y + h - 1, w, 1)|
  {
    assert Cells(x, y, w, h) == Cells(x, y, w, h - 1) + Cells(x, y + h - 1, w, 1);
    assert Cells(x, y, w, h - 1) !! Cells(x, y + h - 1, w, 1);
  }

  lemma {:induction false} CellsInBox(x: int, y: int, w: nat, h: nat)
    ensures |Cells(x, y, w, h)| == w * h
    decreases h
  {
    if h > 0 {
      CellsInBox(x, y, w, h - 1);
      CellsInRow(x, y + h - 1, w);
      LastRow(x, y, w, h);
      OneRowMore(w, h);
    } else {
      assert Cells(x, y, w, 0) == {};
    }
  }

  lemma {:induction false} RealProduct(a: nat, b: nat)
    ensures (a * b) as real == a as real * b as real
    decreases b
  {
    if b > 0 {
      RealProduct(a, b - 1);
      assert a * b == a * (b - 1) + a;
      assert a as real * b as real == a as real * (b - 1) as real + a as real;
    }
  }

  /** The whole length two intervals share. */
  function Shared(a: int, la: nat, b: int, lb: nat): nat {
    var from := if a < b then b else a;
    var to := if b + lb < a + la then b + lb else a + la;
    if from < to then to - from else 0
  }

  lemma SharedIsOverlap(a: int, la: nat, b: int, lb: nat)
    ensures Overlap(a as real, la as real, b as real, lb as real) == Shared(a, la, b, lb) as real
  {
  }

  /** A box in whole coordinates. */
  datatype Box = Box(x: int, y: int, w: nat, h: nat)

  function Inside(b: Box): set<(int, int)> {
    Cells(b.x, b.y, b.w, b.h)
  }

  function Detected(b: Box, classId: int, confidence: real): Detection {
    Detection(classId, confidence, b.x as real, b.y as real, b.w as real, b.h as real)
  }

  lemma CommonCells(a: Box, b: Box)
    ensures |Inside(a) * Inside(b)| == Shared(a.x, a.w, b.x, b.w) * Shared(a.y, a.h, b.y, b.h)
  {
    var x, y := if a.x < b.x then b.x else a.x, if a.y < b.y then b.y else a.y;
    var w, h := Shared(a.x, a.w, b.x, b.w), Shared(a.y, a.h, b.y, b.h);
    assert Inside(a) * Inside(b) == Cells(x, y, w, h);
    CellsInBox(x, y, w, h);
  }

  lemma AreaIsCells(a: Box, classId: int, confidence: real)
    ensures Area(Detected(a, classId, confidence)) == |Inside(a)| as real
  {
    CellsInBox(a.x, a.y, a.w, a.h);
    RealProduct(a.w, a.h);
  }

  lemma InterIsShared(a: Box, b: Box, classA: int, classB: int, confA: real, confB: real)
    ensures Inter(Detected(a, classA, confA), Detected(b, classB, confB))
            == (Shared(a.x, a.w, b.x, b.w) * Shared(a.y, a.h, b.y, b.h)) as real
  {
    SharedIsOverlap(a.x, a.w, b.x, b.w);
    SharedIsOverlap(a.y, a.h, b.y, b.h);
    ProductOf(Overlap(a.x as real, a.w as real, b.x as real, b.w as real), Shared(a.x, a.w, b.x, b.w),
              Overlap(a.y as real, a.h as real, b.y as real, b.h as real), Shared(a.y, a.h, b.y, b.h));
  }

  lemma InterIsCells(a: Box, b: Box, classA: int, classB: int, confA: real, confB: real)
    ensures Inter(Detected(a, classA, confA), Detected(b, classB, confB)) == |Inside(a) * Inside(b)| as real
  {
    CommonCells(a, b);
    InterIsShared(a, b, classA, classB, confA, confB);
  }

  lemma ProductOf(p: real, m: nat, q: real, n: nat)
    requires p == m as real && q == n as real
    ensures p * q == (m * n) as real
  {
    RealProduct(m, n);
  }

  /** For boxes in whole coordinates it is the number of cells in both over the number of cells in either. */
  lemma IouCountsCells(a: Box, b: Box, classA: int, classB: int, confA: real, confB: real)
    ensures var both, either := |Inside(a) * Inside(b)|, |Inside(a) + Inside(b)|;
            Iou(Detected(a, classA, confA), Detected(b, classB, confB))
            == if either == 0 then 0.0 else both as real / either as real
  {
    AreaIsCells(a, classA, confA);
    AreaIsCells(b, classB, confB);
    InterIsCells(a, b, classA, classB, confA, confB);
    assert |Inside(a) + Inside(b)| == |Inside(a)| + |Inside(b)| - |Inside(a) * Inside(b)|;
  }

  // ---------------------------------------------------------------- suppression

  /** The suppression loops, on a list already sorted. */
  method Suppress(ds: seq<Detection>, limit: real) returns (kept: seq<Detection>)
    ensures kept == Greedy(Clash(limit), ds)
  {
    ghost var clash := Clash(limit);
    kept := [];
    var suppressed := new bool[|ds|](_ => false);
    LiveAtFirst(ds, suppressed[..], 0);
    for i := 0 to |ds|
      invariant Greedy(clash, ds) == kept + Greedy(clash, Live(ds, suppressed[..], i))
    {
      ghost var before := suppressed[..];
      if !suppressed[i] {
        kept := kept + [ds[i]];
        SuppressAfter(ds, limit, suppressed, i);
      }
      LiveNext(clash, ds, before, suppressed[..], i);
    }
  }

  /** The inner loop. */
  method SuppressAfter(ds: seq<Detection>, limit: real, suppressed: array<bool>, i: nat)
    requires i < |ds| == suppressed.Length
    modifies suppressed
    ensures suppressed[..i + 1] == old(suppressed[..i + 1])
    ensures Marked(Clash(limit), ds, old(suppressed[..]), suppressed[..], ds[i], i + 1)
  {
    for j := i + 1 to |ds|
      invariant suppressed[..i + 1] == old(suppressed[..i + 1])
      invariant suppressed[j..] == old(suppressed[j..])
      invariant forall k | i < k < j :: suppressed[k] <==> old(suppressed[k]) || Clash(limit)(ds[i], ds[k])
    {
      assert suppressed[j] == suppressed[j..][0] == old(suppressed[j..])[0];
      if !suppressed[j] && ds[i].classId == ds[j].classId && Iou(ds[i], ds[j]) > limit {
        suppressed[j] := true;
      }
      assert suppressed[j + 1..] == suppressed[j..][1..];
    }
  }

  /** No two kept boxes of a class overlap by more than the limit. */
  lemma KeptDoNotOverlap(ds: seq<Detection>, limit: real, i: nat, j: nat)
    requires i < |Greedy(Clash(limit), ds)| && j < |Greedy(Clash(limit), ds)| && i != j
    ensures var kept := Greedy(Clash(limit), ds);
            kept[i].classId == kept[j].classId ==> Iou(kept[i], kept[j]) <= limit
  {
    var kept := Greedy(Clash(limit), ds);
    KeptAreApart(Clash(limit), ds);
    IouSymmetric(kept[i], kept[j]);
    assert !Clash(limit)(kept[if i < j then i else j], kept[if i < j then j else i]);
  }

  /** Kept box i is of the class of box j, of no lower confidence, and overlaps it by more than the limit. */
  ghost predicate CoveredBy(ds: seq<Detection>, kept: seq<bool>, i: nat, j: nat, limit: real)
    requires |ds| == |kept| && j < |ds|
  {
    && i < j && kept[i] && ds[i].classId == ds[j].classId
    && ds[i].confidence >= ds[j].confidence && Iou(ds[i], ds[j]) > limit
  }

  /** The result consists of the boxes at some positions, and the box at every other position, a copy of a kept
      one included, is covered by one of them. */
  lemma DroppedIsCovered(ds: seq<Detection>, limit: real) returns (kept: seq<bool>)
    requires Sorted(Confidence, ds)
    ensures |kept| == |ds| && Pick(ds, kept, 0) == Greedy(Clash(limit), ds)
    ensures forall j | 0 <= j < |ds| :: kept[j] <==> !exists i: nat :: CoveredBy(ds, kept, i, j, limit)
  {
    kept := GreedyByPosition(Clash(limit), Confidence, ds);
    forall j | 0 <= j < |ds| ensures kept[j] <==> !exists i: nat :: CoveredBy(ds, kept, i, j, limit) {
      if !kept[j] {
        var i: nat :| Covers(Clash(limit), Confidence, ds, kept, i, j);
        assert CoveredBy(ds, kept, i, j, limit);
      }
    }
  }

  /** Suppressing twice changes nothing. */
  lemma Idempotent(ds: seq<Detection>, limit: real)
    ensures Greedy(Clash(limit), Greedy(Clash(limit), ds)) == Greedy(Clash(limit), ds)
  {
    KeptAreApart(Clash(limit), ds);
    UnchangedIffApart(Clash(limit), Greedy(Clash(limit), ds));
  }

  /** Each class could be suppressed on its own. */
  lemma ClassesAreIndependent(ds: seq<Detection>, limit: real, c: int)
    ensures OfGroup(Class, Greedy(Clash(limit), ds), c) == Greedy(Clash(limit), OfGroup(Class, ds, c))
  {
    GroupsAreIndependent(Clash(limit), Class, ds, c);
  }
}
