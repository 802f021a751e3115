/**
 Walls folded flat onto themselves. The segment test never looks at parallel
 segments, so a wall that fold removal hands back may overlap itself; it does so
 only where the wall it was given already did.
 */
module FoldOverlaps {
  import opened FoldProofs
  import opened Folds
  import opened Geometry
  import opened Options
  import opened Products

  predicate HasLength(ring: Ring, i: nat)
    requires i < |ring|
  {
    Direction(ring, i) != Point(0.0, 0.0)
  }

  /** Two segments with length that do not follow each other share a point. */
  ghost predicate Touch(ring: Ring, i: nat, j: nat)
    requires i < j < |ring|
  {
    && !Adjacent(|ring|, i, j) && HasLength(ring, i) && HasLength(ring, j)
    && Share(ring[i], Direction(ring, i), ring[j], Direction(ring, j))
  }

  ghost predicate Overlap(ring: Ring, i: nat, j: nat)
    requires i < j < |ring|
  {
    Touch(ring, i, j) && Wedge(Direction(ring, i), Direction(ring, j)) == 0.0
  }

  ghost predicate NoneTouch(ring: Ring) {
    forall i: nat, j: nat :: i < j < |ring| ==> !Touch(ring, i, j)
  }

  ghost predicate NoOverlap(ring: Ring) {
    forall i: nat, j: nat :: i < j < |ring| ==> !Overlap(ring, i, j)
  }

  lemma WedgeNeedsLength(d1: Point, d2: Point)
    requires Wedge(d1, d2) != 0.0
    ensures d1 != Point(0.0, 0.0) && d2 != Point(0.0, 0.0)
  {
  }

  /** A wall in which the test finds nothing meets itself nowhere exactly when no
      parallel segments of it overlap. */
  lemma UnseenExact(ring: Ring)
    requires AllCrossings(ring) == []
    ensures NoneTouch(ring) <==> NoOverlap(ring)
  {
    hide AllCrossings, Adjacent, Share, Wedge, Direction;
    NoCrossingsExact(ring);
    if NoOverlap(ring) {
      forall i: nat, j: nat | i < j < |ring|
        ensures !Touch(ring, i, j)
      {
        assert !Overlap(ring, i, j) && !Cross(ring, i, j);
      }
    } else {
      var i: nat, j: nat :| i < j < |ring| && Overlap(ring, i, j);
      assert Touch(ring, i, j);
    }
  }

  // --- a cut leaves stretches of the segments it found

  /** The segment at q along e is part of the one at p along d, f of it from a on. */
  ghost predicate StretchBy(q: Point, e: Point, p: Point, d: Point, a: real, f: real) {
    0.0 <= a && 0.0 <= f && a + f <= 1.0 && q == Along(p, d, a) && e == Scaled(d, f)
  }

  ghost predicate Stretch(q: Point, e: Point, p: Point, d: Point) {
    exists a, f :: StretchBy(q, e, p, d, a, f)
  }

  lemma WholeStretch(p: Point, d: Point)
    ensures Stretch(p, d, p, d)
  {
    assert StretchBy(p, d, p, d, 0.0, 1.0);
  }

  /** A point of a segment splits it into two stretches. */
  lemma SplitStretch(p: Point, d: Point, t: real)
    requires 0.0 <= t <= 1.0
    ensures var x, end := Along(p, d, t), Along(p, d, 1.0);
      Stretch(p, Minus(x, p), p, d) && Stretch(x, Minus(end, x), p, d)
  {
    assert StretchBy(p, Minus(Along(p, d, t), p), p, d, 0.0, t);
    assert StretchBy(Along(p, d, t), Minus(Along(p, d, 1.0), Along(p, d, t)), p, d, t, 1.0 - t);
  }

  /** Where a stretch has the point at t, its segment has it at a + f t. */
  lemma StretchPoint(q: Point, e: Point, p: Point, d: Point, a: real, f: real, t: real)
    requires StretchBy(q, e, p, d, a, f) && 0.0 <= t <= 1.0
    ensures 0.0 <= a + f * t <= 1.0 && Along(q, e, t) == Along(p, d, a + f * t)
  {
    ProductNonNegative(f, t);
    ProductNonNegative(f, 1.0 - t);
    StretchAxis(p.x, d.x, a, f, t);
    StretchAxis(p.y, d.y, a, f, t);
  }

  lemma StretchAxis(p: real, d: real, a: real, f: real, t: real)
    ensures (p + a * d) + t * (f * d) == p + (a + f * t) * d
  {
  }

  lemma StretchesShare(q1: Point, e1: Point, p1: Point, d1: Point, q2: Point, e2: Point, p2: Point, d2: Point)
    requires Stretch(q1, e1, p1, d1) && Stretch(q2, e2, p2, d2) && Share(q1, e1, q2, e2)
    ensures Share(p1, d1, p2, d2)
  {
    hide Along, StretchBy, Scaled;
    var a, f :| StretchBy(q1, e1, p1, d1, a, f);
    var b, g :| StretchBy(q2, e2, p2, d2, b, g);
    var t, u :| 0.0 <= t <= 1.0 && 0.0 <= u <= 1.0 && Along(q1, e1, t) == Along(q2, e2, u);
    StretchPoint(q1, e1, p1, d1, a, f, t);
    StretchPoint(q2, e2, p2, d2, b, g, u);
  }

  lemma ScaledWedge(d1: Point, d2: Point, f: real, g: real)
    requires f != 0.0 && g != 0.0 && Wedge(Scaled(d1, f), Scaled(d2, g)) == 0.0
    ensures Wedge(d1, d2) == 0.0
  {
    assert Wedge(Scaled(d1, f), Scaled(d2, g)) == (f * g) * Wedge(d1, d2);
  }

  /** Parallel stretches with length are of parallel segments with length. */
  lemma StretchesParallel(q1: Point, e1: Point, p1: Point, d1: Point, q2: Point, e2: Point, p2: Point, d2: Point)
    requires Stretch(q1, e1, p1, d1) && Stretch(q2, e2, p2, d2) && Wedge(e1, e2) == 0.0
    requires e1 != Point(0.0, 0.0) && e2 != Point(0.0, 0.0)
    ensures d1 != Point(0.0, 0.0) && d2 != Point(0.0, 0.0) && Wedge(d1, d2) == 0.0
  {
    hide Along, Wedge;
    var a, f :| StretchBy(q1, e1, p1, d1, a, f);
    var b, g :| StretchBy(q2, e2, p2, d2, b, g);
    ScaledWedge(d1, d2, f, g);
  }

  /** The segment of the old ring that segment k of the cut ring is a stretch of. */
  function OldSegment(n: nat, i: nat, j: nat, k: nat): nat
    requires i < j < n
  {
    if InnerIsSmall(n, i, j) then (if k <= i then k else k + (j - i) - 1) else i + k
  }

  /** Segments of the cut ring that do not follow each other come from ones that
      did not, in the same order. */
  lemma OldSegmentsApart(n: nat, i: nat, j: nat, m: nat, k: nat, l: nat)
    requires i < j < n && 2 <= j - i <= n - 2 && k < l < m && !Adjacent(m, k, l)
    requires m == if InnerIsSmall(n, i, j) then n - (j - i) + 1 else j - i + 1
    ensures OldSegment(n, i, j, k) < OldSegment(n, i, j, l) < n
    ensures !Adjacent(n, OldSegment(n, i, j, k), OldSegment(n, i, j, l))
  {
  }

  /** x is the point at t of segment i and at u of segment j. */
  ghost predicate MeetsAt(ring: Ring, i: nat, j: nat, x: Point, t: real, u: real)
    requires i < j < |ring|
  {
    0.0 <= t <= 1.0 && x == Along(ring[i], Direction(ring, i), t) &&
    0.0 <= u <= 1.0 && x == Along(ring[j], Direction(ring, j), u)
  }

  /** The point where two segments cross, as a point of each. */
  lemma CrossingSplits(ring: Ring, c: Crossing)
    requires Genuine(ring, c)
    ensures exists t, u :: MeetsAt(ring, c.i, c.j, c.at, t, u)
  {
    hide Wedge, Along, Direction;
    var p, d1, q, d2 := ring[c.i], Direction(ring, c.i), ring[c.j], Direction(ring, c.j);
    var t, u := Wedge(Minus(q, p), d2) / Wedge(d1, d2), Wedge(Minus(q, p), d1) / Wedge(d1, d2);
    MeetIsCommon(p, d1, q, d2, t, u);
    assert MeetsAt(ring, c.i, c.j, c.at, t, u);
  }

  lemma DirectionEnds(ring: Ring, i: nat)
    requires i < |ring|
    ensures Along(ring[i], Direction(ring, i), 1.0) == ring[After(|ring|, i)]
  {
  }

  ghost predicate SegmentWithin(ring: Ring, k: nat, whole: Ring, m: nat)
    requires k < |ring| && m < |whole|
  {
    Stretch(ring[k], Direction(ring, k), whole[m], Direction(whole, m))
  }

  lemma SameSegment(ring: Ring, k: nat, whole: Ring, m: nat)
    requires k < |ring| && m < |whole|
    requires ring[k] == whole[m] && ring[After(|ring|, k)] == whole[After(|whole|, m)]
    ensures SegmentWithin(ring, k, whole, m)
  {
    hide Stretch;
    WholeStretch(ring[k], Direction(ring, k));
  }

  lemma FirstPart(ring: Ring, k: nat, whole: Ring, m: nat, t: real)
    requires k < |ring| && m < |whole| && 0.0 <= t <= 1.0
    requires ring[k] == whole[m] && ring[After(|ring|, k)] == Along(whole[m], Direction(whole, m), t)
    ensures SegmentWithin(ring, k, whole, m)
  {
    hide Stretch, Along, Minus;
    SplitStretch(whole[m], Direction(whole, m), t);
  }

  lemma LastPart(ring: Ring, k: nat, whole: Ring, m: nat, t: real)
    requires k < |ring| && m < |whole| && 0.0 <= t <= 1.0
    requires ring[k] == Along(whole[m], Direction(whole, m), t)
    requires ring[After(|ring|, k)] == whole[After(|whole|, m)]
    ensures SegmentWithin(ring, k, whole, m)
  {
    hide Stretch, Along, Minus;
    DirectionEnds(whole, m);
    SplitStretch(whole[m], Direction(whole, m), t);
  }

  lemma CutOutSize<T>(s: seq<T>, i: nat, j: nat, x: T)
    requires i < j < |s|
    ensures |CutOut(s, i, j, x)| == if InnerIsSmall(|s|, i, j) then |s| - (j - i) + 1 else j - i + 1
  {
  }

  lemma InnerCutSegments(ring: Ring, i: nat, j: nat, x: Point, t: real, u: real, k: nat)
    requires i < j < |ring| && 2 <= j - i <= |ring| - 2 && MeetsAt(ring, i, j, x, t, u) && InnerIsSmall(|ring|, i, j)
    requires k < |CutOut(ring, i, j, x)|
    ensures OldSegment(|ring|, i, j, k) < |ring|
    ensures SegmentWithin(CutOut(ring, i, j, x), k, ring, OldSegment(|ring|, i, j, k))
  {
    hide SegmentWithin, Along, Direction, CutOut;
    var r, m := CutOut(ring, i, j, x), OldSegment(|ring|, i, j, k);
    CutOutSize(ring, i, j, x);
    CutOutAt(ring, i, j, x, k);
    CutOutAt(ring, i, j, x, After(|r|, k));
    if k == i {
      FirstPart(r, k, ring, m, t);
    } else if k == i + 1 {
      LastPart(r, k, ring, m, u);
    } else {
      SameSegment(r, k, ring, m);
    }
  }

  lemma OuterCutSegments(ring: Ring, i: nat, j: nat, x: Point, t: real, u: real, k: nat)
    requires i < j < |ring| && 2 <= j - i <= |ring| - 2 && MeetsAt(ring, i, j, x, t, u) && !InnerIsSmall(|ring|, i, j)
    requires k < |CutOut(ring, i, j, x)|
    ensures OldSegment(|ring|, i, j, k) < |ring|
    ensures SegmentWithin(CutOut(ring, i, j, x), k, ring, OldSegment(|ring|, i, j, k))
  {
    hide SegmentWithin, Along, Direction, CutOut;
    var r, m := CutOut(ring, i, j, x), OldSegment(|ring|, i, j, k);
    CutOutSize(ring, i, j, x);
    CutOutAt(ring, i, j, x, k);
    CutOutAt(ring, i, j, x, After(|r|, k));
    if k == 0 {
      LastPart(r, k, ring, m, t);
    } else if k == j - i {
      FirstPart(r, k, ring, m, u);
    } else {
      SameSegment(r, k, ring, m);
    }
  }

  /** Each segment of a cut ring is a stretch of one the ring had. */
  lemma CutSegments(ring: Ring, c: Crossing, k: nat)
    requires Genuine(ring, c) && 2 <= c.j - c.i <= |ring| - 2 && k < |CutOut(ring, c.i, c.j, c.at)|
    ensures OldSegment(|ring|, c.i, c.j, k) < |ring|
    ensures SegmentWithin(CutOut(ring, c.i, c.j, c.at), k, ring, OldSegment(|ring|, c.i, c.j, k))
  {
    hide SegmentWithin, Along, Direction, CutOut, OldSegment, CrossingOf;
    CrossingSplits(ring, c);
    var t, u :| MeetsAt(ring, c.i, c.j, c.at, t, u);
    if InnerIsSmall(|ring|, c.i, c.j) {
      InnerCutSegments(ring, c.i, c.j, c.at, t, u, k);
    } else {
      OuterCutSegments(ring, c.i, c.j, c.at, t, u, k);
    }
  }

  /** An overlap in a cut ring was an overlap before the cut. */
  lemma CutOverlap(ring: Ring, c: Crossing, k: nat, l: nat)
    requires Genuine(ring, c) && 2 <= c.j - c.i <= |ring| - 2 && k < l < |CutOut(ring, c.i, c.j, c.at)|
    requires Overlap(CutOut(ring, c.i, c.j, c.at), k, l)
    ensures var m, o := OldSegment(|ring|, c.i, c.j, k), OldSegment(|ring|, c.i, c.j, l);
      m < o < |ring| && Overlap(ring, m, o)
  {
    hide Stretch, Share, Wedge, Direction, OldSegment, Adjacent, CrossingOf;
    var r := CutOut(ring, c.i, c.j, c.at);
    var m, o := OldSegment(|ring|, c.i, c.j, k), OldSegment(|ring|, c.i, c.j, l);
    CutSegments(ring, c, k);
    CutSegments(ring, c, l);
    OldSegmentsApart(|ring|, c.i, c.j, |r|, k, l);
    StretchesShare(r[k], Direction(r, k), ring[m], Direction(ring, m),
                   r[l], Direction(r, l), ring[o], Direction(ring, o));
    StretchesParallel(r[k], Direction(r, k), ring[m], Direction(ring, m),
                      r[l], Direction(r, l), ring[o], Direction(ring, o));
  }

  lemma CutKeepsApart(ring: Ring, c: Crossing)
    requires Genuine(ring, c) && 2 <= c.j - c.i <= |ring| - 2 && NoOverlap(ring)
    ensures NoOverlap(CutOut(ring, c.i, c.j, c.at))
  {
    hide Overlap, OldSegment, CutOut, CrossingOf;
    var r := CutOut(ring, c.i, c.j, c.at);
    forall k: nat, l: nat | k < l < |r|
      ensures !Overlap(r, k, l)
    {
      if Overlap(r, k, l) {
        CutOverlap(ring, c, k, l);
      }
    }
  }

  lemma {:induction false} RemovalKeepsApart(w: Wall, maxLoop: real)
    requires Parallel(w) && NoOverlap(w.points) && RemoveFrom(w, maxLoop).Clean?
    ensures var r := RemoveFrom(w, maxLoop).wall.points; NoOverlap(r) && AllCrossings(r) == []
    decreases |w.points|
  {
    hide AllCrossings, Over, Reach2, RemoveFrom, Small, CutOut, NoOverlap, Genuine;
    RemoveTurn(w, maxLoop);
    if AllCrossings(w.points) != [] {
      FirstSplits(w.points);
      var c := AllCrossings(w.points)[0];
      GenuineNames(w.points, c);
      CutKeepsApart(w.points, c);
      RemovalKeepsApart(CutWall(w, c), maxLoop);
    }
  }

  lemma GenuineNames(ring: Ring, c: Crossing)
    requires Genuine(ring, c)
    ensures c.i < c.j < |ring|
  {
  }

  /** Whatever the bound, a clean wall meets itself nowhere exactly when nothing of
      it overlaps, and it overlaps itself only if the wall it was cut from did. A
      wall in which no crossing is seen comes back as it is, overlaps included. */
  lemma FoldsRemovedExact(input: Ring, maxLoop: real)
    ensures var r := RemoveFrom(Uncut(input), maxLoop);
      && (r.Clean? ==> (NoneTouch(r.wall.points) <==> NoOverlap(r.wall.points)))
      && (r.Clean? && NoOverlap(input) ==> NoneTouch(r.wall.points))
      && (AllCrossings(input) == [] ==> r == Clean(Uncut(input)) && (NoneTouch(input) <==> NoOverlap(input)))
  {
    hide AllCrossings, RemoveFrom, NoneTouch, NoOverlap, Uncut, NoneCross, Traced;
    UncutPoints(input);
    RemoveTurn(Uncut(input), maxLoop);
    var r := RemoveFrom(Uncut(input), maxLoop);
    if AllCrossings(input) == [] {
      UnseenExact(input);
    }
    if r.Clean? {
      FoldsRemoved(input, maxLoop);
      NoCrossingsExact(r.wall.points);
      UnseenExact(r.wall.points);
      if NoOverlap(input) {
        RemovalKeepsApart(Uncut(input), maxLoop);
      }
    }
  }

  lemma OverlapBy(ring: Ring, i: nat, j: nat, d: Point)
    requires i < j < |ring| && !Adjacent(|ring|, i, j) && d != Point(0.0, 0.0)
    requires Direction(ring, i) == d && Direction(ring, j) == d && Share(ring[i], d, ring[j], d)
    ensures Overlap(ring, i, j)
  {
    hide Share, Direction;
  }

  /** A wall folded flat onto itself comes back as it is, overlap and all. */
  lemma FlatKept(maxLoop: real)
    ensures Overlap(FLAT, 0, 2) && RemoveFrom(Uncut(FLAT), maxLoop) == Clean(Uncut(FLAT))
  {
    hide AllCrossings, RemoveFrom, Share, Uncut, Overlap, Direction;
    FlatUnseen();
    FlatDirections();
    OverlapBy(FLAT, 0, 2, Point(2.0, 0.0));
    UncutPoints(FLAT);
    RemoveTurn(Uncut(FLAT), maxLoop);
  }

  // --- an overlap that leaves with a loop

  lemma MeetIs(p: Point, d1: Point, q: Point, d2: Point, t: real, u: real)
    requires Wedge(d1, d2) != 0.0 && 0.0 <= t <= 1.0 && 0.0 <= u <= 1.0 && Along(p, d1, t) == Along(q, d2, u)
    ensures Meet(p, d1, q, d2) == Some(Along(p, d1, t))
  {
    hide Wedge, Along, Meet;
    MeetExact(p, d1, q, d2);
    assert Share(p, d1, q, d2);
  }

  /** Where segments 0 and 2 cross, they are the first that do. */
  lemma FirstCrossTwo(ring: Ring, x: Point)
    requires |ring| >= 4 && Meet(ring[0], Direction(ring, 0), ring[2], Direction(ring, 2)) == Some(x)
    ensures AllCrossings(ring) != [] && AllCrossings(ring)[0] == Crossing(0, 2, x)
  {
    hide Meet, Direction;
    assert CrossingOf(ring, 0, 1) == None && CrossingOf(ring, 0, 2) == Some(Crossing(0, 2, x));
    assert AllCrossings(ring) == CrossingsFrom(ring, 0, 2) == [Crossing(0, 2, x)] + CrossingsFrom(ring, 0, 3);
  }

  lemma CutTwo(w: Wall, x: Point, maxLoop: real)
    requires Parallel(w) && |w.points| >= 4 && maxLoop >= 0.0
    requires Meet(w.points[0], Direction(w.points, 0), w.points[2], Direction(w.points, 2)) == Some(x)
    requires Distance2(w.points[1], x) <= maxLoop * maxLoop && Distance2(w.points[2], x) <= maxLoop * maxLoop
    ensures var next := CutWall(w, Crossing(0, 2, x));
      next.points == w.points[..1] + [x] + w.points[3..] && RemoveFrom(w, maxLoop) == RemoveFrom(next, maxLoop)
  {
    hide Meet, Direction, AllCrossings, RemoveFrom, Reach2, Distance2;
    FirstCrossTwo(w.points, x);
    RemoveTurn(w, maxLoop);
    assert Small(w.points, 0, 2) == [w.points[1], w.points[2]];
  }

  /** Out and back along one line, and up and down another. */
  function Spike(a: real): Ring {
    [Point(0.0, 0.0), Point(2.0 * a, 0.0), Point(a, 0.0), Point(a, a), Point(a, 0.0)]
  }

  function Trimmed(a: real): Ring {
    [Point(0.0, 0.0), Point(a, 0.0), Point(a, a), Point(a, 0.0)]
  }

  function Bare(a: real): Ring {
    [Point(0.0, 0.0), Point(a, 0.0), Point(a, 0.0)]
  }

  lemma SpikeMeets(a: real)
    requires a > 0.0
    ensures Meet(Spike(a)[0], Direction(Spike(a), 0), Spike(a)[2], Direction(Spike(a), 2)) == Some(Point(a, 0.0))
  {
    hide Meet;
    var d1, d2 := Point(2.0 * a, 0.0), Point(0.0, a);
    assert Direction(Spike(a), 0) == d1 && Direction(Spike(a), 2) == d2;
    ProductPositive(2.0 * a, a);
    MeetIs(Point(0.0, 0.0), d1, Point(a, 0.0), d2, 0.5, 0.0);
  }

  lemma TrimmedMeets(a: real)
    requires a > 0.0
    ensures Meet(Trimmed(a)[0], Direction(Trimmed(a), 0), Trimmed(a)[2], Direction(Trimmed(a), 2))
      == Some(Point(a, 0.0))
  {
    hide Meet;
    var d1, d2 := Point(a, 0.0), Point(0.0, -a);
    assert Direction(Trimmed(a), 0) == d1 && Direction(Trimmed(a), 2) == d2;
    ProductPositive(a, a);
    MeetIs(Point(0.0, 0.0), d1, Point(a, a), d2, 1.0, 1.0);
  }

  lemma SpikeOverlaps(a: real)
    requires a > 0.0
    ensures Overlap(Spike(a), 1, 4)
  {
    hide Share;
    var d := Point(-a, 0.0);
    assert Direction(Spike(a), 1) == d && Direction(Spike(a), 4) == d;
    EndOnStart(Point(2.0 * a, 0.0), d, Point(a, 0.0));
    OverlapBy(Spike(a), 1, 4, d);
  }

  lemma EndOnStart(p: Point, d: Point, q: Point)
    requires Along(p, d, 1.0) == q
    ensures Share(p, d, q, d)
  {
    assert Along(p, d, 1.0) == Along(q, d, 0.0);
  }

  /** Three segments all follow each other. */
  lemma ThreeTouchNever(ring: Ring)
    requires |ring| == 3
    ensures NoneTouch(ring) && AllCrossings(ring) == []
  {
    hide AllCrossings, Share, Wedge;
    NoCrossingsExact(ring);
  }

  lemma SpikeReach(a: real)
    ensures Distance2(Point(2.0 * a, 0.0), Point(a, 0.0)) == a * a
    ensures Distance2(Point(a, a), Point(a, 0.0)) == a * a
    ensures Distance2(Point(a, 0.0), Point(a, 0.0)) == 0.0
  {
  }

  /** Why the input's condition is no more than sufficient once a loop is cut: here
      is a wall of any size that overlaps itself and comes back clean. */
  lemma OverlapCut(a: real, maxLoop: real)
    requires 0.0 < a <= maxLoop
    ensures !NoOverlap(Spike(a))
    ensures var r := RemoveFrom(Uncut(Spike(a)), maxLoop); r.Clean? && NoneTouch(r.wall.points)
  {
    hide Meet, Direction, AllCrossings, RemoveFrom, Overlap, NoneTouch, Uncut, CutWall, Distance2;
    SpikeOverlaps(a);
    SquareLarger(a, maxLoop);
    SpikeReach(a);
    var x, w := Point(a, 0.0), Uncut(Spike(a));
    UncutPoints(Spike(a));
    SpikeMeets(a);
    CutTwo(w, x, maxLoop);
    var trimmed := CutWall(w, Crossing(0, 2, x));
    assert trimmed.points == Trimmed(a);
    TrimmedMeets(a);
    CutTwo(trimmed, x, maxLoop);
    var bare := CutWall(trimmed, Crossing(0, 2, x));
    assert bare.points == Bare(a);
    ThreeTouchNever(bare.points);
    RemoveTurn(bare, maxLoop);
  }

  lemma SquareLarger(a: real, b: real)
    requires 0.0 <= a <= b
    ensures 0.0 <= a * a <= b * b
  {
    SquareNonNegative(a);
    ProductNonNegative(b - a, b + a);
  }
}
