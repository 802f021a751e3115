/**
 How much of an interval an estimate stream covers: the loop that sums the
 uncovered time, and the covered set it is the measure of.
 */
module Coverage {
  import opened Alignment
  import opened Options
  import opened Products
  import opened Reals
  import AlignmentProofs

  datatype Summary = Summary(availability: real, maximumGap: real, staleGapCount: nat)

  function InRange(poses: seq<Pose>, start: real, end: real): (r: seq<Pose>)
    ensures forall p :: p in r <==> p in poses && start <= p.stamp <= end
  {
    if poses == [] then []
    else if start <= poses[0].stamp <= end then [poses[0]] + InRange(poses[1..], start, end)
    else InRange(poses[1..], start, end)
  }

  function Stamps(poses: seq<Pose>): (r: seq<real>)
    ensures |r| == |poses| && forall i :: 0 <= i < |r| ==> r[i] == poses[i].stamp
  {
    seq(|poses|, i requires 0 <= i < |poses| => poses[i].stamp)
  }

  /** The start, the in-range stamps in order, and the end. */
  function Boundaries(poses: seq<Pose>, start: real, end: real): seq<real> {
    [start] + Stamps(SortByStamp(InRange(poses, start, end))) + [end]
  }

  /** Uncovered time up to boundary n: all of the first gap, then what exceeds the window. */
  function Uncovered(b: seq<real>, window: real, n: nat): real
    requires n < |b|
  {
    if n == 0 then 0.0
    else if n == 1 then b[1] - b[0]
    else Uncovered(b, window, n - 1) + Max(b[n] - b[n - 1] - window, 0.0)
  }

  function StaleGaps(b: seq<real>, window: real, n: nat): nat
    requires n < |b|
  {
    if n == 0 then 0 else StaleGaps(b, window, n - 1) + if b[n] - b[n - 1] > window then 1 else 0
  }

  ghost predicate Rising(b: seq<real>) {
    forall i, j :: 0 <= i <= j < |b| ==> b[i] <= b[j]
  }

  /** An interval of no length is refused. */
  method Availability(poses: seq<Pose>, window: real, start: real, end: real) returns (r: Option<Summary>)
    ensures r.None? <==> end <= start
    ensures r.Some? ==>
      var b := Boundaries(poses, start, end);
      && r.value.availability == 1.0 - Uncovered(b, window, |b| - 1) / (end - start)
      && r.value.staleGapCount == StaleGaps(b, window, |b| - 1)
      && (forall i :: 1 <= i < |b| ==> b[i] - b[i - 1] <= r.value.maximumGap)
      && (exists i :: 1 <= i < |b| && b[i] - b[i - 1] == r.value.maximumGap)
  {
    hide *;
    if end <= start {
      return None;
    }
    var boundaries := Boundaries(poses, start, end);
    BoundaryEnds(poses, start, end);
    BoundariesRise(poses, start, end);
    var uncovered, maximumGap, staleGapCount := Gaps(boundaries, window);
    r := Some(Summary(1.0 - uncovered / (end - start), maximumGap, staleGapCount));
  }

  /** One pass over the boundaries. */
  method Gaps(boundaries: seq<real>, window: real) returns (uncovered: real, maximumGap: real, staleGapCount: nat)
    requires |boundaries| >= 2 && Rising(boundaries)
    ensures uncovered == Uncovered(boundaries, window, |boundaries| - 1)
    ensures staleGapCount == StaleGaps(boundaries, window, |boundaries| - 1)
    ensures forall i :: 1 <= i < |boundaries| ==> boundaries[i] - boundaries[i - 1] <= maximumGap
    ensures exists i :: 1 <= i < |boundaries| && boundaries[i] - boundaries[i - 1] == maximumGap
  {
    uncovered, maximumGap, staleGapCount := 0.0, 0.0, 0;
    ghost var widest := 0;
    for index := 0 to |boundaries| - 1
      invariant uncovered == Uncovered(boundaries, window, index)
      invariant staleGapCount == StaleGaps(boundaries, window, index)
      invariant forall i :: 1 <= i <= index ==> boundaries[i] - boundaries[i - 1] <= maximumGap
      invariant maximumGap >= 0.0 && if index == 0 then maximumGap == 0.0
                else 1 <= widest <= index && boundaries[widest] - boundaries[widest - 1] == maximumGap
    {
      var gap := boundaries[index + 1] - boundaries[index];
      assert boundaries[index] <= boundaries[index + 1];
      widest := if index == 0 || gap > maximumGap then index + 1 else widest;
      maximumGap := Max(maximumGap, gap);
      if gap > window {
        staleGapCount := staleGapCount + 1;
      }
      uncovered := uncovered + if index == 0 then gap else Max(gap - window, 0.0);
    }
  }

  lemma BoundariesRise(poses: seq<Pose>, start: real, end: real)
    requires start <= end
    ensures Rising(Boundaries(poses, start, end))
  {
    hide SortByStamp, InRange;
    var inside := InRange(poses, start, end);
    var sorted := SortByStamp(inside);
    AlignmentProofs.SortSorts(inside);
    forall i | 0 <= i < |sorted|
      ensures start <= sorted[i].stamp <= end
    {
      assert sorted[i] in multiset(sorted);
      assert sorted[i] in inside;
    }
  }

  // --- the covered set

  /** Within the window after some in-range estimate. */
  ghost predicate Covered(poses: seq<Pose>, window: real, start: real, end: real, t: real) {
    exists p :: p in poses && start <= p.stamp <= end && p.stamp <= t <= p.stamp + window
  }

  /** The stretch after boundary n (n >= 1) that its estimate covers. */
  function Piece(b: seq<real>, window: real, n: nat): (real, real)
    requires 1 <= n < |b| - 1
  {
    (b[n], Min(b[n + 1], b[n] + window))
  }

  ghost predicate InPiece(b: seq<real>, window: real, n: nat, t: real)
    requires 1 <= n < |b| - 1
  {
    Piece(b, window, n).0 <= t <= Piece(b, window, n).1
  }

  /** The total length of the first pieces. */
  function Total(b: seq<real>, window: real, n: nat): real
    requires 1 <= n < |b|
  {
    if n == 1 then 0.0
    else Total(b, window, n - 1) + (Piece(b, window, n - 1).1 - Piece(b, window, n - 1).0)
  }

  lemma {:induction false} TotalAndUncovered(b: seq<real>, window: real, n: nat)
    requires 1 <= n < |b|
    ensures Total(b, window, n) + Uncovered(b, window, n) == b[n] - b[0]
  {
    if n > 1 {
      TotalAndUncovered(b, window, n - 1);
    }
  }

  /** The estimates' stamps are the inner boundaries. */
  lemma CoveredByBoundary(poses: seq<Pose>, window: real, start: real, end: real, t: real)
    ensures var b := Boundaries(poses, start, end);
      Covered(poses, window, start, end, t) <==> exists n :: 1 <= n < |b| - 1 && b[n] <= t <= b[n] + window
  {
    hide Boundaries;
    var b := Boundaries(poses, start, end);
    forall p | p in poses && start <= p.stamp <= end && p.stamp <= t <= p.stamp + window
      ensures exists n :: 1 <= n < |b| - 1 && b[n] <= t <= b[n] + window
    {
      var n := BoundaryOf(poses, start, end, p);
    }
    forall n | 1 <= n < |b| - 1 && b[n] <= t <= b[n] + window
      ensures Covered(poses, window, start, end, t)
    {
      var p := PoseOf(poses, start, end, n);
    }
  }

  lemma BoundaryOf(poses: seq<Pose>, start: real, end: real, p: Pose) returns (n: nat)
    requires p in poses && start <= p.stamp <= end
    ensures 1 <= n < |Boundaries(poses, start, end)| - 1 && Boundaries(poses, start, end)[n] == p.stamp
  {
    hide SortByStamp, InRange;
    var inside := InRange(poses, start, end);
    var sorted := SortByStamp(inside);
    AlignmentProofs.SortSorts(inside);
    assert p in multiset(inside) && p in multiset(sorted);
    var i :| 0 <= i < |sorted| && sorted[i] == p;
    n := i + 1;
  }

  lemma PoseOf(poses: seq<Pose>, start: real, end: real, n: nat) returns (p: Pose)
    requires 1 <= n < |Boundaries(poses, start, end)| - 1
    ensures p in poses && start <= p.stamp <= end && Boundaries(poses, start, end)[n] == p.stamp
  {
    hide SortByStamp, InRange;
    var inside := InRange(poses, start, end);
    var sorted := SortByStamp(inside);
    AlignmentProofs.SortSorts(inside);
    p := sorted[n - 1];
    assert p in multiset(sorted) && p in multiset(inside);
  }

  /** The last boundary at or before t holds t in its piece. */
  lemma {:induction false} LastBefore(b: seq<real>, window: real, t: real, n: nat, k: nat) returns (m: nat)
    requires Rising(b) && window >= 0.0 && |b| >= 2 && t <= b[|b| - 1]
    requires 1 <= n <= k < |b| - 1 && b[n] <= t <= b[n] + window
    requires b[k] <= t
    ensures 1 <= m < |b| - 1 && InPiece(b, window, m, t)
    decreases |b| - k
  {
    if k + 1 < |b| - 1 && b[k + 1] <= t {
      m := LastBefore(b, window, t, n, k + 1);
    } else {
      m := k;
      assert b[n] <= b[k];
    }
  }

  lemma CoveredIsPieces(poses: seq<Pose>, window: real, start: real, end: real, t: real)
    requires start <= t <= end && window >= 0.0
    ensures var b := Boundaries(poses, start, end);
      Covered(poses, window, start, end, t) <==> exists m :: 1 <= m < |b| - 1 && InPiece(b, window, m, t)
  {
    hide SortByStamp, InRange, Covered, Boundaries;
    var b := Boundaries(poses, start, end);
    BoundaryEnds(poses, start, end);
    BoundariesRise(poses, start, end);
    CoveredByBoundary(poses, window, start, end, t);
    if n :| 1 <= n < |b| - 1 && b[n] <= t <= b[n] + window {
      var m := LastBefore(b, window, t, n, n);
    }
  }

  lemma BoundaryEnds(poses: seq<Pose>, start: real, end: real)
    ensures var b := Boundaries(poses, start, end); |b| >= 2 && b[0] == start && b[|b| - 1] == end
  {
  }

  /** Availability is a true measure: the covered set is a list of intervals in
      order, overlapping at most in their ends, and their total length is
      availability times the length of the interval judged. */
  lemma AvailabilityIsMeasure(poses: seq<Pose>, window: real, start: real, end: real, availability: real)
    requires end > start && window >= 0.0
    requires var b := Boundaries(poses, start, end);
      availability == 1.0 - Uncovered(b, window, |b| - 1) / (end - start)
    ensures var b := Boundaries(poses, start, end);
      && (forall t :: start <= t <= end ==>
            (Covered(poses, window, start, end, t) <==> exists m :: 1 <= m < |b| - 1 && InPiece(b, window, m, t)))
      && (forall m :: 1 <= m < |b| - 1 ==> start <= Piece(b, window, m).0 <= Piece(b, window, m).1 <= end)
      && (forall m, n :: 1 <= m < n < |b| - 1 ==> Piece(b, window, m).1 <= Piece(b, window, n).0)
      && Total(b, window, |b| - 1) == availability * (end - start)
  {
    hide SortByStamp, InRange, Covered, Boundaries, Uncovered, Total;
    var b := Boundaries(poses, start, end);
    BoundaryEnds(poses, start, end);
    BoundariesRise(poses, start, end);
    TotalAndUncovered(b, window, |b| - 1);
    forall t | start <= t <= end
      ensures Covered(poses, window, start, end, t) <==> exists m :: 1 <= m < |b| - 1 && InPiece(b, window, m, t)
    {
      CoveredIsPieces(poses, window, start, end, t);
    }
    Quotient(Uncovered(b, window, |b| - 1), end - start);
  }

  // --- its bounds, and when it is whole

  lemma {:induction false} NegativeWindow(b: seq<real>, window: real, n: nat)
    requires Rising(b) && window < 0.0 && 1 <= n < |b|
    ensures Uncovered(b, window, n) == b[n] - b[0] - window * (n - 1) as real
  {
    if n > 1 {
      NegativeWindow(b, window, n - 1);
      assert b[n - 1] <= b[n];
    }
  }

  lemma {:induction false} UncoveredBounds(b: seq<real>, window: real, n: nat)
    requires Rising(b) && window >= 0.0 && 1 <= n < |b|
    ensures 0.0 <= Uncovered(b, window, n) <= b[n] - b[0]
  {
    assert b[0] <= b[1] && b[n - 1] <= b[n];
    if n > 1 {
      UncoveredBounds(b, window, n - 1);
    }
  }

  /** Availability is a fraction exactly when the window is not negative, or no
      estimate fell in the interval. */
  lemma AvailabilityIsFraction(poses: seq<Pose>, window: real, start: real, end: real, availability: real)
    requires end > start
    requires var b := Boundaries(poses, start, end);
      availability == 1.0 - Uncovered(b, window, |b| - 1) / (end - start)
    ensures 0.0 <= availability <= 1.0 <==> window >= 0.0 || InRange(poses, start, end) == []
  {
    hide Boundaries, Uncovered, InRange, SortByStamp;
    var b := Boundaries(poses, start, end);
    BoundaryEnds(poses, start, end);
    BoundaryCount(poses, start, end);
    BoundariesRise(poses, start, end);
    Quotient(Uncovered(b, window, |b| - 1), end - start);
    if window >= 0.0 {
      UncoveredBounds(b, window, |b| - 1);
    } else {
      NegativeWindow(b, window, |b| - 1);
      if |b| > 2 {
        ProductPositive(-window, (|b| - 2) as real);
      }
    }
  }

  lemma Quotient(part: real, whole: real)
    requires whole > 0.0
    ensures part / whole * whole == part
    ensures part / whole <= 1.0 <==> part <= whole
    ensures part / whole >= 1.0 <==> part >= whole
    ensures part / whole >= 0.0 <==> part >= 0.0
    ensures part / whole == 0.0 <==> part == 0.0
  {
    var q := part / whole;
    assert q * whole == part;
    if q > 1.0 {
      ProductPositive(q - 1.0, whole);
    } else if q < 1.0 {
      ProductPositive(1.0 - q, whole);
    }
    if q > 0.0 {
      ProductPositive(q, whole);
    } else if q < 0.0 {
      ProductPositive(-q, whole);
    }
  }

  lemma BoundaryCount(poses: seq<Pose>, start: real, end: real)
    ensures |Boundaries(poses, start, end)| == |InRange(poses, start, end)| + 2
  {
    hide InRange, SortByStamp;
    var inside := InRange(poses, start, end);
    AlignmentProofs.SortSorts(inside);
    assert |multiset(SortByStamp(inside))| == |multiset(inside)|;
  }

  ghost predicate NoGap(b: seq<real>, window: real, n: nat)
    requires 1 <= n < |b|
  {
    b[1] == b[0] && forall i :: 2 <= i <= n ==> b[i] - b[i - 1] <= window
  }

  lemma {:induction false} NoGapIsWhole(b: seq<real>, window: real, n: nat)
    requires Rising(b) && window >= 0.0 && 1 <= n < |b|
    ensures Uncovered(b, window, n) == 0.0 <==> NoGap(b, window, n)
  {
    assert b[0] <= b[1];
    if n > 1 {
      NoGapIsWhole(b, window, n - 1);
      UncoveredBounds(b, window, n - 1);
    }
  }

  lemma {:induction false} BoundaryBefore(b: seq<real>, t: real, k: nat) returns (m: nat)
    requires 1 <= k < |b| - 1 && b[k] <= t <= b[|b| - 1]
    ensures 1 <= m < |b| - 1 && b[m] <= t <= b[m + 1]
    decreases |b| - k
  {
    if k + 1 < |b| - 1 && b[k + 1] <= t {
      m := BoundaryBefore(b, t, k + 1);
    } else {
      m := k;
    }
  }

  /** A gap leaves a time no boundary's estimate covers. */
  lemma GapUncovered(b: seq<real>, window: real) returns (t: real)
    requires Rising(b) && window >= 0.0 && |b| >= 2 && !NoGap(b, window, |b| - 1)
    ensures b[0] <= t <= b[|b| - 1]
    ensures forall n :: 1 <= n < |b| - 1 ==> !(b[n] <= t <= b[n] + window)
  {
    if b[1] != b[0] {
      t := b[0];
      assert forall n :: 1 <= n < |b| - 1 ==> b[1] <= b[n];
    } else {
      var i :| 2 <= i <= |b| - 1 && b[i] - b[i - 1] > window;
      t := (b[i - 1] + window + b[i]) / 2.0;
      forall n | 1 <= n < |b| - 1
        ensures !(b[n] <= t <= b[n] + window)
      {
        assert n <= i - 1 ==> b[n] <= b[i - 1];
        assert n >= i ==> b[i] <= b[n];
      }
      assert b[0] <= b[i - 1] && b[i] <= b[|b| - 1];
    }
  }

  /** Availability reads exactly 1 exactly when every moment of the interval is
      within the window after some estimate: an unbroken stream, and no other. */
  lemma WholeIsUnbroken(poses: seq<Pose>, window: real, start: real, end: real, availability: real)
    requires end > start && window >= 0.0
    requires var b := Boundaries(poses, start, end);
      availability == 1.0 - Uncovered(b, window, |b| - 1) / (end - start)
    ensures availability == 1.0 <==> forall t :: start <= t <= end ==> Covered(poses, window, start, end, t)
  {
    hide Boundaries, Uncovered, Covered, NoGap, InRange, SortByStamp;
    var b := Boundaries(poses, start, end);
    BoundaryEnds(poses, start, end);
    BoundariesRise(poses, start, end);
    NoGapIsWhole(b, window, |b| - 1);
    Quotient(Uncovered(b, window, |b| - 1), end - start);
    if NoGap(b, window, |b| - 1) {
      forall t | start <= t <= end
        ensures Covered(poses, window, start, end, t)
      {
        CoveredByBoundary(poses, window, start, end, t);
        NoGapCovers(b, window, t);
      }
    } else {
      var t := GapUncovered(b, window);
      CoveredByBoundary(poses, window, start, end, t);
    }
  }

  lemma NoGapCovers(b: seq<real>, window: real, t: real)
    requires |b| >= 2 && b[0] < b[|b| - 1] && NoGap(b, window, |b| - 1) && b[0] <= t <= b[|b| - 1]
    ensures exists n :: 1 <= n < |b| - 1 && b[n] <= t <= b[n] + window
  {
    var m := BoundaryBefore(b, t, 1);
    assert b[m + 1] - b[m + 1 - 1] <= window;
  }

  const MIDWAY := Pose(0.5, 0.0, 0.0, 0.0)

  lemma OneBoundary()
    ensures Boundaries([MIDWAY], 0.0, 1.0) == [0.0, 0.5, 1.0]
  {
    hide SortByStamp;
    assert [MIDWAY][1..] == [] && InRange([MIDWAY], 0.0, 1.0) == [MIDWAY];
    AlignmentProofs.SortKeeps([MIDWAY]);
  }

  lemma TwoGaps(a: real, b: real, c: real, window: real)
    ensures Uncovered([a, b, c], window, 2) == (b - a) + Max(c - b - window, 0.0)
  {
    assert Uncovered([a, b, c], window, 1) == b - a;
  }

  /** A negative window with an estimate in range: availability -1. */
  lemma NegativeAvailability()
    ensures var b := Boundaries([MIDWAY], 0.0, 1.0);
      1.0 - Uncovered(b, -1.0, |b| - 1) / (1.0 - 0.0) == -1.0
  {
    hide Boundaries, Uncovered;
    OneBoundary();
    TwoGaps(0.0, 0.5, 1.0, -1.0);
  }
}
