/** Closed polylines: their segments, and where two of them cross. */
module Geometry {
  import opened Options
  import opened Products

  datatype Point = Point(x: real, y: real)

  datatype Edge = Edge(start: Point, end: Point)

  type Ring = seq<Point>

  function Minus(p: Point, q: Point): Point {
    Point(p.x - q.x, p.y - q.y)
  }

  /** p + t * d. */
  function Along(p: Point, d: Point, t: real): Point {
    Point(p.x + t * d.x, p.y + t * d.y)
  }

  function Wedge(p: Point, q: Point): real {
    p.x * q.y - p.y * q.x
  }

  function Norm2(p: Point): real {
    p.x * p.x + p.y * p.y
  }

  function Distance2(p: Point, q: Point): real {
    Norm2(Minus(p, q))
  }

  /** The index after k on a ring of n points. */
  function After(n: nat, k: nat): (r: nat)
    requires k < n
    ensures r < n
  {
    if k + 1 == n then 0 else k + 1
  }

  /** Segment i runs from point i to the next, the last back onto point 0. */
  function Direction(ring: Ring, i: nat): Point
    requires i < |ring|
  {
    Minus(ring[After(|ring|, i)], ring[i])
  }

  function Middle(ring: Ring, i: nat): Point
    requires i < |ring|
  {
    Along(ring[i], Direction(ring, i), 0.5)
  }

  /** Neighbours share a vertex, so their meeting is no crossing. */
  predicate Adjacent(n: nat, i: nat, j: nat) {
    j - i <= 1 || (i == 0 && j == n - 1)
  }

  /** The exact segment-segment test, with the point where they meet. */
  function Meet(p: Point, d1: Point, q: Point, d2: Point): Option<Point> {
    var den := Wedge(d1, d2);
    if den == 0.0 then None
    else
      var w := Minus(q, p);
      var t, u := Wedge(w, d2) / den, Wedge(w, d1) / den;
      if 0.0 <= t <= 1.0 && 0.0 <= u <= 1.0 then Some(Along(p, d1, t)) else None
  }

  datatype Crossing = Crossing(i: nat, j: nat, at: Point)

  function CrossingOf(ring: Ring, i: nat, j: nat): Option<Crossing>
    requires i < j < |ring|
  {
    if Adjacent(|ring|, i, j) then None
    else
      match Meet(ring[i], Direction(ring, i), ring[j], Direction(ring, j))
      case None => None
      case Some(x) => Some(Crossing(i, j, x))
  }

  /** Every crossing of two segments from the pair (i, j) on, in lexicographic order. */
  function CrossingsFrom(ring: Ring, i: nat, j: nat): seq<Crossing>
    requires i < j
    decreases |ring| - i, |ring| + 1 - j
  {
    if i >= |ring| then []
    else if j >= |ring| then CrossingsFrom(ring, i + 1, i + 2)
    else
      match CrossingOf(ring, i, j)
      case None => CrossingsFrom(ring, i, j + 1)
      case Some(c) => [c] + CrossingsFrom(ring, i, j + 1)
  }

  function AllCrossings(ring: Ring): seq<Crossing> {
    CrossingsFrom(ring, 0, 1)
  }

  predicate Before(i: nat, j: nat, a: nat, b: nat) {
    i < a || (i == a && j < b)
  }

  lemma CrossingNames(ring: Ring, i: nat, j: nat)
    requires i < j < |ring| && CrossingOf(ring, i, j).Some?
    ensures CrossingOf(ring, i, j).value.i == i && CrossingOf(ring, i, j).value.j == j
    ensures !Adjacent(|ring|, i, j)
  {
  }

  ghost predicate Genuine(ring: Ring, c: Crossing) {
    c.i < c.j < |ring| && CrossingOf(ring, c.i, c.j) == Some(c)
  }

  /** Each listed crossing is one, no earlier than (i, j). */
  lemma {:induction false} CrossingsGenuine(ring: Ring, i: nat, j: nat)
    requires i < j
    ensures forall c :: c in CrossingsFrom(ring, i, j) ==> Genuine(ring, c) && !Before(c.i, c.j, i, j)
    decreases |ring| - i, |ring| + 1 - j
  {
    hide CrossingOf;
    if i < |ring| {
      if j >= |ring| {
        CrossingsGenuine(ring, i + 1, i + 2);
      } else {
        CrossingsGenuine(ring, i, j + 1);
        if CrossingOf(ring, i, j).Some? {
          CrossingNames(ring, i, j);
        }
      }
    }
  }

  /** Each crossing from (i, j) on is listed. */
  lemma {:induction false} CrossingsComplete(ring: Ring, i: nat, j: nat, a: nat, b: nat)
    requires i < j && a < b < |ring| && !Before(a, b, i, j) && CrossingOf(ring, a, b).Some?
    ensures CrossingOf(ring, a, b).value in CrossingsFrom(ring, i, j)
    decreases |ring| - i, |ring| + 1 - j
  {
    hide CrossingOf;
    if j >= |ring| {
      CrossingsComplete(ring, i + 1, i + 2, a, b);
    } else if a != i || b != j {
      CrossingsComplete(ring, i, j + 1, a, b);
    }
  }

  /** The list is in lexicographic order of the pairs. */
  lemma {:induction false} CrossingsOrdered(ring: Ring, i: nat, j: nat)
    requires i < j
    ensures forall m, n :: 0 <= m < n < |CrossingsFrom(ring, i, j)| ==>
      var c, d := CrossingsFrom(ring, i, j)[m], CrossingsFrom(ring, i, j)[n]; Before(c.i, c.j, d.i, d.j)
    decreases |ring| - i, |ring| + 1 - j
  {
    hide CrossingOf, Genuine;
    if i < |ring| {
      if j >= |ring| {
        CrossingsOrdered(ring, i + 1, i + 2);
      } else {
        CrossingsOrdered(ring, i, j + 1);
        if CrossingOf(ring, i, j).Some? {
          CrossingNames(ring, i, j);
          CrossingsGenuine(ring, i, j + 1);
          var c, rest := CrossingOf(ring, i, j).value, CrossingsFrom(ring, i, j + 1);
          assert forall n :: 0 <= n < |rest| ==> rest[n] in rest && Before(i, j, rest[n].i, rest[n].j);
        }
      }
    }
  }

  /** The first listed crossing is the lexicographically least pair that crosses. */
  lemma FirstIsLeast(ring: Ring, a: nat, b: nat)
    requires AllCrossings(ring) != [] && a < b < |ring| && CrossingOf(ring, a, b).Some?
    ensures var c := AllCrossings(ring)[0]; Genuine(ring, c) && !Before(a, b, c.i, c.j)
  {
    hide CrossingOf;
    var all := AllCrossings(ring);
    CrossingsComplete(ring, 0, 1, a, b);
    CrossingNames(ring, a, b);
    CrossingsGenuine(ring, 0, 1);
    CrossingsOrdered(ring, 0, 1);
    var n :| 0 <= n < |all| && all[n] == CrossingOf(ring, a, b).value;
    assert all[0] in all;
  }

  // --- the candidate filter loses nothing

  function Longest2(ring: Ring, n: nat): (r: real)
    requires n <= |ring|
    ensures forall i :: 0 <= i < n ==> Norm2(Direction(ring, i)) <= r
  {
    if n == 0 then 0.0
    else
      var rest := Longest2(ring, n - 1);
      if Norm2(Direction(ring, n - 1)) > rest then Norm2(Direction(ring, n - 1)) else rest
  }

  /** Midpoints no further apart than the longest segment is long. */
  predicate Near(ring: Ring, i: nat, j: nat)
    requires i < |ring| && j < |ring|
  {
    Distance2(Middle(ring, i), Middle(ring, j)) <= Longest2(ring, |ring|)
  }

  /** Cramer's rule: t and u name the same point. */
  lemma MeetIsCommon(p: Point, d1: Point, q: Point, d2: Point, t: real, u: real)
    requires var den := Wedge(d1, d2);
      den != 0.0 && t == Wedge(Minus(q, p), d2) / den && u == Wedge(Minus(q, p), d1) / den
    ensures Along(p, d1, t) == Along(q, d2, u)
  {
    var den, w := Wedge(d1, d2), Minus(q, p);
    assert t * den == Wedge(w, d2) && u * den == Wedge(w, d1);
    CramerAxis(t, u, den, Wedge(w, d2), Wedge(w, d1), d1.x, d2.x, w.x);
    CramerAxis(t, u, den, Wedge(w, d2), Wedge(w, d1), d1.y, d2.y, w.y);
  }

  lemma CramerAxis(t: real, u: real, den: real, a: real, b: real, d1: real, d2: real, w: real)
    requires den != 0.0 && t * den == a && u * den == b && a * d1 - b * d2 == den * w
    ensures t * d1 - u * d2 == w
  {
    assert (t * d1 - u * d2) * den == (t * den) * d1 - (u * den) * d2;
    assert (t * d1 - u * d2 - w) * den == 0.0;
  }

  /** The two segments share a point. */
  ghost predicate Share(p: Point, d1: Point, q: Point, d2: Point) {
    exists t, u :: 0.0 <= t <= 1.0 && 0.0 <= u <= 1.0 && Along(p, d1, t) == Along(q, d2, u)
  }

  /** Lines that are not parallel meet for one pair of parameters alone. */
  lemma MeetsOnce(p: Point, d1: Point, q: Point, d2: Point, t: real, u: real)
    requires Wedge(d1, d2) != 0.0 && Along(p, d1, t) == Along(q, d2, u)
    ensures t == Wedge(Minus(q, p), d2) / Wedge(d1, d2) && u == Wedge(Minus(q, p), d1) / Wedge(d1, d2)
  {
    var w, den := Minus(q, p), Wedge(d1, d2);
    assert w.x == t * d1.x - u * d2.x && w.y == t * d1.y - u * d2.y;
    assert Wedge(w, d2) == t * den && Wedge(w, d1) == u * den by {
      Expand(t, u, d1, d2);
    }
    QuotientIs(Wedge(w, d2), t, den);
    QuotientIs(Wedge(w, d1), u, den);
  }

  lemma Expand(t: real, u: real, d1: Point, d2: Point)
    ensures var w := Point(t * d1.x - u * d2.x, t * d1.y - u * d2.y);
      Wedge(w, d2) == t * Wedge(d1, d2) && Wedge(w, d1) == u * Wedge(d1, d2)
  {
  }

  lemma QuotientIs(a: real, t: real, den: real)
    requires den != 0.0 && a == t * den
    ensures a / den == t
  {
  }

  /** The segment test is exact: it finds a point just when the segments are not
      parallel and share one. Parallel segments it never looks at. */
  lemma MeetExact(p: Point, d1: Point, q: Point, d2: Point)
    ensures Meet(p, d1, q, d2).Some? <==> Wedge(d1, d2) != 0.0 && Share(p, d1, q, d2)
    ensures forall t, u ::
      Meet(p, d1, q, d2).Some? && Along(p, d1, t) == Along(q, d2, u) ==> Meet(p, d1, q, d2).value == Along(p, d1, t)
  {
    hide Wedge, Along;
    var den, w := Wedge(d1, d2), Minus(q, p);
    if den != 0.0 {
      MeetIsCommon(p, d1, q, d2, Wedge(w, d2) / den, Wedge(w, d1) / den);
      forall t, u | Along(p, d1, t) == Along(q, d2, u)
        ensures t == Wedge(w, d2) / den && u == Wedge(w, d1) / den
      {
        MeetsOnce(p, d1, q, d2, t, u);
      }
    }
  }

  /** Two segments that neither follow each other nor are parallel share a point. */
  ghost predicate Cross(ring: Ring, i: nat, j: nat)
    requires i < j < |ring|
  {
    && !Adjacent(|ring|, i, j) && Wedge(Direction(ring, i), Direction(ring, j)) != 0.0
    && Share(ring[i], Direction(ring, i), ring[j], Direction(ring, j))
  }

  ghost predicate NoneCross(ring: Ring) {
    forall i: nat, j: nat :: i < j < |ring| ==> !Cross(ring, i, j)
  }

  lemma CrossingExact(ring: Ring, i: nat, j: nat)
    requires i < j < |ring|
    ensures CrossingOf(ring, i, j).Some? <==> Cross(ring, i, j)
  {
    hide Meet, Share, Wedge;
    MeetExact(ring[i], Direction(ring, i), ring[j], Direction(ring, j));
  }

  /** The list is empty exactly when no two segments cross. */
  lemma NoCrossingsExact(ring: Ring)
    ensures AllCrossings(ring) == [] <==> NoneCross(ring)
  {
    hide CrossingOf, Cross;
    if AllCrossings(ring) == [] {
      forall i: nat, j: nat | i < j < |ring|
        ensures !Cross(ring, i, j)
      {
        CrossingExact(ring, i, j);
        if Cross(ring, i, j) {
          CrossingsComplete(ring, 0, 1, i, j);
        }
      }
    } else {
      var c := AllCrossings(ring)[0];
      CrossingsGenuine(ring, 0, 1);
      assert Genuine(ring, c);
      CrossingExact(ring, c.i, c.j);
    }
  }

  const FLAT: Ring := [Point(0.0, 0.0), Point(2.0, 0.0), Point(1.0, 0.0), Point(3.0, 0.0)]

  /** A wall folded flat onto itself passes unseen: segments 0 and 2 overlap. */
  lemma FlatUnseen()
    ensures AllCrossings(FLAT) == [] && !Adjacent(|FLAT|, 0, 2)
    ensures Share(FLAT[0], Direction(FLAT, 0), FLAT[2], Direction(FLAT, 2))
  {
    hide AllCrossings, Share, Direction;
    FlatNeverCrosses(FLAT);
    FlatDirections();
    HalfwayMeets();
  }

  lemma FlatDirections()
    ensures Direction(FLAT, 0) == Point(2.0, 0.0) && Direction(FLAT, 2) == Point(2.0, 0.0)
  {
  }

  lemma FlatNeverCrosses(ring: Ring)
    requires forall i :: 0 <= i < |ring| ==> ring[i].y == 0.0
    ensures AllCrossings(ring) == []
  {
    hide AllCrossings, Share, Wedge;
    forall i: nat, j: nat | i < j < |ring|
      ensures !Cross(ring, i, j)
    {
      FlatWedge(Direction(ring, i), Direction(ring, j));
    }
    NoCrossingsExact(ring);
  }

  lemma HalfwayMeets()
    ensures Share(Point(0.0, 0.0), Point(2.0, 0.0), Point(1.0, 0.0), Point(2.0, 0.0))
  {
    assert Along(Point(0.0, 0.0), Point(2.0, 0.0), 0.5) == Along(Point(1.0, 0.0), Point(2.0, 0.0), 0.0);
  }

  lemma FlatWedge(d1: Point, d2: Point)
    requires d1.y == 0.0 && d2.y == 0.0
    ensures Wedge(d1, d2) == 0.0
  {
  }

  function Scaled(d: Point, k: real): Point {
    Point(k * d.x, k * d.y)
  }

  lemma HalfLength(k: real, d: Point)
    requires -0.5 <= k <= 0.5
    ensures Norm2(Scaled(d, k)) <= Norm2(d) / 4.0
  {
    ProductNonNegative(0.5 - k, 0.5 + k);
    assert 0.25 - k * k >= 0.0;
    SquareNonNegative(d.x);
    SquareNonNegative(d.y);
    ProductNonNegative(0.25 - k * k, Norm2(d));
    assert Norm2(Scaled(d, k)) == k * k * Norm2(d);
  }

  lemma DifferenceNorm(a: Point, b: Point)
    ensures Norm2(Minus(a, b)) <= 2.0 * Norm2(a) + 2.0 * Norm2(b)
  {
    SquareNonNegative(a.x + b.x);
    SquareNonNegative(a.y + b.y);
  }

  lemma OppositeNorm(a: Point, b: Point)
    requires a.x == -b.x && a.y == -b.y
    ensures Norm2(a) == Norm2(b)
  {
  }

  /** From the common point, the midpoints are half a segment away at most. */
  lemma CommonPointNear(p: Point, d1: Point, q: Point, d2: Point, t: real, u: real, bound: real)
    requires 0.0 <= t <= 1.0 && 0.0 <= u <= 1.0 && Along(p, d1, t) == Along(q, d2, u)
    requires Norm2(d1) <= bound && Norm2(d2) <= bound
    ensures Distance2(Along(p, d1, 0.5), Along(q, d2, 0.5)) <= bound
  {
    hide Norm2;
    var a, b := Scaled(d1, t - 0.5), Scaled(d2, u - 0.5);
    HalfLength(t - 0.5, d1);
    HalfLength(u - 0.5, d2);
    DifferenceNorm(a, b);
    MiddleGap(p.x, d1.x, q.x, d2.x, t, u);
    MiddleGap(p.y, d1.y, q.y, d2.y, t, u);
    OppositeNorm(Minus(Along(p, d1, 0.5), Along(q, d2, 0.5)), Minus(a, b));
  }

  /** Two segments that meet have their midpoints within the longer one's length. */
  lemma MeetingIsNear(p: Point, d1: Point, q: Point, d2: Point, bound: real)
    requires Meet(p, d1, q, d2).Some? && Norm2(d1) <= bound && Norm2(d2) <= bound
    ensures Distance2(Along(p, d1, 0.5), Along(q, d2, 0.5)) <= bound
  {
    hide Norm2, Along, Minus, Wedge, Distance2;
    var den, w := Wedge(d1, d2), Minus(q, p);
    MeetIsCommon(p, d1, q, d2, Wedge(w, d2) / den, Wedge(w, d1) / den);
    CommonPointNear(p, d1, q, d2, Wedge(w, d2) / den, Wedge(w, d1) / den, bound);
  }

  lemma MiddleGap(p: real, d1: real, q: real, d2: real, t: real, u: real)
    requires p + t * d1 == q + u * d2
    ensures (p + 0.5 * d1) - (q + 0.5 * d2) == -((t - 0.5) * d1 - (u - 0.5) * d2)
  {
  }

  /** Restricting the pairs to near midpoints loses no crossing. */
  lemma FilterLosesNothing(ring: Ring, i: nat, j: nat)
    requires i < j < |ring| && CrossingOf(ring, i, j).Some?
    ensures Near(ring, i, j)
  {
    MeetingIsNear(ring[i], Direction(ring, i), ring[j], Direction(ring, j), Longest2(ring, |ring|));
  }

  /** Every crossing, found among the candidate pairs alone. */
  method Crossings(wall: Ring) returns (found: seq<Crossing>)
    ensures found == AllCrossings(wall)
  {
    hide Near, CrossingOf, CrossingsFrom;
    found := [];
    var i := 0;
    while i < |wall|
      invariant 0 <= i <= |wall|
      invariant found + CrossingsFrom(wall, i, i + 1) == AllCrossings(wall)
    {
      var j := i + 1;
      while j < |wall|
        invariant i < j <= |wall|
        invariant found + CrossingsFrom(wall, i, j) == AllCrossings(wall)
      {
        var c := CrossingOf(wall, i, j);
        if c.Some? {
          FilterLosesNothing(wall, i, j);
        }
        CrossingsTurn(wall, i, j, found);
        if Near(wall, i, j) && c.Some? {
          found := found + [c.value];
        }
        j := j + 1;
      }
      CrossingsNextRow(wall, i, j);
      i := i + 1;
    }
    CrossingsEnd(wall, i, found);
  }

  lemma CrossingsTurn(ring: Ring, i: nat, j: nat, found: seq<Crossing>)
    requires i < j < |ring|
    ensures found + CrossingsFrom(ring, i, j) ==
      (if CrossingOf(ring, i, j).Some? then found + [CrossingOf(ring, i, j).value] else found) +
      CrossingsFrom(ring, i, j + 1)
  {
    hide CrossingOf;
    if CrossingOf(ring, i, j).Some? {
      var c, rest := CrossingOf(ring, i, j).value, CrossingsFrom(ring, i, j + 1);
      assert found + ([c] + rest) == (found + [c]) + rest;
    }
  }

  lemma CrossingsNextRow(ring: Ring, i: nat, j: nat)
    requires i < |ring| <= j
    ensures CrossingsFrom(ring, i, j) == CrossingsFrom(ring, i + 1, i + 2)
  {
    hide CrossingOf;
  }

  lemma CrossingsEnd(ring: Ring, i: nat, found: seq<Crossing>)
    requires i >= |ring|
    ensures found + CrossingsFrom(ring, i, i + 1) == found
  {
    hide CrossingOf;
  }

  /** The first crossing in order of its pair, tried pair by pair. */
  method FirstCrossing(ring: Ring) returns (first: Option<Crossing>)
    ensures first == if AllCrossings(ring) == [] then None else Some(AllCrossings(ring)[0])
  {
    hide CrossingOf;
    var i := 0;
    while i < |ring|
      invariant 0 <= i <= |ring|
      invariant CrossingsFrom(ring, i, i + 1) == AllCrossings(ring)
    {
      var j := i + 1;
      while j < |ring|
        invariant i < j <= |ring|
        invariant CrossingsFrom(ring, i, j) == AllCrossings(ring)
      {
        var c := CrossingOf(ring, i, j);
        if c.Some? {
          return c;
        }
        j := j + 1;
      }
      i := i + 1;
    }
    return None;
  }
}
