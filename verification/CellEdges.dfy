/**
 The distance from a point to the nearest occupied cell's square, measured exactly
 only on the cells whose centres are near enough. Distances are squared.
 */
module CellEdges {
  import opened Geometry
  import opened NearestEdges
  import opened Options
  import opened Products

  function Abs(x: real): real {
    if x < 0.0 then -x else x
  }

  function Beyond(x: real, half: real): real {
    if x - half > 0.0 then x - half else 0.0
  }

  /** What separates p from the square, along each axis. */
  function Offset(p: Point, c: Point, half: real): Point {
    Point(Beyond(Abs(c.x - p.x), half), Beyond(Abs(c.y - p.y), half))
  }

  function CellDistance2(p: Point, c: Point, half: real): real {
    Norm2(Offset(p, c, half))
  }

  /** q lies in the square of the cell centred at c. */
  predicate InCell(q: Point, c: Point, half: real) {
    -half <= q.x - c.x <= half && -half <= q.y - c.y <= half
  }

  lemma SquareRises(a: real, b: real)
    requires 0.0 <= a <= b
    ensures Times(a, a) <= Times(b, b)
  {
    hide Times;
    if a < b {
      SquareLess(a, b);
    }
  }

  /** The squared distance to the square is the least over its points. */
  lemma CellDistanceLeast(p: Point, c: Point, half: real, q: Point)
    requires half >= 0.0 && InCell(q, c, half)
    ensures CellDistance2(p, c, half) <= Distance2(p, q)
  {
    hide Times, Norm2;
    var w, v := Offset(p, c, half), Minus(p, q);
    NormIs(w);
    NormIs(v);
    AxisLeast(v.x, w.x);
    AxisLeast(v.y, w.y);
  }

  lemma AxisLeast(v: real, w: real)
    requires 0.0 <= w && (w <= v || w <= -v || w == 0.0)
    ensures Times(w, w) <= Times(v, v)
  {
    hide Times;
    Opposite(v);
    SquareSigns(v);
    if 0.0 < w <= v {
      SquareRises(w, v);
    } else if 0.0 < w {
      SquareRises(w, -v);
    } else {
      ZeroTimes();
    }
  }

  lemma ZeroTimes()
    ensures Times(0.0, 0.0) == 0.0
  {
  }

  /** And one of its points is that close. */
  lemma CellDistanceAttained(p: Point, c: Point, half: real) returns (q: Point)
    requires half >= 0.0
    ensures InCell(q, c, half) && CellDistance2(p, c, half) == Distance2(p, q)
  {
    q := Point(Toward(p.x, c.x, half), Toward(p.y, c.y, half));
    hide Times, Norm2;
    var w, v := Offset(p, c, half), Minus(p, q);
    assert (w.x == v.x || w.x == -v.x) && (w.y == v.y || w.y == -v.y);
    NormIs(w);
    NormIs(v);
    Opposite(v.x);
    Opposite(v.y);
  }

  function Toward(x: real, c: real, half: real): real {
    if x < c - half then c - half else if x > c + half then c + half else x
  }

  // --- the candidates

  predicate IsRoot(x: real, root: real) {
    root >= 0.0 && Times(root, root) == x
  }

  /** Near enough to be measured: within the nearest centre's distance and half a diagonal. */
  predicate Candidate(distance: real, nearest: real, half: real, rootTwo: real) {
    distance <= nearest + Times(half, rootTwo)
  }

  lemma RootBelow(r: real, b: real)
    requires r >= 0.0 && b >= 0.0 && Times(r, r) <= Times(b, b)
    ensures r <= b
  {
    hide Times;
    if b < r {
      SquareLess(b, r);
    }
  }

  /** The sum of two sides against their diagonal. */
  lemma SumBelow(x: real, y: real, d: real, rootTwo: real)
    requires x >= 0.0 && y >= 0.0 && d >= 0.0 && IsRoot(2.0, rootTwo)
    requires Times(x, x) + Times(y, y) <= Times(d, d)
    ensures x + y <= Times(d, rootTwo)
  {
    hide Times;
    TimesNonNegative(d, rootTwo);
    SumSquared(x, y);
    SquareSigns(x - y);
    ProductSquared(d, rootTwo);
    TimesTwo(Times(d, d));
    RootBelow(x + y, Times(d, rootTwo));
  }

  lemma SumSquared(x: real, y: real)
    ensures Times(x + y, x + y) + Times(x - y, x - y) == 2.0 * Times(x, x) + 2.0 * Times(y, y)
  {
  }

  lemma ProductSquared(a: real, b: real)
    ensures Times(Times(a, b), Times(a, b)) == Times(Times(a, a), Times(b, b))
  {
    assert (a * b) * (a * b) == (a * a) * (b * b);
  }

  lemma TimesTwo(a: real)
    ensures Times(a, 2.0) == 2.0 * a
  {
  }

  lemma SquareOfSum(a: real, b: real)
    ensures Times(a + b, a + b) == Times(a, a) + 2.0 * Times(a, b) + Times(b, b)
  {
  }

  lemma Regroup(h: real, s: real, d: real, rootTwo: real)
    requires 0.0 <= h && s <= Times(d, rootTwo)
    ensures Times(h, s) <= Times(d, Times(h, rootTwo))
  {
    ProductNonNegative(h, Times(d, rootTwo) - s);
    assert h * (d * rootTwo) == d * (h * rootTwo);
  }

  /** No centre is further than its square by more than half a diagonal. */
  lemma CentreWithin(p: Point, c: Point, half: real, d: real, rootTwo: real)
    requires half >= 0.0 && d >= 0.0 && IsRoot(2.0, rootTwo) && CellDistance2(p, c, half) <= Times(d, d)
    ensures Distance2(p, c) <= Times(d + Times(half, rootTwo), d + Times(half, rootTwo))
  {
    hide Times, Norm2;
    var w, v := Offset(p, c, half), Minus(p, c);
    NormIs(w);
    NormIs(v);
    SumBelow(w.x, w.y, d, rootTwo);
    AxisWithin(v.x, w.x, half);
    AxisWithin(v.y, w.y, half);
    Spread(half, w.x, w.y);
    Regroup(half, w.x + w.y, d, rootTwo);
    ProductSquared(half, rootTwo);
    TimesTwo(Times(half, half));
    SquareOfSum(d, Times(half, rootTwo));
  }

  lemma Spread(h: real, x: real, y: real)
    ensures Times(h, x + y) == Times(x, h) + Times(y, h)
  {
  }

  lemma AxisWithin(v: real, w: real, half: real)
    requires half >= 0.0 && w >= 0.0 && -(w + half) <= v <= w + half
    ensures Times(v, v) <= Times(w, w) + 2.0 * Times(w, half) + Times(half, half)
  {
    hide Times;
    SquareOfSum(w, half);
    Opposite(v);
    if v >= 0.0 {
      SquareRises(v, w + half);
    } else {
      SquareRises(-v, w + half);
    }
  }

  /** No square is nearer than its centre is. */
  lemma CellBelowCentre(p: Point, c: Point, half: real)
    requires half >= 0.0
    ensures CellDistance2(p, c, half) <= Distance2(p, c)
  {
    CellDistanceLeast(p, c, half, c);
  }

  /** The nearest square's centre is always among the candidates. */
  lemma NearestIsCandidate(p: Point, c: Point, c0: Point, half: real, rootTwo: real, distance: real, nearest: real)
    requires half >= 0.0 && IsRoot(2.0, rootTwo)
    requires IsRoot(Distance2(p, c), distance) && IsRoot(Distance2(p, c0), nearest)
    requires CellDistance2(p, c, half) <= CellDistance2(p, c0, half)
    ensures Candidate(distance, nearest, half, rootTwo)
  {
    hide Times, Distance2, CellDistance2;
    CellBelowCentre(p, c0, half);
    CentreWithin(p, c, half, nearest, rootTwo);
    TimesNonNegative(half, rootTwo);
    RootBelow(distance, nearest + Times(half, rootTwo));
  }

  // --- the search

  /** m is the least squared distance from p to any of the cells. */
  ghost predicate IsLeastCell(p: Point, centres: seq<Point>, half: real, m: real) {
    && (forall k :: 0 <= k < |centres| ==> m <= CellDistance2(p, centres[k], half))
    && exists k :: 0 <= k < |centres| && CellDistance2(p, centres[k], half) == m
  }

  ghost predicate Rooted(sqrt: real -> real, p: Point, centres: seq<Point>) {
    forall k :: 0 <= k < |centres| ==> IsRoot(Distance2(p, centres[k]), sqrt(Distance2(p, centres[k])))
  }

  /** The distance to the nearest centre, which is what the tree's query gives. */
  method NearestCentre(sqrt: real -> real, p: Point, centres: seq<Point>) returns (nearest: real, ghost k0: nat)
    requires centres != []
    ensures k0 < |centres| && nearest == sqrt(Distance2(p, centres[k0]))
    ensures forall k :: 0 <= k < |centres| ==> nearest <= sqrt(Distance2(p, centres[k]))
  {
    hide Distance2;
    nearest, k0 := sqrt(Distance2(p, centres[0])), 0;
    for k := 1 to |centres|
      invariant k0 < k && nearest == sqrt(Distance2(p, centres[k0]))
      invariant forall h :: 0 <= h < k ==> nearest <= sqrt(Distance2(p, centres[h]))
    {
      var distance := sqrt(Distance2(p, centres[k]));
      if distance < nearest {
        nearest, k0 := distance, k;
      }
    }
  }

  lemma LeastCell(p: Point, centres: seq<Point>, half: real, n: nat) returns (c: nat)
    requires 1 <= n <= |centres|
    ensures c < n && forall k :: 0 <= k < n ==> CellDistance2(p, centres[c], half) <= CellDistance2(p, centres[k], half)
  {
    hide CellDistance2;
    c := 0;
    if n > 1 {
      c := LeastCell(p, centres, half, n - 1);
      if CellDistance2(p, centres[n - 1], half) < CellDistance2(p, centres[c], half) {
        c := n - 1;
      }
    }
  }

  /** Measuring the candidates alone gives the least over all the cells. */
  method CellDistance(sqrt: real -> real, rootTwo: real, p: Point, centres: seq<Point>, half: real) returns (m: real)
    requires centres != [] && half >= 0.0 && IsRoot(2.0, rootTwo) && Rooted(sqrt, p, centres)
    ensures IsLeastCell(p, centres, half, m)
  {
    hide Distance2, CellDistance2, Candidate, IsRoot;
    var nearest, k0 := NearestCentre(sqrt, p, centres);
    ghost var c := LeastCell(p, centres, half, |centres|);
    NearestIsCandidate(p, centres[c], centres[k0], half, rootTwo, sqrt(Distance2(p, centres[c])), nearest);
    var found: Option<real> := None;
    for k := 0 to |centres|
      invariant found.Some? ==> exists h :: 0 <= h < k && CellDistance2(p, centres[h], half) == found.value
      invariant c < k ==> found.Some? && found.value <= CellDistance2(p, centres[c], half)
    {
      if Candidate(sqrt(Distance2(p, centres[k])), nearest, half, rootTwo) {
        var d := CellDistance2(p, centres[k], half);
        if found == None || d < found.value {
          found := Some(d);
        }
      }
    }
    m := found.value;
  }

  /** Every point's distance to the nearest square; None, infinite, without any cell. */
  method CellEdgeDistance(sqrt: real -> real, rootTwo: real, xy: seq<Point>, centres: seq<Point>, resolution: real)
    returns (out: seq<Option<real>>)
    requires resolution >= 0.0 && IsRoot(2.0, rootTwo)
    requires forall k :: 0 <= k < |xy| ==> Rooted(sqrt, xy[k], centres)
    ensures |out| == |xy|
    ensures forall k :: 0 <= k < |xy| ==>
      if centres == [] then out[k] == None
      else out[k].Some? && IsLeastCell(xy[k], centres, resolution / 2.0, out[k].value)
  {
    hide Rooted, IsLeastCell, IsRoot;
    if centres == [] {
      return seq(|xy|, k => None);
    }
    out := [];
    for k := 0 to |xy|
      invariant |out| == k
      invariant forall h :: 0 <= h < k ==> out[h].Some? && IsLeastCell(xy[h], centres, resolution / 2.0, out[h].value)
    {
      var m := CellDistance(sqrt, rootTwo, xy[k], centres, resolution / 2.0);
      out := out + [Some(m)];
    }
  }
}
