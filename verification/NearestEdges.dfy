/**
 The distance from each point to the nearest wall edge, bucketed by the edges'
 midpoints. Distances are squared throughout.
 */
module NearestEdges {
  import opened Geometry
  import opened Products
  import opened Sets

  const BUCKET: real := 0.5

  function Dot(p: Point, q: Point): real {
    p.x * q.x + p.y * q.y
  }

  function Unit(t: real): real {
    if t < 0.0 then 0.0 else if t > 1.0 then 1.0 else t
  }

  /** How far along the edge its point closest to p is, in [0, 1]. */
  function Closest(p: Point, e: Edge): real {
    var d := Minus(e.end, e.start);
    if Norm2(d) == 0.0 then 0.0 else Unit(Dot(Minus(p, e.start), d) / Norm2(d))
  }

  function PointOn(e: Edge, t: real): Point {
    Along(e.start, Minus(e.end, e.start), t)
  }

  function EdgeDistance2(p: Point, e: Edge): real {
    Distance2(p, PointOn(e, Closest(p, e)))
  }

  /** Along the edge, the squared distance is a parabola in t. */
  lemma DistanceAlong(p: Point, e: Edge, t: real)
    ensures var d, w := Minus(e.end, e.start), Minus(p, e.start);
      Distance2(p, PointOn(e, t)) == Norm2(w) - 2.0 * t * Dot(w, d) + t * t * Norm2(d)
  {
    var d, w := Minus(e.end, e.start), Minus(p, e.start);
    AxisAlong(p.x, e.start.x, d.x, t);
    AxisAlong(p.y, e.start.y, d.y, t);
  }

  lemma AxisAlong(p: real, s: real, d: real, t: real)
    ensures (p - (s + t * d)) * (p - (s + t * d)) == (p - s) * (p - s) - 2.0 * t * ((p - s) * d) + t * t * (d * d)
  {
  }

  /** A parabola on [0, 1] is least at its clamped vertex. */
  lemma ParabolaLeast(a: real, b: real, t: real, s: real)
    requires a > 0.0 && 0.0 <= s <= 1.0 && t == Unit(b / a)
    ensures -2.0 * t * b + t * t * a <= -2.0 * s * b + s * s * a
  {
    var v := b / a;
    assert v * a == b;
    assert (s - t) * (s + t - 2.0 * v) >= 0.0 by {
      if v < 0.0 {
        ProductNonNegative(s, s - 2.0 * v);
      } else if v > 1.0 {
        ProductNonNegative(1.0 - s, 2.0 * v - s - 1.0);
      } else {
        SquareNonNegative(s - v);
      }
    }
    ProductNonNegative(a, (s - t) * (s + t - 2.0 * v));
    assert a * ((s - t) * (s + t - 2.0 * v)) == s * s * a - t * t * a - 2.0 * s * (v * a) + 2.0 * t * (v * a);
  }

  /** The edge distance is the least over all the edge's points. */
  lemma EdgeDistanceLeast(p: Point, e: Edge, s: real)
    requires 0.0 <= s <= 1.0
    ensures EdgeDistance2(p, e) <= Distance2(p, PointOn(e, s))
  {
    hide Distance2, PointOn, Dot, Norm2, Unit;
    var d, w := Minus(e.end, e.start), Minus(p, e.start);
    DistanceAlong(p, e, s);
    DistanceAlong(p, e, Closest(p, e));
    NormNonNegative(d);
    if Norm2(d) == 0.0 {
      ZeroNorm(d);
      ZeroDot(w, d);
    } else {
      ParabolaLeast(Norm2(d), Dot(w, d), Closest(p, e), s);
    }
  }

  lemma ClosestOnEdge(p: Point, e: Edge)
    ensures 0.0 <= Closest(p, e) <= 1.0
  {
  }

  lemma ZeroDot(w: Point, d: Point)
    requires d.x == 0.0 && d.y == 0.0
    ensures Dot(w, d) == 0.0
  {
  }

  lemma NormNonNegative(d: Point)
    ensures Norm2(d) >= 0.0
  {
    SquareNonNegative(d.x);
    SquareNonNegative(d.y);
  }

  // Products under a name, so that what uses them reasons about sums alone.

  lemma NormIs(d: Point)
    ensures Norm2(d) == Times(d.x, d.x) + Times(d.y, d.y)
  {
  }

  lemma ZeroNorm(d: Point)
    requires Norm2(d) == 0.0
    ensures d.x == 0.0 && d.y == 0.0
  {
    hide Norm2, Times;
    NormIs(d);
    SquareSigns(d.x);
    SquareSigns(d.y);
    if d.x != 0.0 {
      SquarePositive(d.x);
    }
    if d.y != 0.0 {
      SquarePositive(d.y);
    }
  }

  ghost predicate Indices(chosen: seq<nat>, n: nat) {
    forall i :: 0 <= i < |chosen| ==> chosen[i] < n
  }

  /** `m` is the least distance from p to the edges listed. */
  ghost predicate IsNearest(p: Point, edges: seq<Edge>, chosen: seq<nat>, m: real)
    requires Indices(chosen, |edges|)
  {
    && (forall i :: 0 <= i < |chosen| ==> m <= EdgeDistance2(p, edges[chosen[i]]))
    && exists i :: 0 <= i < |chosen| && m == EdgeDistance2(p, edges[chosen[i]])
  }

  function Everything(n: nat): (r: seq<nat>)
    ensures |r| == n && forall k :: 0 <= k < n ==> r[k] == k
  {
    seq(n, k => k)
  }

  /** The distance of each member to the nearest chosen edge. */
  method PointSegmentDistance(points: seq<Point>, edges: seq<Edge>, members: seq<nat>, chosen: seq<nat>)
    returns (found: seq<real>)
    requires chosen != [] && Indices(chosen, |edges|) && Indices(members, |points|)
    ensures |found| == |members|
    ensures forall i :: 0 <= i < |members| ==> IsNearest(points[members[i]], edges, chosen, found[i])
  {
    hide EdgeDistance2;
    found := [];
    for i := 0 to |members|
      invariant |found| == i
      invariant forall h :: 0 <= h < i ==> IsNearest(points[members[h]], edges, chosen, found[h])
    {
      var p := points[members[i]];
      var least := EdgeDistance2(p, edges[chosen[0]]);
      ghost var at := 0;
      for j := 0 to |chosen|
        invariant forall h :: 0 <= h < j ==> least <= EdgeDistance2(p, edges[chosen[h]])
        invariant 0 <= at < |chosen| && least == EdgeDistance2(p, edges[chosen[at]])
      {
        var d := EdgeDistance2(p, edges[chosen[j]]);
        if d < least {
          least, at := d, j;
        }
      }
      found := found + [least];
    }
  }

  // --- cells

  type Cell = (int, int)

  function CellOf(low: Point, p: Point): Cell {
    (((p.x - low.x) / BUCKET).Floor, ((p.y - low.y) / BUCKET).Floor)
  }

  function MidOf(e: Edge): Point {
    PointOn(e, 0.5)
  }

  predicate Within(c: Cell, d: Cell, reach: int) {
    c.0 - reach <= d.0 <= c.0 + reach && c.1 - reach <= d.1 <= c.1 + reach
  }

  /** Half an edge spans at most a bucket, along either axis. */
  predicate Short(e: Edge) {
    -2.0 * BUCKET <= e.end.x - e.start.x <= 2.0 * BUCKET && -2.0 * BUCKET <= e.end.y - e.start.y <= 2.0 * BUCKET
  }

  lemma FloorsNear(a: real, c: real, low: real, n: int)
    requires n >= 0 && -(n as real) * BUCKET <= a - c <= n as real * BUCKET
    ensures -n <= ((a - low) / BUCKET).Floor - ((c - low) / BUCKET).Floor <= n
  {
    assert (a - low) / BUCKET - (c - low) / BUCKET == (a - c) / BUCKET;
  }

  lemma AxisBound(d: Point, r: real)
    requires r >= 0.0 && Norm2(d) <= Times(r, r)
    ensures -r <= d.x <= r && -r <= d.y <= r
  {
    hide Norm2, Times;
    NormIs(d);
    SquareSigns(d.x);
    SquareSigns(d.y);
    SquareBound(d.x, r);
    SquareBound(d.y, r);
  }

  lemma SquareBound(a: real, r: real)
    requires r >= 0.0 && Times(a, a) <= Times(r, r)
    ensures -r <= a <= r
  {
    hide Times;
    if a > r {
      SquareLess(r, a);
    } else if a < -r {
      SquareLess(r, -a);
      Opposite(a);
    }
  }

  lemma SquareLess(a: real, b: real)
    requires 0.0 <= a < b
    ensures Times(a, a) < Times(b, b)
  {
    hide Times;
    DifferenceOfSquares(a, b);
    TimesPositive(b - a, b + a);
  }

  lemma DifferenceOfSquares(a: real, b: real)
    ensures Times(b, b) - Times(a, a) == Times(b - a, b + a)
  {
  }

  /** (1/2 - t) of a step at most two buckets long is at most a bucket. */
  lemma HalfStep(t: real, d: real)
    requires 0.0 <= t <= 1.0 && -2.0 * BUCKET <= d <= 2.0 * BUCKET
    ensures -BUCKET <= 0.5 * d - Times(t, d) <= BUCKET
  {
    hide Times;
    HalfStepExpanded(t, d);
    if t <= 0.5 {
      TimesNonNegative(0.5 - t, 1.0 - d);
      TimesNonNegative(0.5 - t, 1.0 + d);
    } else {
      TimesNonNegative(t - 0.5, 1.0 - d);
      TimesNonNegative(t - 0.5, 1.0 + d);
    }
  }

  lemma HalfStepExpanded(t: real, d: real)
    ensures Times(0.5 - t, 1.0 - d) == 0.5 - 0.5 * d - t + Times(t, d)
    ensures Times(0.5 - t, 1.0 + d) == 0.5 + 0.5 * d - t - Times(t, d)
    ensures Times(t - 0.5, 1.0 - d) == -Times(0.5 - t, 1.0 - d)
    ensures Times(t - 0.5, 1.0 + d) == -Times(0.5 - t, 1.0 + d)
  {
  }

  /** An edge closer than n buckets has its midpoint within n + 1 cells. */
  lemma CloseEdgeNearCell(p: Point, e: Edge, low: Point, n: int)
    requires n >= 0 && Short(e)
    requires EdgeDistance2(p, e) <= (n as real * BUCKET) * (n as real * BUCKET)
    ensures Within(CellOf(low, p), CellOf(low, MidOf(e)), n + 1)
  {
    hide Closest, CellOf;
    ClosestOnEdge(p, e);
    CloseEdgeNearMiddle(p, e, Closest(p, e), n as real * BUCKET);
    FloorsNear(MidOf(e).x, p.x, low.x, n + 1);
    FloorsNear(MidOf(e).y, p.y, low.y, n + 1);
    CellIs(low, p);
    CellIs(low, MidOf(e));
  }

  lemma CellIs(low: Point, p: Point)
    ensures CellOf(low, p) == (((p.x - low.x) / BUCKET).Floor, ((p.y - low.y) / BUCKET).Floor)
  {
  }

  lemma CloseEdgeNearMiddle(p: Point, e: Edge, t: real, r: real)
    requires 0.0 <= t <= 1.0 && r >= 0.0 && Short(e) && Distance2(p, PointOn(e, t)) <= r * r
    ensures -(r + BUCKET) <= MidOf(e).x - p.x <= r + BUCKET
    ensures -(r + BUCKET) <= MidOf(e).y - p.y <= r + BUCKET
  {
    hide Norm2, Times;
    var d := Minus(e.end, e.start);
    assert r * r == Times(r, r) by { TimesIs(r, r); }
    TimesIs(t, d.x);
    TimesIs(t, d.y);
    AxisBound(Minus(p, PointOn(e, t)), r);
    HalfStep(t, d.x);
    HalfStep(t, d.y);
  }

  /** Edge or point indexes, by cell. */
  type Index = map<Cell, seq<nat>>

  /** The list filed under a cell holds just the indexes of that cell. */
  ghost predicate Files(list: seq<nat>, cells: seq<Cell>, n: nat, c: Cell)
    requires n <= |cells|
  {
    && (forall i :: 0 <= i < |list| ==> list[i] < n && cells[list[i]] == c)
    && (forall k: nat :: k < n && cells[k] == c ==> k in list)
  }

  ghost predicate Indexes(byCell: Index, cells: seq<Cell>, n: nat)
    requires n <= |cells|
  {
    && (forall c :: c in byCell ==> Files(byCell[c], cells, n, c))
    && (forall k: nat :: k < n ==> cells[k] in byCell)
  }

  method GroupByCell(cells: seq<Cell>) returns (byCell: Index)
    ensures Indexes(byCell, cells, |cells|)
  {
    byCell := map[];
    for k := 0 to |cells|
      invariant Indexes(byCell, cells, k)
    {
      var list := if cells[k] in byCell then byCell[cells[k]] else [];
      assert Files(list, cells, k, cells[k]);
      FilesNext(list, cells, k);
      forall c | c in byCell && c != cells[k]
        ensures Files(byCell[c], cells, k + 1, c)
      {
        assert Files(byCell[c], cells, k, c);
      }
      byCell := byCell[cells[k] := list + [k]];
    }
  }

  lemma FilesNext(list: seq<nat>, cells: seq<Cell>, k: nat)
    requires k < |cells| && Files(list, cells, k, cells[k])
    ensures Files(list + [k], cells, k + 1, cells[k])
  {
    var next := list + [k];
    forall m: nat | m < k + 1 && cells[m] == cells[k]
      ensures m in next
    {
      if m < k {
        assert m in list;
      } else {
        assert next[|list|] == m;
      }
    }
  }

  /** The indexes gathered so far are just those whose cell passed the test. */
  ghost predicate Gathered(chosen: seq<nat>, cells: seq<Cell>, at: Cell, reach: nat, gx: int, gy: int) {
    && (forall i :: 0 <= i < |chosen| ==>
          chosen[i] < |cells| && Within(at, cells[chosen[i]], reach) && Scanned(cells[chosen[i]], gx, gy))
    && (forall k: nat :: k < |cells| && Within(at, cells[k], reach) && Scanned(cells[k], gx, gy) ==> k in chosen)
  }

  predicate Scanned(c: Cell, gx: int, gy: int) {
    c.0 < gx || (c.0 == gx && c.1 < gy)
  }

  ghost predicate AllNear(chosen: seq<nat>, cells: seq<Cell>, at: Cell, reach: nat) {
    && (forall i :: 0 <= i < |chosen| ==> chosen[i] < |cells| && Within(at, cells[chosen[i]], reach))
    && (forall k: nat :: k < |cells| && Within(at, cells[k], reach) ==> k in chosen)
  }

  /** All the indexes filed within reach of the cell. */
  method Gather(byCell: Index, cells: seq<Cell>, at: Cell, reach: nat) returns (chosen: seq<nat>)
    requires Indexes(byCell, cells, |cells|)
    ensures AllNear(chosen, cells, at, reach)
  {
    chosen := [];
    var gx := at.0 - reach;
    while gx <= at.0 + reach
      invariant at.0 - reach <= gx <= at.0 + reach + 1
      invariant Gathered(chosen, cells, at, reach, gx, at.1 - reach)
    {
      var gy := at.1 - reach;
      while gy <= at.1 + reach
        invariant at.1 - reach <= gy <= at.1 + reach + 1
        invariant Gathered(chosen, cells, at, reach, gx, gy)
      {
        var list := if (gx, gy) in byCell then byCell[(gx, gy)] else [];
        assert Files(list, cells, |cells|, (gx, gy));
        GatherList(chosen, list, cells, at, reach, gx, gy);
        chosen := chosen + list;
        gy := gy + 1;
      }
      gx := gx + 1;
    }
  }

  lemma GatherList(chosen: seq<nat>, list: seq<nat>, cells: seq<Cell>, at: Cell, reach: nat, gx: int, gy: int)
    requires Gathered(chosen, cells, at, reach, gx, gy) && Files(list, cells, |cells|, (gx, gy))
    requires Within(at, (gx, gy), reach)
    ensures Gathered(chosen + list, cells, at, reach, gx, gy + 1)
  {
  }

  /** The least distance from p to the edges listed. */
  ghost function Least2(p: Point, edges: seq<Edge>, chosen: seq<nat>): (m: real)
    requires chosen != [] && Indices(chosen, |edges|)
    ensures IsNearest(p, edges, chosen, m)
  {
    if |chosen| == 1 then EdgeDistance2(p, edges[chosen[0]])
    else
      var rest := Least2(p, edges, chosen[1..]);
      LeastNext(p, edges, chosen, rest);
      if EdgeDistance2(p, edges[chosen[0]]) < rest then EdgeDistance2(p, edges[chosen[0]]) else rest
  }

  lemma LeastNext(p: Point, edges: seq<Edge>, chosen: seq<nat>, rest: real)
    requires |chosen| > 1 && Indices(chosen, |edges|) && Indices(chosen[1..], |edges|)
    requires IsNearest(p, edges, chosen[1..], rest)
    ensures var d := EdgeDistance2(p, edges[chosen[0]]); IsNearest(p, edges, chosen, if d < rest then d else rest)
  {
    hide EdgeDistance2;
    forall i | 1 <= i < |chosen|
      ensures rest <= EdgeDistance2(p, edges[chosen[i]])
    {
      assert chosen[i] == chosen[1..][i - 1];
    }
    var h :| 0 <= h < |chosen[1..]| && rest == EdgeDistance2(p, edges[chosen[1..][h]]);
    assert chosen[1..][h] == chosen[h + 1];
  }

  /** The least over one list is the least over any list of the same edges. */
  lemma LeastOnce(p: Point, edges: seq<Edge>, a: seq<nat>, b: seq<nat>, m: real, n: real)
    requires Indices(a, |edges|) && Indices(b, |edges|)
    requires IsNearest(p, edges, a, m) && IsNearest(p, edges, b, n)
    requires forall i :: 0 <= i < |a| ==> a[i] in b
    requires forall i :: 0 <= i < |b| ==> b[i] in a
    ensures m == n
  {
    hide EdgeDistance2;
    var i :| 0 <= i < |a| && m == EdgeDistance2(p, edges[a[i]]);
    var j :| 0 <= j < |b| && n == EdgeDistance2(p, edges[b[j]]);
    assert a[i] in b && b[j] in a;
  }

  // --- the search's answer

  /** The indexes of the first n cells that lie within reach. */
  function NearIndexes(cells: seq<Cell>, at: Cell, reach: nat, n: nat): (r: seq<nat>)
    requires n <= |cells|
    ensures Indices(r, n)
    ensures forall k: nat :: k < n ==> (k in r <==> Within(at, cells[k], reach))
  {
    if n == 0 then []
    else NearIndexes(cells, at, reach, n - 1) + if Within(at, cells[n - 1], reach) then [n - 1] else []
  }

  /** The square of the part of the plane searched for sure, within reach. */
  function Sure2(reach: nat): real {
    ((reach - 1) as real * BUCKET) * ((reach - 1) as real * BUCKET)
  }

  ghost predicate Enough(points: seq<Point>, edges: seq<Edge>, low: Point, at: Cell, chosen: seq<nat>, reach: nat)
    requires Indices(chosen, |edges|)
  {
    chosen != [] &&
    forall k :: 0 <= k < |points| && CellOf(low, points[k]) == at ==> Least2(points[k], edges, chosen) <= Sure2(reach)
  }

  /** The edges the search for a cell's points ends on, from a given reach on. */
  ghost function Looked(points: seq<Point>, edges: seq<Edge>, low: Point, at: Cell, extent: int, reach: nat)
    : (r: seq<nat>)
    requires edges != []
    ensures r != [] && Indices(r, |edges|)
    decreases extent - reach
  {
    var chosen := NearIndexes(Cells(low, Mids(edges)), at, reach, |edges|);
    if Enough(points, edges, low, at, chosen, reach) then chosen
    else if reach > extent then Everything(|edges|)
    else Looked(points, edges, low, at, extent, reach + 1)
  }

  ghost predicate IsLeast(values: seq<real>, m: real) {
    m in values && forall i :: 0 <= i < |values| ==> m <= values[i]
  }

  function Smallest(values: seq<real>): (m: real)
    requires values != []
    ensures IsLeast(values, m)
  {
    if |values| == 1 then values[0]
    else
      var rest := Smallest(values[1..]);
      assert forall i :: 1 <= i < |values| ==> values[i] == values[1..][i - 1];
      if values[0] < rest then values[0] else rest
  }

  function Largest(values: seq<int>): (m: int)
    requires values != []
    ensures m in values && forall i :: 0 <= i < |values| ==> values[i] <= m
  {
    if |values| == 1 then values[0]
    else
      var rest := Largest(values[1..]);
      assert forall i :: 1 <= i < |values| ==> values[i] == values[1..][i - 1];
      if values[0] > rest then values[0] else rest
  }

  function Xs(ps: seq<Point>): (r: seq<real>)
    ensures |r| == |ps| && forall k :: 0 <= k < |ps| ==> r[k] == ps[k].x
  {
    seq(|ps|, k requires 0 <= k < |ps| => ps[k].x)
  }

  function Ys(ps: seq<Point>): (r: seq<real>)
    ensures |r| == |ps| && forall k :: 0 <= k < |ps| ==> r[k] == ps[k].y
  {
    seq(|ps|, k requires 0 <= k < |ps| => ps[k].y)
  }

  /** The corner the cells are counted from: the least of midpoints and points. */
  function Low(points: seq<Point>, edges: seq<Edge>): Point
    requires points != []
  {
    var all := Mids(edges) + points;
    Point(Smallest(Xs(all)), Smallest(Ys(all)))
  }

  function Greater(c: Cell): int {
    if c.0 > c.1 then c.0 else c.1
  }

  function Coordinates(cells: seq<Cell>): (r: seq<int>)
    ensures |r| == |cells| && forall k :: 0 <= k < |cells| ==> r[k] == Greater(cells[k])
  {
    seq(|cells|, k requires 0 <= k < |cells| => Greater(cells[k]))
  }

  function Extent(points: seq<Point>, edges: seq<Edge>): int
    requires points != []
  {
    Largest(Coordinates(Cells(Low(points, edges), Mids(edges)) + Cells(Low(points, edges), points))) + 2
  }

  /** What the search answers for point k, however long the edges are. */
  ghost function Answer(points: seq<Point>, edges: seq<Edge>, k: nat): real
    requires edges != [] && k < |points|
  {
    var low := Low(points, edges);
    Least2(points[k], edges, Looked(points, edges, low, CellOf(low, points[k]), Extent(points, edges), 1))
  }

  /** What the search within reach found is the nearest of all, once it is closer
      than the part of the plane that was searched. */
  lemma SearchedEnough(p: Point, edges: seq<Edge>, chosen: seq<nat>, low: Point, reach: nat, found: real)
    requires forall k :: 0 <= k < |edges| ==> Short(edges[k])
    requires AllNear(chosen, Cells(low, Mids(edges)), CellOf(low, p), reach)
    requires Indices(chosen, |edges|) && IsNearest(p, edges, chosen, found)
    requires reach >= 1 && found <= Sure2(reach)
    ensures IsNearest(p, edges, Everything(|edges|), found)
  {
    hide EdgeDistance2, CellOf, MidOf, Short, Within;
    forall k | 0 <= k < |edges|
      ensures found <= EdgeDistance2(p, edges[k])
    {
      if EdgeDistance2(p, edges[k]) <= ((reach - 1) as real * BUCKET) * ((reach - 1) as real * BUCKET) {
        CloseEdgeNearCell(p, edges[k], low, reach - 1);
        assert Within(CellOf(low, p), Cells(low, Mids(edges))[k], reach);
        assert k in chosen;
      }
    }
    var i :| 0 <= i < |chosen| && found == EdgeDistance2(p, edges[chosen[i]]);
    assert Everything(|edges|)[chosen[i]] == chosen[i];
  }

  /** Among short edges, what the search ends on holds the nearest of all. */
  lemma {:induction false} LookedExact(points: seq<Point>, edges: seq<Edge>, low: Point, extent: int, reach: nat,
                                       k: nat)
    requires edges != [] && k < |points| && reach >= 1 && forall h :: 0 <= h < |edges| ==> Short(edges[h])
    ensures var chosen := Looked(points, edges, low, CellOf(low, points[k]), extent, reach);
      IsNearest(points[k], edges, Everything(|edges|), Least2(points[k], edges, chosen))
    decreases extent - reach
  {
    hide EdgeDistance2, CellOf, MidOf, Short, Within, IsNearest, Sure2;
    var p, at := points[k], CellOf(low, points[k]);
    var cells := Cells(low, Mids(edges));
    var chosen := NearIndexes(cells, at, reach, |edges|);
    if Enough(points, edges, low, at, chosen, reach) {
      assert AllNear(chosen, cells, at, reach);
      SearchedEnough(p, edges, chosen, low, reach, Least2(p, edges, chosen));
    } else if reach <= extent {
      LookedExact(points, edges, low, extent, reach + 1, k);
    }
  }

  method Least(values: seq<real>) returns (m: real)
    requires values != []
    ensures m == Smallest(values)
  {
    m := values[0];
    for k := 1 to |values|
      invariant m in values && forall h :: 0 <= h < k ==> m <= values[h]
    {
      m := if values[k] < m then values[k] else m;
    }
    LeastIsSmallest(values, m);
  }

  lemma LeastIsSmallest(values: seq<real>, m: real)
    requires values != [] && IsLeast(values, m)
    ensures m == Smallest(values)
  {
    hide Smallest;
    var s := Smallest(values);
    var i :| 0 <= i < |values| && values[i] == m;
    var j :| 0 <= j < |values| && values[j] == s;
  }

  method Greatest(values: seq<int>) returns (m: int)
    requires values != []
    ensures m == Largest(values)
  {
    m := values[0];
    ghost var at := 0;
    for k := 1 to |values|
      invariant 0 <= at < k && values[at] == m && forall h :: 0 <= h < k ==> values[h] <= m
    {
      if values[k] > m {
        m, at := values[k], k;
      }
    }
    GreatestIsLargest(values, at);
  }

  lemma GreatestIsLargest(values: seq<int>, i: nat)
    requires i < |values| && forall h :: 0 <= h < |values| ==> values[h] <= values[i]
    ensures values[i] == Largest(values)
  {
    hide Largest;
    var s := Largest(values);
    var j :| 0 <= j < |values| && values[j] == s;
  }

  function Cells(low: Point, ps: seq<Point>): (r: seq<Cell>)
    ensures |r| == |ps| && forall k :: 0 <= k < |ps| ==> r[k] == CellOf(low, ps[k])
  {
    seq(|ps|, k requires 0 <= k < |ps| => CellOf(low, ps[k]))
  }

  function Mids(edges: seq<Edge>): (r: seq<Point>)
    ensures |r| == |edges| && forall k :: 0 <= k < |edges| ==> r[k] == MidOf(edges[k])
  {
    seq(|edges|, k requires 0 <= k < |edges| => MidOf(edges[k]))
  }

  /** Gathered in whatever order, the near edges have one least distance. */
  lemma GatheredLeast(p: Point, edges: seq<Edge>, cells: seq<Cell>, chosen: seq<nat>, at: Cell, reach: nat, found: real)
    requires |cells| == |edges| && AllNear(chosen, cells, at, reach) && Indices(chosen, |edges|)
    requires IsNearest(p, edges, chosen, found)
    ensures var near := NearIndexes(cells, at, reach, |edges|); near != [] && found == Least2(p, edges, near)
  {
    hide EdgeDistance2, Within, NearIndexes, Least2;
    var near := NearIndexes(cells, at, reach, |edges|);
    var i :| 0 <= i < |chosen| && found == EdgeDistance2(p, edges[chosen[i]]);
    assert chosen[i] in near;
    LeastOnce(p, edges, chosen, near, found, Least2(p, edges, near));
  }

  /** The search for the points of one cell, ring by ring. */
  method SearchCell(points: seq<Point>, edges: seq<Edge>, low: Point, byCell: Index, at: Cell, members: seq<nat>,
                    extent: int)
    returns (found: seq<real>)
    requires edges != []
    requires Indexes(byCell, Cells(low, Mids(edges)), |edges|)
    requires Files(members, Cells(low, points), |points|, at)
    ensures |found| == |members|
    ensures forall i :: 0 <= i < |members| ==>
      found[i] == Least2(points[members[i]], edges, Looked(points, edges, low, at, extent, 1))
  {
    hide EdgeDistance2, CellOf, MidOf, IsNearest, Within, Sure2, Least2, NearIndexes;
    ghost var goal := Looked(points, edges, low, at, extent, 1);
    var cells := Cells(low, Mids(edges));
    var reach := 1;
    while true
      invariant reach >= 1 && goal == Looked(points, edges, low, at, extent, reach)
      decreases extent - reach
    {
      var chosen := Gather(byCell, cells, at, reach);
      ghost var near := NearIndexes(cells, at, reach, |edges|);
      if chosen != [] {
        found := PointSegmentDistance(points, edges, members, chosen);
        forall i | 0 <= i < |members|
          ensures near != [] && found[i] == Least2(points[members[i]], edges, near)
        {
          GatheredLeast(points[members[i]], edges, cells, chosen, at, reach, found[i]);
        }
        var bound := (reach - 1) as real * BUCKET;
        var enough := forall i :: 0 <= i < |found| ==> found[i] <= bound * bound;
        ChosenIsNear(cells, chosen, at, reach);
        SureIs(reach);
        MembersEnough(points, edges, low, at, members, near, reach, found);
        if enough {
          return;
        }
      } else {
        ChosenIsNear(cells, chosen, at, reach);
      }
      if reach > extent {
        found := PointSegmentDistance(points, edges, members, Everything(|edges|));
        forall i | 0 <= i < |members|
          ensures found[i] == Least2(points[members[i]], edges, Everything(|edges|))
        {
          var p, all := points[members[i]], Everything(|edges|);
          LeastOnce(p, edges, all, all, found[i], Least2(p, edges, all));
        }
        return;
      }
      reach := reach + 1;
    }
  }

  lemma SureIs(reach: nat)
    ensures Sure2(reach) == ((reach - 1) as real * BUCKET) * ((reach - 1) as real * BUCKET)
  {
  }

  lemma ChosenIsNear(cells: seq<Cell>, chosen: seq<nat>, at: Cell, reach: nat)
    requires AllNear(chosen, cells, at, reach)
    ensures chosen != [] <==> NearIndexes(cells, at, reach, |cells|) != []
  {
    hide NearIndexes, Within;
    var near := NearIndexes(cells, at, reach, |cells|);
    if chosen != [] {
      assert chosen[0] in near;
    }
    if near != [] {
      assert near[0] in near;
    }
  }

  /** The group's test is over just the cell's points. */
  lemma MembersEnough(points: seq<Point>, edges: seq<Edge>, low: Point, at: Cell, members: seq<nat>, near: seq<nat>,
                      reach: nat, found: seq<real>)
    requires Files(members, Cells(low, points), |points|, at) && near != [] && Indices(near, |edges|)
    requires |found| == |members|
    requires forall i :: 0 <= i < |members| ==> found[i] == Least2(points[members[i]], edges, near)
    ensures Enough(points, edges, low, at, near, reach) <==> forall i :: 0 <= i < |found| ==> found[i] <= Sure2(reach)
  {
    hide CellOf, Least2, Sure2;
    if forall i :: 0 <= i < |found| ==> found[i] <= Sure2(reach) {
      forall k | 0 <= k < |points| && CellOf(low, points[k]) == at
        ensures Least2(points[k], edges, near) <= Sure2(reach)
      {
        assert Cells(low, points)[k] == at;
        assert k in members;
      }
    }
    if Enough(points, edges, low, at, near, reach) {
      forall i | 0 <= i < |found|
        ensures found[i] <= Sure2(reach)
      {
        assert Cells(low, points)[members[i]] == at;
      }
    }
  }

  /** The bucketed search: its answer for every point, which is the exact minimum over
      all edges where all are short. */
  method NearestDistance(points: seq<Point>, edges: seq<Edge>) returns (distance2: array<real>)
    requires points != [] && edges != []
    ensures distance2.Length == |points|
    ensures forall k :: 0 <= k < |points| ==> distance2[k] == Answer(points, edges, k)
    ensures (forall h :: 0 <= h < |edges| ==> Short(edges[h])) ==>
      forall k :: 0 <= k < |points| ==> IsNearest(points[k], edges, Everything(|edges|), distance2[k])
  {
    hide EdgeDistance2, CellOf, MidOf, Short, IsNearest, Within, Looked, Least2, Smallest, Largest, Answer, Low, Extent;
    var mids := Mids(edges);
    var all := mids + points;
    var lowX := Least(Xs(all));
    var lowY := Least(Ys(all));
    var low := Point(lowX, lowY);
    var midCells, pointCells := Cells(low, mids), Cells(low, points);
    var byCell := GroupByCell(midCells);
    var greatest := Greatest(Coordinates(midCells + pointCells));
    var extent := greatest + 2;
    FrameIs(points, edges, low, extent);
    var groups := GroupByCell(pointCells);
    distance2 := new real[|points|](k => 0.0);
    var keys := groups.Keys;
    while keys != {}
      invariant keys <= groups.Keys
      invariant forall k :: 0 <= k < |points| && pointCells[k] !in keys ==> distance2[k] == Answer(points, edges, k)
      decreases keys
    {
      var at := Pick(keys);
      keys := keys - {at};
      assert Files(groups[at], pointCells, |points|, at);
      var found := SearchCell(points, edges, low, byCell, at, groups[at], extent);
      AnswersOf(points, edges, at, groups[at], found);
      Fill(distance2, groups[at], found);
    }
    if forall h :: 0 <= h < |edges| ==> Short(edges[h]) {
      forall k | 0 <= k < |points|
        ensures IsNearest(points[k], edges, Everything(|edges|), distance2[k])
      {
        ShortExact(points, edges, k);
      }
    }
  }

  lemma FrameIs(points: seq<Point>, edges: seq<Edge>, low: Point, extent: int)
    requires points != []
    requires low == Point(Smallest(Xs(Mids(edges) + points)), Smallest(Ys(Mids(edges) + points)))
    requires extent == Largest(Coordinates(Cells(low, Mids(edges)) + Cells(low, points))) + 2
    ensures low == Low(points, edges) && extent == Extent(points, edges)
  {
    hide Smallest, Largest;
  }

  lemma AnswersOf(points: seq<Point>, edges: seq<Edge>, at: Cell, members: seq<nat>, found: seq<real>)
    requires points != [] && edges != [] && |found| == |members|
    requires Files(members, Cells(Low(points, edges), points), |points|, at)
    requires forall i :: 0 <= i < |members| ==>
      found[i] == Least2(points[members[i]], edges,
                         Looked(points, edges, Low(points, edges), at, Extent(points, edges), 1))
    ensures forall i :: 0 <= i < |members| ==> found[i] == Answer(points, edges, members[i])
  {
    hide CellOf, Looked, Least2, Low, Extent;
    forall i | 0 <= i < |members|
      ensures found[i] == Answer(points, edges, members[i])
    {
      assert Cells(Low(points, edges), points)[members[i]] == at;
    }
  }

  /** With short edges the answer is the nearest of all. */
  lemma ShortExact(points: seq<Point>, edges: seq<Edge>, k: nat)
    requires edges != [] && k < |points| && forall h :: 0 <= h < |edges| ==> Short(edges[h])
    ensures IsNearest(points[k], edges, Everything(|edges|), Answer(points, edges, k))
  {
    hide IsNearest, Short, CellOf, Looked, Least2, Low, Extent;
    LookedExact(points, edges, Low(points, edges), Extent(points, edges), 1, k);
  }

  /** distance[member] = found. */
  method Fill(distance2: array<real>, members: seq<nat>, found: seq<real>)
    requires |found| == |members| && Indices(members, distance2.Length)
    modifies distance2
    ensures forall k: nat :: k < distance2.Length ==>
      if k in members then exists i :: 0 <= i < |members| && members[i] == k && distance2[k] == found[i]
      else distance2[k] == old(distance2[k])
  {
    for i := 0 to |members|
      invariant forall k: nat :: k < distance2.Length ==>
        if k in members[..i] then exists h :: 0 <= h < i && members[h] == k && distance2[k] == found[h]
        else distance2[k] == old(distance2[k])
    {
      distance2[members[i]] := found[i];
      assert members[..i + 1] == members[..i] + [members[i]];
    }
    assert members[..|members|] == members;
  }

  // --- the walls' own edges

  /** A map's cells by row and column, row 0 at the bottom; some are neither
      occupied nor free. */
  datatype Grid = Grid(occupied: seq<seq<bool>>, free: seq<seq<bool>>, rows: nat, cols: nat, origin: Point,
                       resolution: real)

  ghost predicate Shaped(g: Grid) {
    && |g.occupied| == g.rows && |g.free| == g.rows
    && forall i :: 0 <= i < g.rows ==> |g.occupied[i]| == g.cols && |g.free[i]| == g.cols
  }

  /** One of the two cells is occupied and the other free. */
  predicate Facing(g: Grid, i: nat, j: nat, i': nat, j': nat)
    requires Shaped(g) && i < g.rows && i' < g.rows && j < g.cols && j' < g.cols
  {
    (g.occupied[i][j] && g.free[i'][j']) || (g.free[i][j] && g.occupied[i'][j'])
  }

  /** The face between (i, j) and its right neighbour. */
  function VerticalFace(g: Grid, i: nat, j: nat): Edge {
    var x := g.origin.x + (j + 1) as real * g.resolution;
    Edge(Point(x, g.origin.y + i as real * g.resolution), Point(x, g.origin.y + (i + 1) as real * g.resolution))
  }

  /** The face between (i, j) and the cell above it. */
  function HorizontalFace(g: Grid, i: nat, j: nat): Edge {
    var y := g.origin.y + (i + 1) as real * g.resolution;
    Edge(Point(g.origin.x + j as real * g.resolution, y), Point(g.origin.x + (j + 1) as real * g.resolution, y))
  }

  predicate Earlier(a: int, b: int, i: int, j: int) {
    a < i || (a == i && b < j)
  }

  /** A face of a row-wise scan that has reached (row, col). */
  ghost predicate IsVertical(g: Grid, e: Edge, row: int, col: int)
    requires Shaped(g)
  {
    exists i: nat, j: nat :: (i < g.rows && j + 1 < g.cols && Earlier(i, j, row, col) &&
      Facing(g, i, j, i, j + 1) && e == VerticalFace(g, i, j))
  }

  ghost predicate IsHorizontal(g: Grid, e: Edge, row: int, col: int)
    requires Shaped(g)
  {
    exists i: nat, j: nat :: (i + 1 < g.rows && j < g.cols && Earlier(i, j, row, col) &&
      Facing(g, i, j, i + 1, j) && e == HorizontalFace(g, i, j))
  }

  /** The list holds the faces that part free cells from occupied ones, and no others. */
  ghost predicate WallFaces(g: Grid, segments: seq<Edge>)
    requires Shaped(g)
  {
    forall e :: e in segments <==> IsVertical(g, e, g.rows, 0) || IsHorizontal(g, e, g.rows, 0)
  }

  method WallEdges(g: Grid) returns (segments: seq<Edge>)
    requires Shaped(g)
    ensures WallFaces(g, segments)
  {
    hide VerticalFace, HorizontalFace, Facing;
    segments := [];
    var i := 0;
    while i < g.rows
      invariant 0 <= i <= g.rows
      invariant forall e :: e in segments <==> IsVertical(g, e, i, 0)
    {
      var j := 0;
      while j + 1 < g.cols
        invariant 0 <= j && (j == 0 || j < g.cols)
        invariant forall e :: e in segments <==> IsVertical(g, e, i, j)
      {
        if Facing(g, i, j, i, j + 1) {
          segments := segments + [VerticalFace(g, i, j)];
        }
        j := j + 1;
      }
      i := i + 1;
    }
    ghost var vertical := segments;
    i := 0;
    while i + 1 < g.rows
      invariant 0 <= i && (i == 0 || i < g.rows)
      invariant forall e :: e in segments <==> e in vertical || IsHorizontal(g, e, i, 0)
    {
      var j := 0;
      while j < g.cols
        invariant 0 <= j <= g.cols
        invariant forall e :: e in segments <==> e in vertical || IsHorizontal(g, e, i, j)
      {
        if Facing(g, i, j, i + 1, j) {
          segments := segments + [HorizontalFace(g, i, j)];
        }
        j := j + 1;
      }
      i := i + 1;
    }
  }

  /** A grid's faces are short enough for the search exactly when a cell is no
      longer than two buckets, one metre. */
  lemma FacesShortExact(g: Grid, i: nat, j: nat)
    requires g.resolution > 0.0
    ensures Short(VerticalFace(g, i, j)) <==> g.resolution <= 2.0 * BUCKET
    ensures Short(HorizontalFace(g, i, j)) <==> g.resolution <= 2.0 * BUCKET
  {
    Step(i, g.resolution);
    Step(j, g.resolution);
  }

  /** p lies in cell (i, j), its sides included. */
  predicate InCell(g: Grid, i: nat, j: nat, p: Point) {
    && g.origin.x + j as real * g.resolution <= p.x <= g.origin.x + (j + 1) as real * g.resolution
    && g.origin.y + i as real * g.resolution <= p.y <= g.origin.y + (i + 1) as real * g.resolution
  }

  ghost predicate OnEdge(e: Edge, p: Point) {
    exists t :: 0.0 <= t <= 1.0 && p == PointOn(e, t)
  }

  /** A face is what its two cells share, point by point. */
  lemma FaceShared(g: Grid, i: nat, j: nat, p: Point)
    requires g.resolution > 0.0
    ensures OnEdge(VerticalFace(g, i, j), p) <==> InCell(g, i, j, p) && InCell(g, i, j + 1, p)
    ensures OnEdge(HorizontalFace(g, i, j), p) <==> InCell(g, i, j, p) && InCell(g, i + 1, j, p)
  {
    hide Times;
    Step(i, g.resolution);
    Step(j, g.resolution);
    Step(i + 1, g.resolution);
    Step(j + 1, g.resolution);
    var x, y := g.origin.x + (j + 1) as real * g.resolution, g.origin.y + i as real * g.resolution;
    UprightShared(VerticalFace(g, i, j), x, y, g.resolution, p);
    var left, top := g.origin.x + j as real * g.resolution, g.origin.y + (i + 1) as real * g.resolution;
    LevelShared(HorizontalFace(g, i, j), left, top, g.resolution, p);
  }

  lemma UprightPoint(x: real, y: real, r: real, t: real)
    ensures PointOn(Edge(Point(x, y), Point(x, y + r)), t) == Point(x, y + Times(t, r))
    ensures PointOn(Edge(Point(y, x), Point(y + r, x)), t) == Point(y + Times(t, r), x)
  {
  }

  lemma UprightShared(e: Edge, x: real, y: real, r: real, p: Point)
    requires r > 0.0 && e == Edge(Point(x, y), Point(x, y + r))
    ensures OnEdge(e, p) <==> p.x == x && y <= p.y <= y + r
  {
    hide PointOn, Times;
    if OnEdge(e, p) {
      var t :| 0.0 <= t <= 1.0 && p == PointOn(e, t);
      UprightPoint(x, y, r, t);
      PartOf(t, r);
    }
    if p.x == x && y <= p.y <= y + r {
      ShareWithin(p.y - y, r);
      UprightPoint(x, y, r, (p.y - y) / r);
      assert p == PointOn(e, (p.y - y) / r);
    }
  }

  lemma LevelShared(e: Edge, x: real, y: real, r: real, p: Point)
    requires r > 0.0 && e == Edge(Point(x, y), Point(x + r, y))
    ensures OnEdge(e, p) <==> p.y == y && x <= p.x <= x + r
  {
    hide PointOn, Times;
    if OnEdge(e, p) {
      var t :| 0.0 <= t <= 1.0 && p == PointOn(e, t);
      UprightPoint(y, x, r, t);
      PartOf(t, r);
    }
    if p.y == y && x <= p.x <= x + r {
      ShareWithin(p.x - x, r);
      UprightPoint(y, x, r, (p.x - x) / r);
      assert p == PointOn(e, (p.x - x) / r);
    }
  }

  lemma PartOf(t: real, r: real)
    requires r > 0.0 && 0.0 <= t <= 1.0
    ensures 0.0 <= Times(t, r) <= r
  {
    ProductNonNegative(t, r);
    ProductNonNegative(1.0 - t, r);
  }

  lemma ShareWithin(a: real, r: real)
    requires r > 0.0 && 0.0 <= a <= r
    ensures 0.0 <= a / r <= 1.0 && Times(a / r, r) == a
  {
  }

  lemma Step(k: nat, r: real)
    ensures (k + 1) as real * r - k as real * r == r
  {
  }
}
