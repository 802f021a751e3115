/**
 How long an edge the bucketed search bears: it answers as trying every edge would,
 whatever the points, exactly up to edges of two buckets; and a map's own faces are
 answered so, on every map, exactly when its cells are no longer than that.
 */
module NearestLimits {
  import opened Geometry
  import opened NearestEdges
  import opened Products

  /** No edge goes further than `limit` along either axis. */
  predicate WithinLimit(e: Edge, limit: real) {
    -limit <= e.end.x - e.start.x <= limit && -limit <= e.end.y - e.start.y <= limit
  }

  ghost predicate AllWithin(edges: seq<Edge>, limit: real) {
    forall h :: 0 <= h < |edges| ==> WithinLimit(edges[h], limit)
  }

  /** The search gives every point the minimum over all the edges. */
  ghost predicate AnsweredExactly(points: seq<Point>, edges: seq<Edge>)
    requires edges != []
  {
    forall k :: 0 <= k < |points| ==> IsNearest(points[k], edges, Everything(|edges|), Answer(points, edges, k))
  }

  lemma ShortAnswered(points: seq<Point>, edges: seq<Edge>)
    requires edges != [] && AllWithin(edges, 2.0 * BUCKET)
    ensures AnsweredExactly(points, edges)
  {
    hide IsNearest, Answer;
    assert forall h :: 0 <= h < |edges| ==> WithinLimit(edges[h], 2.0 * BUCKET) && Short(edges[h]);
    forall k | 0 <= k < |points|
      ensures IsNearest(points[k], edges, Everything(|edges|), Answer(points, edges, k))
    {
      ShortExact(points, edges, k);
    }
  }

  // --- an edge whose midpoint lies out of reach

  /** An edge out of reach of a find the search stops on is never looked at. */
  lemma {:induction false} NeverLooked(points: seq<Point>, edges: seq<Edge>, low: Point, at: Cell, extent: int,
                                       reach: nat, last: nat, missed: nat)
    requires edges != [] && reach <= last <= extent && missed < |edges|
    requires !Within(at, Cells(low, Mids(edges))[missed], last)
    requires Enough(points, edges, low, at, NearIndexes(Cells(low, Mids(edges)), at, last, |edges|), last)
    ensures missed !in Looked(points, edges, low, at, extent, reach)
    decreases last - reach
  {
    hide CellOf, MidOf, NearIndexes, Least2, Sure2, Enough;
    var cells := Cells(low, Mids(edges));
    var chosen := NearIndexes(cells, at, reach, |edges|);
    assert missed !in chosen;
    if !Enough(points, edges, low, at, chosen, reach) {
      NeverLooked(points, edges, low, at, extent, reach + 1, last, missed);
    }
  }

  // --- two faces of one map, and a car between them

  /** Cells of r metres, a face `far` above the car's corner of the map and one
      beginning `far` to the right; n half metres fit into `far`. */
  datatype View = View(r: real, far: real, n: nat)

  function Off(w: View): real {
    (w.r - 1.0) / 4.0
  }

  function Up(w: View): real {
    w.far - w.n as real / 2.0
  }

  predicate Sound(w: View) {
    w.r > 1.0 && w.n as real >= w.r && 0.0 <= Up(w) < 0.5 && Times(Off(w), w.n as real - Off(w)) >= 0.25
  }

  /** n half metres below the one face, and a little less from the other's end. */
  function Car(w: View): Point {
    Point(Up(w) + Off(w), Up(w))
  }

  function Overhead(w: View): Edge {
    Edge(Point(0.0, w.far), Point(w.r, w.far))
  }

  function Ahead(w: View): Edge {
    Edge(Point(w.far, 0.0), Point(w.far + w.r, 0.0))
  }

  function Faces(w: View): seq<Edge> {
    [Ahead(w), Overhead(w)]
  }

  function Phase(w: View): real {
    if w.r < 3.0 then (w.r - 1.0) / 2.0 else 1.0
  }

  /** A second point, placed so that the car is near the right end of its cell. */
  function Corner(w: View): Point {
    Point(Car(w).x - (w.n as real + 1.0 - Phase(w)) / 2.0, Up(w) - 0.5)
  }

  function Spots(w: View): seq<Point> {
    [Car(w), Corner(w)]
  }

  lemma MidIs(e: Edge)
    ensures MidOf(e) == Point((e.start.x + e.end.x) / 2.0, (e.start.y + e.end.y) / 2.0)
  {
  }

  /** The cells are counted from the second point. */
  lemma LowIsCorner(w: View)
    requires Sound(w)
    ensures Low(Spots(w), Faces(w)) == Corner(w)
  {
    hide MidOf, Smallest, Times;
    MidIs(Ahead(w));
    MidIs(Overhead(w));
    var all := Mids(Faces(w)) + Spots(w);
    assert all == [MidOf(Ahead(w)), MidOf(Overhead(w)), Car(w), Corner(w)];
    assert Xs(all)[3] == Corner(w).x && Ys(all)[3] == Corner(w).y;
    LeastIsSmallest(Xs(all), Corner(w).x);
    LeastIsSmallest(Ys(all), Corner(w).y);
  }

  lemma Halves(low: Point, p: Point)
    ensures CellOf(low, p) == ((2.0 * (p.x - low.x)).Floor, (2.0 * (p.y - low.y)).Floor)
  {
    assert (p.x - low.x) / BUCKET == 2.0 * (p.x - low.x) && (p.y - low.y) / BUCKET == 2.0 * (p.y - low.y);
  }

  /** Where the two midpoints lie from the corner, in half metres. */
  lemma Offsets(w: View)
    requires Sound(w)
    ensures var low, n := Corner(w), w.n as real;
      && n <= 2.0 * (Car(w).x - low.x) < n + 1.0 && 2.0 * (Car(w).y - low.y) == 1.0
      && 2.0 * (w.far - low.y) == n + 1.0 && -n / 2.0 <= w.r / 2.0 - Car(w).x <= n / 2.0
      && 2.0 * (w.far + w.r / 2.0 - low.x) >= 2.0 * n + 2.0
  {
    hide Times;
  }

  lemma FloorIs(x: real, k: int)
    requires k as real <= x < k as real + 1.0
    ensures x.Floor == k
  {
  }

  lemma FloorAtLeast(x: real, k: int)
    requires x >= k as real
    ensures x.Floor >= k
  {
  }

  /** The face overhead is within n + 1 cells of the car's, the one ahead is not. */
  lemma CellsThere(w: View)
    requires Sound(w)
    ensures CellOf(Corner(w), Car(w)) == (w.n, 1) && CellOf(Corner(w), Corner(w)) == (0, 0)
    ensures Within((w.n, 1), CellOf(Corner(w), MidOf(Overhead(w))), w.n + 1)
    ensures CellOf(Corner(w), MidOf(Ahead(w))).0 >= 2 * w.n + 2
  {
    hide CellOf, MidOf, Sound, Car, Corner;
    var low, car, over, ahead := Corner(w), Car(w), MidOf(Overhead(w)), MidOf(Ahead(w));
    Offsets(w);
    MidIs(Ahead(w));
    MidIs(Overhead(w));
    Halves(low, car);
    Halves(low, low);
    Halves(low, over);
    Halves(low, ahead);
    FloorIs(2.0 * (car.x - low.x), w.n);
    FloorIs(2.0 * (car.y - low.y), 1);
    FloorIs(2.0 * (over.y - low.y), w.n + 1);
    FloorAtLeast(2.0 * (ahead.x - low.x), 2 * w.n + 2);
    FloorsNear(over.x, car.x, low.x, w.n);
    CellIs(low, car);
    CellIs(low, over);
  }

  lemma ExtentThere(w: View)
    requires Sound(w)
    ensures Extent(Spots(w), Faces(w)) >= w.n + 1
  {
    hide CellOf, MidOf, Low, Largest, Times, Sound, Car, Corner;
    LowIsCorner(w);
    CellsThere(w);
    var cells := Cells(Corner(w), Mids(Faces(w))) + Cells(Corner(w), Spots(w));
    assert Coordinates(cells)[0] == Greater(CellOf(Corner(w), MidOf(Ahead(w))));
  }

  // --- how far the two are

  lemma StartOn(e: Edge)
    ensures PointOn(e, 0.0) == e.start
  {
  }

  lemma LevelOn(y: real, r: real, t: real)
    ensures PointOn(Edge(Point(0.0, y), Point(r, y)), t) == Point(Times(t, r), y)
  {
  }

  lemma DistanceIs(p: Point, q: Point)
    ensures Distance2(p, q) == Times(p.x - q.x, p.x - q.x) + Times(p.y - q.y, p.y - q.y)
  {
  }

  /** A level edge straight above the point is as far as it is high. */
  lemma BelowLevel(p: Point, y: real, r: real)
    requires r > 0.0 && 0.0 <= p.x <= r
    ensures EdgeDistance2(p, Edge(Point(0.0, y), Point(r, y))) == Times(p.y - y, p.y - y)
  {
    hide Distance2, PointOn, Times, Closest;
    var e := Edge(Point(0.0, y), Point(r, y));
    var t := Closest(p, e);
    LevelOn(y, r, t);
    DistanceIs(p, PointOn(e, t));
    SquareSigns(p.x - Times(t, r));
    var s := p.x / r;
    Fraction(p.x, r);
    LevelOn(y, r, s);
    DistanceIs(p, PointOn(e, s));
    EdgeDistanceLeast(p, e, s);
    NoSquare();
  }

  lemma Fraction(a: real, b: real)
    requires b > 0.0 && 0.0 <= a <= b
    ensures 0.0 <= a / b <= 1.0 && Times(a / b, b) == a
  {
  }

  lemma NoSquare()
    ensures Times(0.0, 0.0) == 0.0
  {
  }

  lemma HalfSquare(v: real)
    requires 0.0 <= v < 0.5
    ensures Times(v, v) < 0.25
  {
    SquareLess(v, 0.5);
    TimesIs(0.5, 0.5);
  }

  lemma ShorterSquare(f: real, s: real)
    ensures Times(f, f) - Times(f - s, f - s) == Times(s, 2.0 * f - s)
  {
  }

  lemma DistancesThere(w: View)
    requires Sound(w)
    ensures var f := w.n as real / 2.0;
      EdgeDistance2(Car(w), Overhead(w)) == Times(f, f) && EdgeDistance2(Car(w), Ahead(w)) < Times(f, f)
  {
    hide EdgeDistance2, Distance2, PointOn, Times;
    var f := w.n as real / 2.0;
    BelowLevel(Car(w), w.far, w.r);
    Opposite(f);
    assert Car(w).y - w.far == -f;
    EdgeDistanceLeast(Car(w), Ahead(w), 0.0);
    StartOn(Ahead(w));
    DistanceIs(Car(w), Ahead(w).start);
    Opposite(f - Off(w));
    assert Car(w).x - w.far == -(f - Off(w));
    HalfSquare(Up(w));
    ShorterSquare(f, Off(w));
  }

  // --- what the search answers

  lemma SureAfter(n: nat)
    ensures Sure2(n + 1) == Times(n as real / 2.0, n as real / 2.0)
  {
    assert (n + 1 - 1) as real * BUCKET == n as real / 2.0;
  }

  /** The least over a list of one edge's indexes is that edge's distance. */
  lemma LeastOfOne(p: Point, edges: seq<Edge>, chosen: seq<nat>, only: nat)
    requires chosen != [] && Indices(chosen, |edges|) && forall i :: 0 <= i < |chosen| ==> chosen[i] == only
    ensures only < |edges| && Least2(p, edges, chosen) == EdgeDistance2(p, edges[only])
  {
    hide EdgeDistance2, Least2;
    assert chosen[0] == only;
    assert IsNearest(p, edges, chosen, Least2(p, edges, chosen));
  }

  /** At n + 1 cells the search knows the face overhead alone, and is sure of it. */
  lemma StopsThere(w: View)
    requires Sound(w)
    ensures var near := NearIndexes(Cells(Corner(w), Mids(Faces(w))), (w.n, 1), w.n + 1, 2);
      Enough(Spots(w), Faces(w), Corner(w), (w.n, 1), near, w.n + 1)
  {
    hide EdgeDistance2, CellOf, MidOf, NearIndexes, Sure2, Times, Least2, Car, Corner, Sound, Ahead, Overhead;
    CellsThere(w);
    var at, cells := (w.n, 1), Cells(Corner(w), Mids(Faces(w)));
    var near := NearIndexes(cells, at, w.n + 1, 2);
    assert 1 in near && 0 !in near;
    LeastOfOne(Car(w), Faces(w), near, 1);
    DistancesThere(w);
    SureAfter(w.n);
  }

  /** The search answers with the face overhead, though the one ahead is nearer. */
  lemma FaceMissed(w: View)
    requires Sound(w)
    ensures Answer(Spots(w), Faces(w), 0) == EdgeDistance2(Car(w), Overhead(w)) > EdgeDistance2(Car(w), Ahead(w))
    ensures !AnsweredExactly(Spots(w), Faces(w))
  {
    hide EdgeDistance2, CellOf, MidOf, NearIndexes, Times, Least2, Low, Extent, Looked, Enough, Sound, Car, Corner,
         Ahead, Overhead;
    var points, edges := Spots(w), Faces(w);
    LowIsCorner(w);
    CellsThere(w);
    ExtentThere(w);
    StopsThere(w);
    NeverLooked(points, edges, Corner(w), (w.n, 1), Extent(points, edges), 1, w.n + 1, 0);
    var looked := Looked(points, edges, Corner(w), (w.n, 1), Extent(points, edges), 1);
    LeastOfOne(Car(w), edges, looked, 1);
    DistancesThere(w);
    assert edges[Everything(2)[0]] == Ahead(w);
  }

  // --- on every map

  /** On every map with cells of r metres all points are answered exactly. */
  ghost predicate MapsBorne(r: real) {
    forall g: Grid, points, edges :: Shaped(g) && g.resolution == r && WallFaces(g, edges) && edges != [] ==>
      AnsweredExactly(points, edges)
  }

  lemma FacesWithin(g: Grid, edges: seq<Edge>)
    requires Shaped(g) && g.resolution > 0.0 && WallFaces(g, edges)
    ensures AllWithin(edges, g.resolution)
  {
    hide Facing, VerticalFace, HorizontalFace;
    forall h | 0 <= h < |edges|
      ensures WithinLimit(edges[h], g.resolution)
    {
      var e := edges[h];
      assert e in edges;
      if IsVertical(g, e, g.rows, 0) {
        var i: nat, j: nat :| i < g.rows && j + 1 < g.cols && e == VerticalFace(g, i, j);
        FaceWithin(g, i, j);
      } else {
        var i: nat, j: nat :| i + 1 < g.rows && j < g.cols && e == HorizontalFace(g, i, j);
        FaceWithin(g, i, j);
      }
    }
  }

  lemma FaceWithin(g: Grid, i: nat, j: nat)
    requires g.resolution > 0.0
    ensures WithinLimit(VerticalFace(g, i, j), g.resolution) && WithinLimit(HorizontalFace(g, i, j), g.resolution)
  {
    Step(i, g.resolution);
    Step(j, g.resolution);
  }

  function Floored(x: real): nat
    requires x >= 0.0
  {
    x.Floor
  }

  /** How many cells of r metres make the faces far enough apart. */
  function Far(r: real): (m: nat)
    requires r > 1.0
    ensures m >= 3 && m as real > 2.0 + 1.0 / (r - 1.0)
  {
    assert 1.0 / (r - 1.0) > 0.0;
    3 + Floored(1.0 / (r - 1.0))
  }

  function ViewAt(r: real): View
    requires r > 1.0
  {
    var far := Times(Far(r) as real, r);
    TimesPositive(Far(r) as real, r);
    View(r, far, Floored(2.0 * far))
  }

  lemma FarEnough(r: real, m: real, n: real)
    requires r > 1.0 && m >= 3.0 && m > 2.0 + 1.0 / (r - 1.0) && 2.0 * Times(m, r) - 1.0 < n
    ensures n >= r && Times((r - 1.0) / 4.0, n - (r - 1.0) / 4.0) >= 0.25
  {
    var e := r - 1.0;
    assert n >= m + r by {
      ProductNonNegative(m - 3.0, e);
      assert Times(m, r) == m + m * e && (m - 3.0) * e == m * e - 3.0 * e;
    }
    OverOne(m, e);
    ProductNonNegative(e, n - e / 4.0 - m);
    assert e * (n - e / 4.0) == e * (n - e / 4.0 - m) + e * m;
    Quarter(e, n - e / 4.0);
  }

  lemma OverOne(m: real, e: real)
    requires e > 0.0 && m > 2.0 + 1.0 / e
    ensures e * m >= 1.0
  {
    assert e * (1.0 / e) == 1.0;
    ProductPositive(e, m - 1.0 / e);
    assert e * (m - 1.0 / e) == e * m - e * (1.0 / e);
  }

  lemma Quarter(e: real, x: real)
    ensures Times(e / 4.0, x) == (e * x) / 4.0
  {
  }

  lemma ViewSound(r: real)
    requires r > 1.0
    ensures Sound(ViewAt(r))
  {
    hide Times, Far;
    var w := ViewAt(r);
    FarEnough(r, Far(r) as real, w.n as real);
  }

  /** A map with the two faces and no others: everything else is unknown. */
  function MapAt(r: real, m: nat): Grid {
    var occupied := seq(m + 2, i => seq(m + 1, j => (i == 1 && j == m) || (i == m + 1 && j == 0)));
    var free := seq(m + 2, i => seq(m + 1, j => (i == 0 && j == m) || (i == m && j == 0)));
    Grid(occupied, free, m + 2, m + 1, Point(0.0, -r), r)
  }

  lemma FacesAt(r: real, m: nat)
    ensures var g, far := MapAt(r, m), Times(m as real, r);
      && HorizontalFace(g, 0, m) == Edge(Point(far, 0.0), Point(far + r, 0.0))
      && HorizontalFace(g, m, 0) == Edge(Point(0.0, far), Point(r, far))
  {
  }

  lemma FacingAt(r: real, m: nat, i: nat, j: nat)
    requires m >= 3
    ensures Shaped(MapAt(r, m))
    ensures i < m + 2 && j + 1 < m + 1 ==> !Facing(MapAt(r, m), i, j, i, j + 1)
    ensures i + 1 < m + 2 && j < m + 1 ==> (
      Facing(MapAt(r, m), i, j, i + 1, j) <==> (i == 0 && j == m) || (i == m && j == 0))
  {
  }

  lemma MapHasFaces(r: real)
    requires r > 1.0
    ensures Shaped(MapAt(r, Far(r))) && WallFaces(MapAt(r, Far(r)), Faces(ViewAt(r)))
  {
    hide HorizontalFace, VerticalFace, Facing, Times, MapAt, Far;
    var m, edges := Far(r), Faces(ViewAt(r));
    var g := MapAt(r, m);
    MapShape(r, m);
    FacesAt(r, m);
    assert edges == [HorizontalFace(g, 0, m), HorizontalFace(g, m, 0)];
    FacingAt(r, m, 0, m);
    FacingAt(r, m, m, 0);
    forall e
      ensures e in edges <==> IsVertical(g, e, g.rows, 0) || IsHorizontal(g, e, g.rows, 0)
    {
      if IsVertical(g, e, g.rows, 0) {
        var i: nat, j: nat :| i < g.rows && j + 1 < g.cols && Facing(g, i, j, i, j + 1);
        FacingAt(r, m, i, j);
        assert false;
      }
      if IsHorizontal(g, e, g.rows, 0) {
        var i: nat, j: nat :| i + 1 < g.rows && j < g.cols && Facing(g, i, j, i + 1, j) && e == HorizontalFace(g, i, j);
        FacingAt(r, m, i, j);
      }
    }
  }

  lemma MapShape(r: real, m: nat)
    ensures var g := MapAt(r, m); Shaped(g) && g.rows == m + 2 && g.cols == m + 1 && g.resolution == r
  {
  }

  /** For every length of a cell: the search answers all points of all maps exactly
      if and only if it is at most two buckets, one metre. */
  lemma FacesExactIff(r: real)
    requires r > 0.0
    ensures MapsBorne(r) <==> r <= 2.0 * BUCKET
  {
    hide AnsweredExactly, AllWithin, WallFaces, Shaped, Answer, EdgeDistance2, MapAt, ViewAt, Sound;
    if r <= 2.0 * BUCKET {
      forall g: Grid, points, edges | Shaped(g) && g.resolution == r && WallFaces(g, edges) && edges != []
        ensures AnsweredExactly(points, edges)
      {
        FacesWithin(g, edges);
        WiderLimit(edges, r, 2.0 * BUCKET);
        ShortAnswered(points, edges);
      }
    } else {
      var w := ViewAt(r);
      ViewSound(r);
      FaceMissed(w);
      MapHasFaces(r);
      MapShape(r, Far(r));
      assert Faces(w) != [];
    }
  }

  // --- on every list of edges

  /** All points are answered exactly, among all edges within the limit. */
  ghost predicate Bears(limit: real) {
    forall points, edges :: points != [] && edges != [] && AllWithin(edges, limit) ==> AnsweredExactly(points, edges)
  }

  /** For every bound on the edges' lengths: all points are answered exactly, among
      all edges within it, if and only if it is at most two buckets. */
  lemma SearchExactIff(limit: real)
    ensures Bears(limit) <==> limit <= 2.0 * BUCKET
  {
    hide AnsweredExactly, AllWithin, Answer, EdgeDistance2, ViewAt, Sound;
    if limit <= 2.0 * BUCKET {
      forall points, edges | points != [] && edges != [] && AllWithin(edges, limit)
        ensures AnsweredExactly(points, edges)
      {
        WiderLimit(edges, limit, 2.0 * BUCKET);
        ShortAnswered(points, edges);
      }
    } else {
      var w := ViewAt(limit);
      ViewSound(limit);
      FaceMissed(w);
      ViewWithin(limit);
      assert Spots(w) != [] && Faces(w) != [];
    }
  }

  lemma ViewWithin(r: real)
    requires r > 1.0
    ensures AllWithin(Faces(ViewAt(r)), r)
  {
    hide Far, Times;
  }

  lemma WiderLimit(edges: seq<Edge>, limit: real, wider: real)
    requires AllWithin(edges, limit) && limit <= wider
    ensures AllWithin(edges, wider)
  {
  }
}
