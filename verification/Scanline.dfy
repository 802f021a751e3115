/**
 Even-odd fill of a closed ring, one scanline a row, by a difference array and a
 running sum; and the point-in-ring test it computes.
 */
module Scanline {
  import opened Geometry

  /** Row 0 is the bottom row; cell (row, col) is centred half a cell in. */
  datatype Grid = Grid(originX: real, originY: real, resolution: real, width: nat, height: nat)

  function CentreY(g: Grid, row: int): real {
    g.originY + (row as real + 0.5) * g.resolution
  }

  function CentreX(g: Grid, col: int): real {
    g.originX + (col as real + 0.5) * g.resolution
  }

  function Edges(ring: Ring): (r: seq<Edge>)
    ensures |r| == |ring|
  {
    seq(|ring|, k requires 0 <= k < |ring| => Edge(ring[k], ring[After(|ring|, k)]))
  }

  /** One end is above the line and the other is not: an end on the line is not above. */
  predicate Straddles(e: Edge, y: real) {
    (e.start.y > y) != (e.end.y > y)
  }

  function XAt(e: Edge, y: real): real
    requires Straddles(e, y)
  {
    e.start.x + (y - e.start.y) * (e.end.x - e.start.x) / (e.end.y - e.start.y)
  }

  function Ceil(x: real): int {
    -(-x).Floor
  }

  function Clip(n: int, lo: int, hi: int): int {
    if n < lo then lo else if n > hi then hi else n
  }

  /** The first column whose centre the crossing does not lie right of. */
  function FirstBeyond(g: Grid, e: Edge, y: real): (first: nat)
    requires Straddles(e, y) && g.resolution > 0.0
    ensures first <= g.width
  {
    Clip(Ceil((XAt(e, y) - g.originX) / g.resolution - 0.5), 0, g.width)
  }

  // --- counts over edges

  function CountRow(es: seq<Edge>, y: real): nat {
    if es == [] then 0
    else CountRow(es[..|es| - 1], y) + if Straddles(es[|es| - 1], y) then 1 else 0
  }

  /** Edges that cross the row strictly right of x. */
  function CountRight(es: seq<Edge>, y: real, x: real): nat {
    if es == [] then 0
    else CountRight(es[..|es| - 1], y, x) + if RightOf(es[|es| - 1], y, x) then 1 else 0
  }

  predicate RightOf(e: Edge, y: real, x: real) {
    Straddles(e, y) && XAt(e, y) > x
  }

  /** Edges whose crossing is counted in one column of the difference array. */
  function CountAt(g: Grid, es: seq<Edge>, y: real, col: int): nat
    requires g.resolution > 0.0
  {
    if es == [] then 0
    else CountAt(g, es[..|es| - 1], y, col) + if AtColumn(g, es[|es| - 1], y, col) then 1 else 0
  }

  predicate AtColumn(g: Grid, e: Edge, y: real, col: int)
    requires g.resolution > 0.0
  {
    Straddles(e, y) && FirstBeyond(g, e, y) == col
  }

  /** The even-odd rule: an odd number of crossings lie strictly to the right. */
  predicate InRing(ring: Ring, p: Point) {
    CountRight(Edges(ring), p.y, p.x) % 2 == 1
  }

  // --- the difference array counts what lies to the right

  lemma QuotientBelow(a: real, res: real, b: real)
    requires res > 0.0
    ensures a / res > b <==> a > b * res
  {
    var q := a / res;
    assert q * res == a;
    if q > b {
      assert (q - b) * res > 0.0;
    } else {
      assert (b - q) * res >= 0.0;
    }
  }

  lemma CeilBelow(col: int, q: real)
    ensures col < Ceil(q) <==> col as real < q
  {
  }

  /** A crossing is beyond a column exactly when it is right of the cell's centre. */
  lemma BeyondIsRight(g: Grid, e: Edge, y: real, col: nat)
    requires Straddles(e, y) && g.resolution > 0.0 && col < g.width
    ensures FirstBeyond(g, e, y) > col <==> XAt(e, y) > CentreX(g, col)
  {
    var a := XAt(e, y) - g.originX;
    CeilBelow(col, a / g.resolution - 0.5);
    QuotientBelow(a, g.resolution, col as real + 0.5);
  }

  /** The counts of the columns up to col. */
  function CountUpTo(g: Grid, es: seq<Edge>, y: real, col: int): nat
    requires g.resolution > 0.0
    decreases col
  {
    if col < 0 then 0 else CountUpTo(g, es, y, col - 1) + CountAt(g, es, y, col)
  }

  lemma {:induction false} CountUpToNext(g: Grid, es: seq<Edge>, e: Edge, y: real, col: int)
    requires g.resolution > 0.0
    ensures CountUpTo(g, es + [e], y, col) ==
      CountUpTo(g, es, y, col) + if Straddles(e, y) && FirstBeyond(g, e, y) <= col then 1 else 0
    decreases col
  {
    if col >= 0 {
      CountUpToNext(g, es, e, y, col - 1);
      assert (es + [e])[..|es|] == es;
    }
  }

  lemma {:induction false} CountUpToNone(g: Grid, y: real, col: int)
    requires g.resolution > 0.0
    ensures CountUpTo(g, [], y, col) == 0
    decreases col
  {
    if col >= 0 {
      CountUpToNone(g, y, col - 1);
    }
  }

  /** All the row's crossings less those up to the column are those to its right. */
  lemma {:induction false} DifferenceIsRight(g: Grid, es: seq<Edge>, y: real, col: nat)
    requires g.resolution > 0.0 && col < g.width
    ensures CountRow(es, y) == CountUpTo(g, es, y, col) + CountRight(es, y, CentreX(g, col))
    decreases |es|
  {
    hide XAt, FirstBeyond;
    if es == [] {
      CountUpToNone(g, y, col);
    } else {
      var init, e := es[..|es| - 1], es[|es| - 1];
      assert es == init + [e];
      DifferenceIsRight(g, init, y, col);
      CountUpToNext(g, init, e, y, col);
      if Straddles(e, y) {
        BeyondIsRight(g, e, y, col);
      }
    }
  }

  /** The cells inside the ring, exactly. */
  method InsideRing(ring: Ring, g: Grid) returns (inside: array2<bool>)
    requires g.resolution > 0.0
    ensures inside.Length0 == g.height && inside.Length1 == g.width
    ensures forall row, col :: 0 <= row < g.height && 0 <= col < g.width ==>
      inside[row, col] == InRing(ring, Point(CentreX(g, col), CentreY(g, row)))
  {
    var es := Edges(ring);
    var crossings := new nat[g.height, g.width + 1]((row, col) => 0);
    var perRow := new nat[g.height](row => 0);
    CountCrossings(es, g, crossings, perRow);
    inside := new bool[g.height, g.width]((row, col) => false);
    var row := 0;
    while row < g.height
      invariant 0 <= row <= g.height
      invariant CountsRows(es, g, crossings, perRow)
      invariant forall r, c :: 0 <= r < row && 0 <= c < g.width ==>
        inside[r, c] == InRing(ring, Point(CentreX(g, c), CentreY(g, r)))
    {
      FillRow(es, g, crossings, perRow, inside, row);
      row := row + 1;
    }
  }

  ghost predicate CountsRow(es: seq<Edge>, g: Grid, crossings: array2<nat>, perRow: array<nat>, row: nat)
    requires g.resolution > 0.0 && crossings.Length0 == perRow.Length == g.height && crossings.Length1 == g.width + 1
    requires row < g.height
    reads crossings, perRow
  {
    && perRow[row] == CountRow(es, CentreY(g, row))
    && forall col :: 0 <= col <= g.width ==> crossings[row, col] == CountAt(g, es, CentreY(g, row), col)
  }

  ghost predicate CountsRows(es: seq<Edge>, g: Grid, crossings: array2<nat>, perRow: array<nat>)
    requires g.resolution > 0.0
    reads crossings, perRow
  {
    && crossings.Length0 == perRow.Length == g.height && crossings.Length1 == g.width + 1
    && forall row: nat :: row < g.height ==> CountsRow(es, g, crossings, perRow, row)
  }

  method CountCrossings(es: seq<Edge>, g: Grid, crossings: array2<nat>, perRow: array<nat>)
    requires g.resolution > 0.0
    requires crossings.Length0 == perRow.Length == g.height && crossings.Length1 == g.width + 1
    requires forall row, col :: 0 <= row < g.height && 0 <= col <= g.width ==> crossings[row, col] == 0
    requires forall row :: 0 <= row < g.height ==> perRow[row] == 0
    modifies crossings, perRow
    ensures CountsRows(es, g, crossings, perRow)
  {
    var k := 0;
    while k < |es|
      invariant 0 <= k <= |es|
      invariant CountsRows(es[..k], g, crossings, perRow)
    {
      AddEdge(es, k, g, crossings, perRow);
      k := k + 1;
    }
    assert es[..|es|] == es;
  }

  /** One more edge, on every row it straddles. */
  method AddEdge(es: seq<Edge>, k: nat, g: Grid, crossings: array2<nat>, perRow: array<nat>)
    requires g.resolution > 0.0 && k < |es| && CountsRows(es[..k], g, crossings, perRow)
    modifies crossings, perRow
    ensures CountsRows(es[..k + 1], g, crossings, perRow)
  {
    hide CountsRow;
    ghost var before, after := es[..k], es[..k + 1];
    assert after == before + [es[k]];
    var row := 0;
    while row < g.height
      invariant 0 <= row <= g.height
      invariant forall r: nat :: r < row ==> CountsRow(after, g, crossings, perRow, r)
      invariant forall r: nat :: row <= r < g.height ==> CountsRow(before, g, crossings, perRow, r)
    {
      AddToRow(before, es[k], row, g, crossings, perRow);
      row := row + 1;
    }
    assert forall r: nat :: r < g.height ==> CountsRow(after, g, crossings, perRow, r);
  }

  method AddToRow(ghost before: seq<Edge>, e: Edge, row: nat, g: Grid, crossings: array2<nat>, perRow: array<nat>)
    requires g.resolution > 0.0 && row < g.height
    requires crossings.Length0 == perRow.Length == g.height && crossings.Length1 == g.width + 1
    requires CountsRow(before, g, crossings, perRow, row)
    modifies crossings, perRow
    ensures CountsRow(before + [e], g, crossings, perRow, row)
    ensures forall es, r: nat {:trigger CountsRow(es, g, crossings, perRow, r)} ::
      r < g.height && r != row && old(CountsRow(es, g, crossings, perRow, r)) ==> CountsRow(es, g, crossings, perRow, r)
  {
    hide XAt, FirstBeyond;
    assert (before + [e])[..|before|] == before;
    var y := CentreY(g, row);
    if Straddles(e, y) {
      var first := FirstBeyond(g, e, y);
      crossings[row, first] := crossings[row, first] + 1;
      perRow[row] := perRow[row] + 1;
    }
  }

  method FillRow(es: seq<Edge>, g: Grid, crossings: array2<nat>, perRow: array<nat>, inside: array2<bool>, row: nat)
    requires g.resolution > 0.0 && row < g.height && CountsRows(es, g, crossings, perRow)
    requires inside.Length0 == g.height && inside.Length1 == g.width
    modifies inside
    ensures forall r, c :: 0 <= r < g.height && 0 <= c < g.width ==>
      inside[r, c] == if r == row then CountRight(es, CentreY(g, row), CentreX(g, c)) % 2 == 1 else old(inside[r, c])
  {
    var leftOrAt := 0;
    var col := 0;
    while col < g.width
      invariant 0 <= col <= g.width
      invariant CountsRow(es, g, crossings, perRow, row)
      invariant leftOrAt == CountUpTo(g, es, CentreY(g, row), col - 1)
      invariant forall r, c :: 0 <= r < g.height && 0 <= c < g.width ==>
        inside[r, c] == if r == row && c < col then CountRight(es, CentreY(g, row), CentreX(g, c)) % 2 == 1
                        else old(inside[r, c])
    {
      leftOrAt := leftOrAt + crossings[row, col];
      DifferenceIsRight(g, es, CentreY(g, row), col);
      inside[row, col] := (perRow[row] - leftOrAt) % 2 == 1;
      col := col + 1;
    }
  }

  /** Free iff the cell centre is inside the outer ring and outside the inner. */
  method RasteriseCorridor(outer: Ring, inner: Ring, g: Grid) returns (free: array2<bool>)
    requires g.resolution > 0.0
    ensures free.Length0 == g.height && free.Length1 == g.width
    ensures forall row, col :: 0 <= row < g.height && 0 <= col < g.width ==>
      var p := Point(CentreX(g, col), CentreY(g, row));
      free[row, col] == (InRing(outer, p) && !InRing(inner, p))
  {
    var a := InsideRing(outer, g);
    var b := InsideRing(inner, g);
    free := new bool[g.height, g.width]((row, col) reads a, b =>
      0 <= row < a.Length0 && 0 <= col < a.Length1 && a[row, col] &&
      !(0 <= row < b.Length0 && 0 <= col < b.Length1 && b[row, col]));
  }

  // --- what the rule does not depend on

  lemma {:induction false} CountRowJoin(a: seq<Edge>, b: seq<Edge>, y: real)
    ensures CountRow(a + b, y) == CountRow(a, y) + CountRow(b, y)
    decreases |b|
  {
    if b == [] {
      assert a + b == a;
    } else {
      assert (a + b)[..|a + b| - 1] == a + b[..|b| - 1];
      CountRowJoin(a, b[..|b| - 1], y);
    }
  }

  lemma {:induction false} CountRightJoin(a: seq<Edge>, b: seq<Edge>, y: real, x: real)
    ensures CountRight(a + b, y, x) == CountRight(a, y, x) + CountRight(b, y, x)
    decreases |b|
  {
    hide RightOf;
    if b == [] {
      assert a + b == a;
    } else {
      assert (a + b)[..|a + b| - 1] == a + b[..|b| - 1];
      CountRightJoin(a, b[..|b| - 1], y, x);
    }
  }

  predicate Above(p: Point, y: real) {
    p.y > y
  }

  /** Along a path, the side changes once a crossing. */
  lemma {:induction false} PathParity(ring: Ring, y: real, k: nat)
    requires k < |ring|
    ensures (CountRow(Edges(ring)[..k], y) % 2 == 1) == (Above(ring[0], y) != Above(ring[k], y))
  {
    if k > 0 {
      PathParity(ring, y, k - 1);
      assert Edges(ring)[..k][..k - 1] == Edges(ring)[..k - 1];
    }
  }

  /** A closed ring crosses every row an even number of times. */
  lemma RowParity(ring: Ring, y: real)
    ensures CountRow(Edges(ring), y) % 2 == 0
  {
    if ring != [] {
      var n := |ring|;
      PathParity(ring, y, n - 1);
      assert Edges(ring) == Edges(ring)[..n - 1] + [Edges(ring)[n - 1]];
    }
  }

  function CountLeftOrAt(es: seq<Edge>, y: real, x: real): nat {
    if es == [] then 0
    else CountLeftOrAt(es[..|es| - 1], y, x) +
         if Straddles(es[|es| - 1], y) && !RightOf(es[|es| - 1], y, x) then 1 else 0
  }

  lemma {:induction false} SidesSum(es: seq<Edge>, y: real, x: real)
    ensures CountRow(es, y) == CountRight(es, y, x) + CountLeftOrAt(es, y, x)
    decreases |es|
  {
    if es != [] {
      SidesSum(es[..|es| - 1], y, x);
    }
  }

  /** Counting the crossings on the other side gives the same answer. */
  lemma SidesAgree(ring: Ring, p: Point)
    ensures InRing(ring, p) <==> CountLeftOrAt(Edges(ring), p.y, p.x) % 2 == 1
  {
    RowParity(ring, p.y);
    SidesSum(Edges(ring), p.y, p.x);
  }

  /** The same ring, told from its s-th vertex. */
  function FromVertex(ring: Ring, s: nat): Ring
    requires s <= |ring|
  {
    ring[s..] + ring[..s]
  }

  lemma EdgesFromVertex(ring: Ring, s: nat)
    requires s <= |ring|
    ensures Edges(FromVertex(ring, s)) == Edges(ring)[s..] + Edges(ring)[..s]
  {
    var n := |ring|;
    forall k | 0 <= k < n
      ensures Edges(FromVertex(ring, s))[k] == (Edges(ring)[s..] + Edges(ring)[..s])[k]
    {
    }
  }

  /** The start vertex does not matter. */
  lemma AnyStart(ring: Ring, s: nat, p: Point)
    requires s <= |ring|
    ensures InRing(FromVertex(ring, s), p) == InRing(ring, p)
  {
    hide CountRight;
    var es := Edges(ring);
    EdgesFromVertex(ring, s);
    CountRightJoin(es[s..], es[..s], p.y, p.x);
    CountRightJoin(es[..s], es[s..], p.y, p.x);
    assert es == es[..s] + es[s..];
  }

  function Reversed<T>(s: seq<T>): (r: seq<T>)
    ensures |r| == |s|
  {
    seq(|s|, k requires 0 <= k < |s| => s[|s| - 1 - k])
  }

  function Flipped(e: Edge): Edge {
    Edge(e.end, e.start)
  }

  function FlippedBack(es: seq<Edge>): (r: seq<Edge>)
    ensures |r| == |es|
  {
    seq(|es|, k requires 0 <= k < |es| => Flipped(es[|es| - 1 - k]))
  }

  lemma FlipSame(e: Edge, y: real, x: real)
    ensures RightOf(Flipped(e), y, x) == RightOf(e, y, x)
  {
    hide XAt;
    if Straddles(e, y) {
      XAtFlipped(e, y);
    }
  }

  lemma XAtFlipped(e: Edge, y: real)
    requires Straddles(e, y)
    ensures Straddles(Flipped(e), y) && XAt(Flipped(e), y) == XAt(e, y)
  {
    XAtFlip(e.start.x, e.start.y, e.end.x, e.end.y, y);
  }

  lemma XAtFlip(x0: real, y0: real, x1: real, y1: real, y: real)
    requires y0 != y1
    ensures x0 + (y - y0) * (x1 - x0) / (y1 - y0) == x1 + (y - y1) * (x0 - x1) / (y0 - y1)
  {
    var d := y1 - y0;
    var p, q := (y - y0) * (x1 - x0) / d, (y - y1) * (x0 - x1) / -d;
    assert p * d == (y - y0) * (x1 - x0);
    assert q * -d == (y - y1) * (x0 - x1);
    assert (x0 + p - x1 - q) * d == (x0 - x1) * d + (y - y0) * (x1 - x0) + (y - y1) * (x0 - x1);
    assert (x0 + p - x1 - q) * d == 0.0;
  }

  lemma {:induction false} FlippedBackSame(es: seq<Edge>, y: real, x: real)
    ensures CountRight(FlippedBack(es), y, x) == CountRight(es, y, x)
    decreases |es|
  {
    hide RightOf;
    if es != [] {
      var init, e := es[..|es| - 1], es[|es| - 1];
      FlippedBackSame(init, y, x);
      FlipSame(e, y, x);
      assert FlippedBack(es) == [Flipped(e)] + FlippedBack(init);
      CountRightJoin([Flipped(e)], FlippedBack(init), y, x);
      assert [Flipped(e)][..0] == [];
    }
  }

  lemma EdgesReversed(ring: Ring)
    requires ring != []
    ensures var n := |ring|;
      Edges(Reversed(ring)) == FlippedBack(Edges(ring)[..n - 1]) + FlippedBack([Edges(ring)[n - 1]])
  {
    var n := |ring|;
    forall k | 0 <= k < n
      ensures Edges(Reversed(ring))[k] == (FlippedBack(Edges(ring)[..n - 1]) + FlippedBack([Edges(ring)[n - 1]]))[k]
    {
      if k < n - 1 {
        assert Edges(Reversed(ring))[k] == Edge(ring[n - 1 - k], ring[n - 2 - k]);
        assert FlippedBack(Edges(ring)[..n - 1])[k] == Flipped(Edges(ring)[n - 2 - k]);
      } else {
        assert Edges(Reversed(ring))[k] == Edge(ring[0], ring[n - 1]);
        assert FlippedBack([Edges(ring)[n - 1]])[0] == Flipped(Edges(ring)[n - 1]);
      }
    }
  }

  /** Nor does the direction the ring is walked in. */
  lemma AnyDirection(ring: Ring, p: Point)
    ensures InRing(Reversed(ring), p) == InRing(ring, p)
  {
    hide CountRight;
    if ring == [] {
      assert Reversed(ring) == ring;
    } else {
      var es, n := Edges(ring), |ring|;
      EdgesReversed(ring);
      CountRightJoin(FlippedBack(es[..n - 1]), FlippedBack([es[n - 1]]), p.y, p.x);
      CountRightJoin(es[..n - 1], [es[n - 1]], p.y, p.x);
      FlippedBackSame(es[..n - 1], p.y, p.x);
      FlippedBackSame([es[n - 1]], p.y, p.x);
      assert es == es[..n - 1] + [es[n - 1]];
    }
  }

  // --- the rule by the ring's points alone

  /** p lies on the edge. */
  ghost predicate LiesOn(e: Edge, p: Point) {
    exists t :: 0.0 <= t <= 1.0 && p == Along(e.start, Minus(e.end, e.start), t)
  }

  /** Where the edge stands at the height y, t of the way along it. */
  lemma HeightAt(y0: real, y1: real, y: real, t: real)
    requires y0 != y1 && t == (y - y0) / (y1 - y0)
    ensures y0 + t * (y1 - y0) == y
    ensures (y0 <= y <= y1 || y1 <= y <= y0) ==> 0.0 <= t <= 1.0
  {
    var d := y1 - y0;
    assert t * d == y - y0;
    if t < 0.0 || t > 1.0 {
      if d > 0.0 {
        Stretched(t, d);
      } else {
        Stretched(t, -d);
      }
    }
  }

  lemma Stretched(t: real, d: real)
    requires d > 0.0 && (t < 0.0 || t > 1.0)
    ensures t * d < 0.0 || t * d > d
  {
  }

  lemma Reordered(a: real, b: real, d: real)
    requires d != 0.0
    ensures a * b / d == a / d * b
  {
    assert a / d * b * d == a / d * d * b == a * b;
  }

  /** At one height a sloping line has one point. */
  lemma OneHeight(y0: real, d: real, s: real, t: real)
    requires d != 0.0 && y0 + s * d == y0 + t * d
    ensures s == t
  {
    assert (s - t) * d == 0.0;
  }

  lemma XAtAlong(e: Edge, y: real)
    requires Straddles(e, y)
    ensures exists t :: 0.0 <= t <= 1.0 && Point(XAt(e, y), y) == Along(e.start, Minus(e.end, e.start), t)
  {
    var d := Minus(e.end, e.start);
    var t := (y - e.start.y) / d.y;
    HeightAt(e.start.y, e.end.y, y, t);
    Reordered(y - e.start.y, d.x, d.y);
    assert Along(e.start, d, t) == Point(XAt(e, y), y);
  }

  lemma SameHeight(p: Point, d: Point, s: real, t: real)
    requires d.y != 0.0 && Along(p, d, s).y == Along(p, d, t).y
    ensures Along(p, d, s) == Along(p, d, t)
  {
    OneHeight(p.y, d.y, s, t);
  }

  /** The crossing lies on the edge, at the row's height, and nothing else of the
      edge does. */
  lemma XAtExact(e: Edge, y: real, p: Point)
    requires Straddles(e, y) && p.y == y
    ensures LiesOn(e, p) <==> p.x == XAt(e, y)
  {
    hide XAt, Along;
    XAtAlong(e, y);
    if LiesOn(e, p) {
      var s :| 0.0 <= s <= 1.0 && p == Along(e.start, Minus(e.end, e.start), s);
      var t :| 0.0 <= t <= 1.0 && Point(XAt(e, y), y) == Along(e.start, Minus(e.end, e.start), t);
      SameHeight(e.start, Minus(e.end, e.start), s, t);
    }
  }

  /** One end above the line and one not, and a point at p's height right of p. */
  ghost predicate CrossesRight(a: Point, b: Point, p: Point) {
    && (a.y > p.y) != (b.y > p.y)
    && exists q :: LiesOn(Edge(a, b), q) && q.y == p.y && q.x > p.x
  }

  lemma RightOfExact(a: Point, b: Point, p: Point)
    ensures RightOf(Edge(a, b), p.y, p.x) <==> CrossesRight(a, b, p)
  {
    hide XAt, LiesOn;
    if Straddles(Edge(a, b), p.y) {
      var x := XAt(Edge(a, b), p.y);
      XAtExact(Edge(a, b), p.y, Point(x, p.y));
      forall q | LiesOn(Edge(a, b), q) && q.y == p.y
        ensures q.x == x
      {
        XAtExact(Edge(a, b), p.y, q);
      }
    }
  }

  /** Side k runs to point k + 1, the last back onto point 0. */
  ghost predicate SideCrosses(ring: Ring, p: Point, k: nat)
    requires k < |ring|
  {
    CrossesRight(ring[k], if k + 1 < |ring| then ring[k + 1] else ring[0], p)
  }

  /** The sides that cross to the right of p, among the first n. */
  ghost function SidesRight(ring: Ring, p: Point, n: nat): set<nat>
    requires n <= |ring|
  {
    set k: nat | k < n && SideCrosses(ring, p, k)
  }

  lemma SideExact(ring: Ring, p: Point, k: nat)
    requires k < |ring|
    ensures RightOf(Edges(ring)[k], p.y, p.x) <==> SideCrosses(ring, p, k)
  {
    hide RightOf, CrossesRight;
    RightOfExact(ring[k], if k + 1 < |ring| then ring[k + 1] else ring[0], p);
  }

  lemma {:induction false} CountIsSize(ring: Ring, p: Point, n: nat)
    requires n <= |ring|
    ensures CountRight(Edges(ring)[..n], p.y, p.x) == |SidesRight(ring, p, n)|
  {
    hide SideCrosses, RightOf;
    if n > 0 {
      CountIsSize(ring, p, n - 1);
      assert Edges(ring)[..n][..n - 1] == Edges(ring)[..n - 1];
      SideExact(ring, p, n - 1);
      var before := SidesRight(ring, p, n - 1);
      assert SidesRight(ring, p, n) == if SideCrosses(ring, p, n - 1) then before + {n - 1} else before;
    }
  }

  /** A point is inside just when an odd number of the ring's sides cross its row
      to the right of it. */
  lemma InRingExact(ring: Ring, p: Point)
    ensures InRing(ring, p) <==> |SidesRight(ring, p, |ring|)| % 2 == 1
  {
    CountIsSize(ring, p, |ring|);
    assert Edges(ring)[..|ring|] == Edges(ring);
  }

  /** A cell's centre is the middle of its corners. */
  lemma CentreMidway(g: Grid, row: nat, col: nat)
    ensures var r := g.resolution;
      && CentreX(g, col) - (g.originX + col as real * r) == (g.originX + (col + 1) as real * r) - CentreX(g, col)
      && CentreY(g, row) - (g.originY + row as real * r) == (g.originY + (row + 1) as real * r) - CentreY(g, row)
  {
  }
}
