/**
 Where the walls are, told from the stations' own widths, and which side is left:
 what being inside the track comes to.
 */
module TrackWalls {
  import opened Geometry
  import opened NearestEdges
  import opened Products
  import opened Reals
  import opened Tracks
  import Laps

  // --- the walls from the stations

  /** The station after station k, round the closed track. */
  function NextStation(t: Track, k: nat): Station
    requires k < |t.points|
  {
    if k + 1 < |t.points| then t.points[k + 1] else t.points[0]
  }

  /** On segment k the widths move from its station's to the next one's as s does. */
  ghost predicate WallsOn(t: Track, k: nat, s: real, left: real, right: real)
    requires k < |t.segments| && k < |t.points|
  {
    var g, a, b := t.segments[k], t.points[k], NextStation(t, k);
    && g.startS <= s <= EndS(g)
    && (left - a.left) * g.length == (s - g.startS) * (b.left - a.left)
    && (right - a.right) * g.length == (s - g.startS) * (b.right - a.right)
  }

  ghost predicate WallsAt(t: Track, s: real, left: real, right: real)
    requires |t.segments| <= |t.points|
  {
    exists k: nat :: k < |t.segments| && WallsOn(t, k, s, left, right)
  }

  lemma Proportion(a: real, b: real, w: real, passed: real, length: real)
    requires length > 0.0
    ensures (w - a) * length == passed * (b - a) <==> w == Between(a, b, passed / length)
  {
    var ratio := passed / length;
    assert ratio * length == passed;
    assert (Between(a, b, ratio) - a) * length == passed * (b - a) by {
      Reordered(b - a, ratio, length);
    }
    if (w - a) * length == passed * (b - a) {
      Cancelled(w - a, Between(a, b, ratio) - a, length);
    }
  }

  lemma Reordered(d: real, ratio: real, length: real)
    ensures d * ratio * length == ratio * length * d
  {
  }

  lemma Cancelled(x: real, y: real, length: real)
    requires length > 0.0 && x * length == y * length
    ensures x == y
  {
    assert (x - y) * length == 0.0;
  }

  lemma RatioRange(passed: real, length: real)
    requires length > 0.0 && 0.0 <= passed <= length
    ensures Unit(passed / length) == passed / length
  {
    var ratio := passed / length;
    assert ratio * length == passed;
    if ratio < 0.0 {
      ProductPositive(-ratio, length);
    } else if ratio > 1.0 {
      ProductPositive(ratio - 1.0, length);
    }
  }

  /** Between the ends of the segment looked up, the widths are those of its walls. */
  lemma WallsOnLookedUp(t: Track, k: nat, s: real, left: real, right: real)
    requires Valid(t) && k < |t.segments| && SegmentAt(t, s) == k && t.segments[k].startS <= s <= EndS(t.segments[k])
    ensures WallsOn(t, k, s, left, right) <==> WidthsAt(t, s) == Widths(left, right)
  {
    hide Norm2, Along, Unit, Between, SegmentAt;
    var g := t.segments[k];
    assert Joins(t.points, g, k);
    RatioRange(s - g.startS, g.length);
    Proportion(t.points[k].left, NextStation(t, k).left, left, s - g.startS, g.length);
    Proportion(t.points[k].right, NextStation(t, k).right, right, s - g.startS, g.length);
  }

  /** At a segment's end its walls are those the next segment begins with. */
  lemma WallsJoin(t: Track, k: nat, left: real, right: real)
    requires Valid(t) && k + 1 < |t.segments|
    ensures var s := EndS(t.segments[k]); WallsOn(t, k, s, left, right) <==> WallsOn(t, k + 1, s, left, right)
  {
    hide Norm2, Along;
    var g, h := t.segments[k], t.segments[k + 1];
    assert Joins(t.points, g, k) && Joins(t.points, h, k + 1) && h.startS == EndS(g);
    AtEnd(t.points[k].left, t.points[k + 1].left, left, g.length);
    AtEnd(t.points[k].right, t.points[k + 1].right, right, g.length);
    AtStart(t.points[k + 1].left, left, h.length);
    AtStart(t.points[k + 1].right, right, h.length);
  }

  lemma AtEnd(a: real, b: real, w: real, length: real)
    requires length > 0.0
    ensures (w - a) * length == length * (b - a) <==> w == b
  {
    if (w - a) * length == length * (b - a) {
      Cancelled(w - a, b - a, length);
    }
  }

  lemma AtStart(a: real, w: real, length: real)
    requires length > 0.0
    ensures (w - a) * length == 0.0 <==> w == a
  {
    if (w - a) * length == 0.0 {
      Cancelled(w - a, 0.0, length);
    }
  }

  lemma StretchEnds(t: Track, s: real)
    requires Valid(t) && 0.0 <= s <= t.length
    ensures var g := t.segments[SegmentAt(t, s)]; g.startS <= s <= EndS(g)
  {
    hide Norm2, Along, SegmentAt;
    var k := SegmentAt(t, s);
    SegmentAtHolds(t, s);
    if k + 1 < |t.segments| {
      assert t.segments[k + 1].startS == EndS(t.segments[k]);
    }
  }

  lemma WallsOnOther(t: Track, i: nat, s: real, left: real, right: real)
    requires Valid(t) && 0.0 <= s <= t.length && i < |t.segments| && WallsOn(t, i, s, left, right)
    ensures WidthsAt(t, s) == Widths(left, right)
  {
    hide WidthsAt, SegmentAt, WallsOn, Norm2, Along;
    var g := t.segments[i];
    WallsRange(t, i, s, left, right);
    if s < EndS(g) {
      ShortOfEnd(t, i, s);
      HoldsOnce(t, i, s);
      WallsOnLookedUp(t, i, s, left, right);
    } else if i + 1 < |t.segments| {
      WallsJoin(t, i, left, right);
      assert t.segments[i + 1].startS == EndS(g);
      StartsBound(t, i + 1);
      NextHolds(t, i + 1);
      HoldsOnce(t, i + 1, s);
      WallsOnLookedUp(t, i + 1, s, left, right);
    } else {
      HoldsOnce(t, i, s);
      WallsOnLookedUp(t, i, s, left, right);
    }
  }

  lemma WallsRange(t: Track, k: nat, s: real, left: real, right: real)
    requires k < |t.segments| && k < |t.points| && WallsOn(t, k, s, left, right)
    ensures t.segments[k].startS <= s <= EndS(t.segments[k])
  {
  }

  lemma WallsExact(t: Track, s: real, left: real, right: real)
    requires Valid(t) && 0.0 <= s <= t.length
    ensures WallsAt(t, s, left, right) <==> WidthsAt(t, s) == Widths(left, right)
  {
    hide WidthsAt, SegmentAt, WallsOn, Norm2, Along;
    if WallsAt(t, s, left, right) {
      var i: nat :| i < |t.segments| && WallsOn(t, i, s, left, right);
      WallsOnOther(t, i, s, left, right);
    }
    if WidthsAt(t, s) == Widths(left, right) {
      StretchEnds(t, s);
      WallsOnLookedUp(t, SegmentAt(t, s), s, left, right);
    }
  }

  /** At a station's arc length the walls stand at its own widths. */
  lemma StationWalls(t: Track, k: nat)
    requires Valid(t) && k < |t.segments|
    ensures WallsAt(t, t.segments[k].startS, t.points[k].left, t.points[k].right)
    ensures WallsAt(t, EndS(t.segments[k]), NextStation(t, k).left, NextStation(t, k).right)
  {
    hide Norm2, Along;
    assert Joins(t.points, t.segments[k], k);
    assert WallsOn(t, k, t.segments[k].startS, t.points[k].left, t.points[k].right);
    assert WallsOn(t, k, EndS(t.segments[k]), NextStation(t, k).left, NextStation(t, k).right);
  }

  // --- inside

  /** A car of that half-width, d to the left of the arc length s, is within both walls. */
  ghost predicate Clears(t: Track, s: real, d: real, half: real)
    requires |t.segments| <= |t.points|
  {
    half >= 0.0 && exists left, right :: WallsAt(t, s, left, right) && d + half <= left && -right <= d - half
  }

  lemma ClearsExact(t: Track, s: real, d: real, half: real)
    requires Valid(t) && 0.0 <= s <= t.length
    ensures Clears(t, s, d, half) <==> Fits(d, half, WidthsAt(t, s))
  {
    hide Norm2, Along, WidthsAt, WallsAt;
    var w := WidthsAt(t, s);
    WallsExact(t, s, w.left, w.right);
    if Clears(t, s, d, half) {
      var left, right :| WallsAt(t, s, left, right) && d + half <= left && -right <= d - half;
      WallsExact(t, s, left, right);
    }
  }

  /** On a simple centreline inside is just this, at the arc length asked for. */
  lemma InsideExact(t: Track, f: Frenet, half: real)
    requires Valid(t) && Simple(t)
    ensures t.length > 0.0 && (IsInside(t, f, half) <==> Clears(t, Wrapped(t, f.s), f.d, half))
  {
    hide Valid, Simple, WidthsAt, ToFrenet, ToCartesian, Wrapped, Clears, Fits;
    ArcLengthRecovered(t, f.s);
    WrappedRange(t, f.s);
    ClearsExact(t, Wrapped(t, f.s), f.d, half);
    OutsideNegative(f.d, half, WidthsAt(t, Wrapped(t, f.s)));
  }

  lemma OutsideNegative(d: real, half: real, w: Widths)
    ensures half < 0.0 ==> !Fits(d, half, w)
  {
  }

  /** No centreline point is nearer to p than the one at s. */
  ghost predicate NearestAt(t: Track, p: Point, s: real)
    requires Valid(t)
  {
    forall r: real {:trigger ToCartesian(t, r, 0.0)} ::
      Distance2(p, ToCartesian(t, s, 0.0)) <= Distance2(p, ToCartesian(t, r, 0.0))
  }

  /** On any track a position inside clears the walls at an arc length of its nearest
      centreline point. */
  lemma InsideAtNearest(t: Track, p: Point, half: real)
    requires Valid(t) && IsInside(t, ToFrenet(t, p), half)
    ensures exists s :: NearestAt(t, p, s) && 0.0 <= s <= t.length && Clears(t, s, ToFrenet(t, p).d, half)
  {
    hide Valid, WidthsAt, Fits, ToFrenet, ToCartesian, Foot, Nearest, Clears, Distance2;
    SegmentCounted(t);
    var centre := ToCartesian(t, ToFrenet(t, p).s, 0.0);
    var s := ToFrenet(t, centre).s;
    FrenetNamesFoot(t, p);
    RoundTrip(t, ToFrenet(t, p).s);
    FrenetRange(t, centre);
    ClearsExact(t, s, ToFrenet(t, p).d, half);
    forall r: real
      ensures Distance2(p, ToCartesian(t, s, 0.0)) <= Distance2(p, ToCartesian(t, r, 0.0))
    {
      FrenetNearest(t, p, r);
    }
    assert NearestAt(t, p, s);
  }

  // --- left is left

  lemma AcrossIsWedge(p: Point, u: Point)
    ensures Dot(p, Normal(u)) == Wedge(u, p)
  {
  }

  /** The offset read is how far the position lies to the left of its nearest
      segment's line: positive just when it lies counter-clockwise of its direction. */
  lemma OffsetIsLeft(t: Track, p: Point)
    requires Valid(t)
    ensures var i := Nearest(t, p, |t.segments|);
      t.segments[i].start == i < |t.points| && ToFrenet(t, p).d == Wedge(t.segments[i].unit, Minus(p, t.points[i].at))
  {
    hide Valid, Norm2, Along, Nearest, Foot, Ratio, Times, Dot, Wedge, Minus;
    SegmentCounted(t);
    var i := Nearest(t, p, |t.segments|);
    FootIs(t, p, i);
    var a := ClampTo(Shadow(t, p, i), t.segments[i].length);
    AcrossFoot(p, t.points[i].at, t.segments[i].unit, a);
    AcrossIsWedge(Minus(p, t.points[i].at), t.segments[i].unit);
  }

  lemma OffWedge(p: Point, u: Point, d: real)
    requires Norm2(u) == 1.0
    ensures Wedge(u, Minus(Along(p, Normal(u), d), p)) == d
    ensures Dot(u, Minus(Along(p, Normal(u), d), p)) == 0.0
  {
    assert Wedge(u, Minus(Along(p, Normal(u), d), p)) == d * Norm2(u);
  }

  /** A position asked for at an offset lies that far to the left, square to the
      centreline point of its arc length. */
  lemma PlacedLeft(t: Track, s: real, d: real)
    requires Valid(t)
    ensures t.length > 0.0
    ensures var u := t.segments[SegmentAt(t, Wrapped(t, s))].unit;
      var v := Minus(ToCartesian(t, s, d), ToCartesian(t, s, 0.0));
      Wedge(u, v) == d && Dot(u, v) == 0.0
  {
    hide Norm2, Along, Wrapped, SegmentAt, ToCartesian, Wedge, Dot, Minus, Normal, Valid;
    LengthPositive(t);
    ToCartesianIs(t, s, d);
    UnitAt(t, SegmentAt(t, Wrapped(t, s)));
    OffWedge(ToCartesian(t, s, 0.0), t.segments[SegmentAt(t, Wrapped(t, s))].unit, d);
  }

  // --- round the track, or held to its ends

  ghost predicate LapsApart(a: real, b: real, length: real, n: int) {
    a - b == n as real * length
  }

  /** On a closed track the arc length moves by whole laps into [0, length); on an
      open one it goes to the nearest of [0, length]. */
  lemma WrappedExact(t: Track, s: real)
    requires t.length > 0.0
    ensures t.closed ==> 0.0 <= Wrapped(t, s) < t.length
    ensures t.closed ==> exists n :: LapsApart(s, Wrapped(t, s), t.length, n)
    ensures !t.closed ==> Wrapped(t, s) == Max(0.0, Min(s, t.length))
  {
    if t.closed {
      Laps.NormalizedIsFloored(s, t.length);
      Laps.FlooredRange(s, t.length);
      assert LapsApart(s, Wrapped(t, s), t.length, (s / t.length).Floor);
    }
  }
}
