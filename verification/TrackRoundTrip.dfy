/**
 The round trip off the centreline: which arc lengths and offsets come back as they
 were, and a position that does not.
 */
module TrackRoundTrip {
  import opened Geometry
  import opened NearestEdges
  import opened Products
  import opened Tracks

  /** The squared distance from p to segment i. */
  function Far2(t: Track, p: Point, i: nat): real
    requires Valid(t) && i < |t.segments|
  {
    Distance2(p, Foot(t, p, i))
  }

  /** Segment k is the first of the nearest: every earlier one is further, no later
      one closer. */
  ghost predicate FirstNearest(t: Track, p: Point, k: nat, far2: real)
    requires Valid(t)
  {
    && (forall i: nat :: i < k && i < |t.segments| ==> Far2(t, p, i) > far2)
    && (forall i: nat :: k < i < |t.segments| ==> Far2(t, p, i) >= far2)
  }

  lemma NearestIs(t: Track, p: Point, k: nat)
    requires Valid(t) && k < |t.segments|
    ensures Nearest(t, p, |t.segments|) == k <==> FirstNearest(t, p, k, Far2(t, p, k))
  {
    hide Valid, Distance2, Foot, Nearest;
    SegmentCounted(t);
    var n := Nearest(t, p, |t.segments|);
    forall i: nat | i < |t.segments|
      ensures Far2(t, p, n) <= Far2(t, p, i) && (i < n ==> Far2(t, p, n) < Far2(t, p, i))
    {
      NearestLeast(t, p, |t.segments|, i);
    }
    assert Far2(t, p, n) <= Far2(t, p, k);
  }

  // --- a point set off from the centreline, seen from a segment

  lemma SetOff(q: Point, c: Point, u: Point, w: Point, d: real)
    ensures var p := Along(c, Normal(w), d);
      Dot(Minus(p, q), u) == Dot(Minus(c, q), u) + Times(d, Dot(Normal(w), u))
  {
    assert (c.x - d * w.y - q.x) * u.x == (c.x - q.x) * u.x + d * (-w.y * u.x);
    assert (c.y + d * w.x - q.y) * u.y == (c.y - q.y) * u.y + d * (w.x * u.y);
  }

  lemma AlongSelf(q: Point, u: Point, a: real)
    requires Norm2(u) == 1.0
    ensures Dot(Minus(Along(q, u, a), q), u) == a
  {
    assert a * Norm2(u) == a;
  }

  lemma NormalAcross(u: Point)
    requires Norm2(u) == 1.0
    ensures Dot(Normal(u), u) == 0.0 && Dot(Normal(u), Normal(u)) == 1.0
  {
  }

  lemma OffsetVector(c: Point, w: Point, d: real)
    ensures Minus(Along(c, Normal(w), d), c) == Along(Point(0.0, 0.0), Normal(w), d)
  {
  }

  lemma OffsetDistance(c: Point, w: Point, d: real)
    requires Norm2(w) == 1.0
    ensures Distance2(Along(c, Normal(w), d), c) == Times(d, d)
  {
    hide Norm2, Times;
    OffsetVector(c, w, d);
    NormalNorm(w, d);
  }

  lemma OffsetAcross(c: Point, w: Point, u: Point, d: real)
    ensures Dot(Minus(Along(c, Normal(w), d), c), Normal(u)) == Times(d, Dot(Normal(w), Normal(u)))
  {
    assert (-d * w.y) * -u.y + (d * w.x) * u.x == d * (w.y * u.y + w.x * u.x);
  }

  /** Unit vectors whose normals agree fully are one. */
  lemma SameNormal(w: Point, u: Point)
    requires Norm2(w) == 1.0 && Norm2(u) == 1.0 && Dot(Normal(w), Normal(u)) == 1.0
    ensures w == u
  {
    hide Norm2, Dot;
    DifferenceSquared(w, u);
    ZeroNorm(Minus(w, u));
  }

  lemma DifferenceSquared(w: Point, u: Point)
    ensures Norm2(Minus(w, u)) == Norm2(w) + Norm2(u) - 2.0 * Dot(Normal(w), Normal(u))
  {
  }

  lemma Kept(d: real, c: real)
    requires Times(d, c) == d
    ensures d == 0.0 || c == 1.0
  {
    if d != 0.0 {
      QuotientIs(Times(d, c), c, d);
      QuotientIs(d, 1.0, d);
    }
  }

  lemma TimesNames(d: real, c: real)
    ensures Times(d, 0.0) == 0.0 && Times(d, 1.0) == d && Times(0.0, c) == 0.0
  {
  }

  // --- the segment the arc length is looked up on

  /** The place of s: its segment, and how far along. */
  lemma PlaceOf(t: Track, s: real, d: real) returns (k: nat, a: real)
    requires Valid(t)
    ensures t.length > 0.0 && k == SegmentAt(t, Wrapped(t, s)) && a == Wrapped(t, s) - t.segments[k].startS
    ensures t.segments[k].start == k < |t.points| && 0.0 <= a <= t.segments[k].length && Holds(t, k, Wrapped(t, s))
    ensures ToCartesian(t, s, d) == Along(On(t, k, a), Normal(t.segments[k].unit), d)
  {
    hide Norm2, Along, Wrapped, SegmentAt;
    LengthPositive(t);
    k, a := SegmentAt(t, Wrapped(t, s)), Wrapped(t, s) - t.segments[SegmentAt(t, Wrapped(t, s))].startS;
    assert Joins(t.points, t.segments[k], k);
    CentreOn(t, s);
    ToCartesianIs(t, s, d);
    WrappedRange(t, s);
    SegmentAtHolds(t, Wrapped(t, s));
  }

  /** From its own segment the point is |d| away and reads as it was set. */
  lemma FromOwn(t: Track, k: nat, a: real, d: real)
    requires Valid(t) && k < |t.segments| && 0.0 <= a <= t.segments[k].length && t.segments[k].start < |t.points|
    ensures var p := Along(On(t, k, a), Normal(t.segments[k].unit), d);
      FrenetOn(t, p, k) == Frenet(t.segments[k].startS + a, d) && Far2(t, p, k) == Times(d, d)
  {
    hide Valid, Norm2, Along, Dot, Distance2, Times, Ratio, Foot, Minus;
    var u, c := t.segments[k].unit, On(t, k, a);
    var p := Along(c, Normal(u), d);
    UnitAt(t, k);
    FootIs(t, p, k);
    NormalAcross(u);
    TimesNames(d, 0.0);
    SetOff(t.points[k].at, c, u, u, d);
    AlongSelf(t.points[k].at, u, a);
    OffsetDistance(c, u, d);
    OffsetAcross(c, u, u, d);
    FrenetIs(t, p, k);
  }

  lemma FrenetIs(t: Track, p: Point, i: nat)
    requires Valid(t) && i < |t.segments|
    ensures t.segments[i].start < |t.points|
    ensures FrenetOn(t, p, i) ==
      Frenet(t.segments[i].startS + ClampTo(Shadow(t, p, i), t.segments[i].length),
             Dot(Minus(p, Foot(t, p, i)), Normal(t.segments[i].unit)))
  {
    hide Valid, Norm2, Along, Dot, Times, Ratio, Foot, Minus;
    FootIs(t, p, i);
  }

  /** The end of a segment is the start of the next. */
  lemma SharedVertex(t: Track, k: nat)
    requires Valid(t) && 0 < k < |t.segments|
    ensures t.segments[k - 1].start < |t.points| && t.segments[k].start < |t.points|
    ensures On(t, k - 1, t.segments[k - 1].length) == On(t, k, 0.0)
    ensures t.segments[k].startS == EndS(t.segments[k - 1])
  {
    hide Norm2, Along;
    var i := k - 1;
    assert Joins(t.points, t.segments[i], i) && Joins(t.points, t.segments[k], k);
    NoOffset(t.points[k].at, t.segments[k].unit);
    assert t.segments[k].startS == EndS(t.segments[i]);
  }

  /** Seen from the segment before its vertex: no further than |d|; and read as it was
      set exactly when there is no offset or the two segments go the same way. */
  lemma FromBefore(t: Track, k: nat, d: real)
    requires Valid(t) && 0 < k < |t.segments| && t.segments[k].start < |t.points|
    ensures var p := Along(On(t, k, 0.0), Normal(t.segments[k].unit), d);
      && Far2(t, p, k - 1) <= Times(d, d)
      && (FrenetOn(t, p, k - 1) == Frenet(t.segments[k].startS, d) <==>
            d == 0.0 || t.segments[k - 1].unit == t.segments[k].unit)
      && (FrenetOn(t, p, k - 1) == Frenet(t.segments[k].startS, d) ==> Far2(t, p, k - 1) == Times(d, d))
  {
    hide Valid, Norm2, Along, Dot, Distance2, Times, Ratio, Foot, Minus, FrenetOn;
    var i := k - 1;
    var u, w, c, length := t.segments[i].unit, t.segments[k].unit, On(t, k, 0.0), t.segments[i].length;
    var p := Along(c, Normal(w), d);
    SharedVertex(t, k);
    UnitAt(t, i);
    UnitAt(t, k);
    FootIs(t, p, i);
    FootLeast(t, p, i, length);
    OffsetDistance(c, w, d);
    FrenetIs(t, p, i);
    OffsetAcross(c, w, u, d);
    AlongSelf(t.points[i].at, u, length);
    SetOff(t.points[i].at, c, u, w, d);
    TimesNames(d, Dot(Normal(w), u));
    TimesNames(d, Dot(Normal(w), Normal(u)));
    if FrenetOn(t, p, i) == Frenet(t.segments[k].startS, d) {
      assert ClampTo(Shadow(t, p, i), length) == length;
      assert Foot(t, p, i) == c;
      Kept(d, Dot(Normal(w), Normal(u)));
      if d != 0.0 {
        SameNormal(w, u);
      }
    }
    if w == u {
      NormalAcross(u);
    }
  }

  lemma BetweenStarts(t: Track, i: nat, k: nat)
    requires Valid(t) && i < k < |t.segments|
    ensures i + 1 < k ==> EndS(t.segments[i]) < t.segments[k].startS
  {
    hide Norm2, Along;
    if i + 1 < k {
      StartsBound(t, i + 1);
      StartsRise(t, i + 1, k);
      StartsRise(t, i, i + 1);
    }
  }

  /** Segments elsewhere name other arc lengths. */
  lemma FromElsewhere(t: Track, p: Point, i: nat, k: nat, w: real)
    requires Valid(t) && i < |t.segments| && k < |t.segments| && Holds(t, k, w) && i != k
    requires FrenetOn(t, p, i).s == w
    ensures i + 1 == k && w == t.segments[k].startS
  {
    hide Norm2, Along, Dot, Ratio, Foot, Times;
    FrenetIs(t, p, i);
    StartsBound(t, i);
    if i < k {
      StartsRise(t, i, k);
      BetweenStarts(t, i, k);
    } else {
      StartNotBelow(t, k + 1, i);
    }
  }

  /** An arc length and offset come back, the arc length wrapped, exactly when every
      earlier segment is further than |d| and no later one closer; at a vertex the
      segment before it reads them, so there must be no offset, or no bend. */
  lemma OffsetExact(t: Track, s: real, d: real)
    requires Valid(t)
    ensures t.length > 0.0
    ensures var p, k := ToCartesian(t, s, d), SegmentAt(t, Wrapped(t, s));
      var vertex := k > 0 && Wrapped(t, s) == t.segments[k].startS;
      ToFrenet(t, p) == Frenet(Wrapped(t, s), d) <==>
        && FirstNearest(t, p, if vertex then k - 1 else k, Times(d, d))
        && (vertex ==> d == 0.0 || t.segments[k - 1].unit == t.segments[k].unit)
  {
    hide Valid, ToCartesian, Nearest, Wrapped, SegmentAt, FrenetOn, Far2, FirstNearest, On, Along, Times, Holds;
    SegmentCounted(t);
    var k, a := PlaceOf(t, s, d);
    var p, w := ToCartesian(t, s, d), Wrapped(t, s);
    var n := Nearest(t, p, |t.segments|);
    FromOwn(t, k, a, d);
    NearestIs(t, p, k);
    if n != k && FrenetOn(t, p, n).s == w {
      FromElsewhere(t, p, n, k, w);
    }
    if k > 0 && a == 0.0 {
      FromBefore(t, k, d);
      NearestIs(t, p, k - 1);
      BeforeIsNearer(t, p, k, Times(d, d));
    }
  }

  lemma BeforeIsNearer(t: Track, p: Point, k: nat, far2: real)
    requires Valid(t) && 0 < k < |t.segments| && Far2(t, p, k - 1) <= far2
    ensures !FirstNearest(t, p, k, far2)
  {
    hide Far2, Valid;
    var i := k - 1;
    assert Far2(t, p, i) <= far2;
  }

  // --- a position that does not come back

  /** Two straights of a given length with a left bend between them. */
  function Bend(length: real): Track {
    Track([Station(Point(0.0, 0.0), 1.0, 1.0), Station(Point(length, 0.0), 1.0, 1.0),
           Station(Point(length, length), 1.0, 1.0)],
          [Segment(0, 0.0, length, Point(1.0, 0.0)), Segment(1, length, length, Point(0.0, 1.0))], 2.0 * length, false)
  }

  lemma East(x: real, y: real, a: real)
    ensures Along(Point(x, y), Point(1.0, 0.0), a) == Point(x + a, y) && Dot(Point(x, y), Point(1.0, 0.0)) == x
  {
  }

  lemma North(x: real, y: real, a: real)
    ensures Along(Point(x, y), Point(0.0, 1.0), a) == Point(x, y + a) && Dot(Point(x, y), Point(0.0, 1.0)) == y
  {
  }

  lemma UnitAxes()
    ensures Norm2(Point(1.0, 0.0)) == 1.0 && Norm2(Point(0.0, 1.0)) == 1.0
  {
  }

  lemma JoinsEast(points: seq<Station>, g: Segment, k: nat)
    requires k < |points| && g.start == k && g.length > 0.0 && g.unit == Point(1.0, 0.0)
    requires points[After(|points|, k)].at == Point(points[k].at.x + g.length, points[k].at.y)
    ensures Joins(points, g, k)
  {
    hide Norm2, Along;
    UnitAxes();
    East(points[k].at.x, points[k].at.y, g.length);
  }

  lemma JoinsNorth(points: seq<Station>, g: Segment, k: nat)
    requires k < |points| && g.start == k && g.length > 0.0 && g.unit == Point(0.0, 1.0)
    requires points[After(|points|, k)].at == Point(points[k].at.x, points[k].at.y + g.length)
    ensures Joins(points, g, k)
  {
    hide Norm2, Along;
    UnitAxes();
    North(points[k].at.x, points[k].at.y, g.length);
  }

  lemma BendValid(length: real)
    requires length > 0.0
    ensures Valid(Bend(length))
  {
    hide Joins;
    var t := Bend(length);
    JoinsEast(t.points, t.segments[0], 0);
    JoinsNorth(t.points, t.segments[1], 1);
  }

  lemma ShadowAlong(t: Track, p: Point, i: nat)
    requires i < |t.segments| && t.segments[i].start < |t.points|
    ensures var q := t.points[t.segments[i].start].at;
      && (t.segments[i].unit == Point(1.0, 0.0) ==> Shadow(t, p, i) == p.x - q.x)
      && (t.segments[i].unit == Point(0.0, 1.0) ==> Shadow(t, p, i) == p.y - q.y)
  {
    hide Dot;
    var q := t.points[t.segments[i].start].at;
    East(p.x - q.x, p.y - q.y, 0.0);
    North(p.x - q.x, p.y - q.y, 0.0);
  }

  /** Every position off the outside of the bend, beyond the first straight and before
      the second, is lost. */
  lemma OutsideBendLost(length: real, x: real, y: real)
    requires length > 0.0 && x > 0.0 && y > 0.0
    ensures var t, p := Bend(length), Point(length + x, -y);
      Valid(t) && ToCartesian(t, ToFrenet(t, p).s, ToFrenet(t, p).d) != p
  {
    hide ToCartesian, ToFrenet, Valid, Nearest, Shadow, Across, Following;
    var t, p := Bend(length), Point(length + x, -y);
    BendValid(length);
    PoseExact(t, p);
    ShadowAlong(t, p, 0);
    ShadowAlong(t, p, 1);
  }
}
