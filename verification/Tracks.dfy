/**
 The track frame: a centreline of straight segments, and the way from a position
 to arc length and offset and back. Headings and curvature are left aside.
 */
module Tracks {
  import opened Geometry
  import opened NearestEdges
  import opened Options
  import opened Products
  import opened Reals
  import Laps

  datatype Station = Station(at: Point, left: real, right: real)

  datatype Segment = Segment(start: nat, startS: real, length: real, unit: Point)

  datatype Track = Track(points: seq<Station>, segments: seq<Segment>, length: real, closed: bool)

  datatype TrackError = TooFewPoints | NotPositive(k: nat) | NoLength(k: nat)

  datatype Result<T> = Ok(value: T) | Err(error: TrackError)

  /** The double's epsilon. */
  const EPSILON: real := 1.0 / 4503599627370496.0

  function SegmentCount(n: nat, closed: bool): nat
    requires n >= 2
  {
    if closed then n else n - 1
  }

  function EndS(g: Segment): real {
    g.startS + g.length
  }

  /** The segment runs from its point straight to the next. */
  predicate Joins(points: seq<Station>, g: Segment, k: nat)
    requires k < |points|
  {
    && g.start == k && g.length > 0.0 && Norm2(g.unit) == 1.0
    && Along(points[k].at, g.unit, g.length) == points[After(|points|, k)].at
  }

  predicate Wide(p: Station) {
    p.left > 0.0 && p.right > 0.0
  }

  ghost predicate Chained(points: seq<Station>, segments: seq<Segment>) {
    && |segments| <= |points|
    && (forall i :: 0 <= i < |segments| ==> Joins(points, segments[i], i))
    && (forall i, j :: 0 <= i && j == i + 1 && j < |segments| ==> segments[j].startS == EndS(segments[i]))
  }

  ghost predicate Valid(t: Track) {
    && |t.points| >= 2 && |t.segments| == SegmentCount(|t.points|, t.closed)
    && (forall i :: 0 <= i < |t.points| ==> Wide(t.points[i]))
    && Chained(t.points, t.segments)
    && t.segments[0].startS == 0.0 && t.length == EndS(t.segments[|t.segments| - 1])
  }

  // --- building the segments

  predicate IsNorm(d: Point, h: real) {
    h >= 0.0 && h * h == Norm2(d)
  }

  function Gap(points: seq<Station>, k: nat): Point
    requires k < |points|
  {
    Minus(points[After(|points|, k)].at, points[k].at)
  }

  ghost predicate Normed(hypot: Point -> real, points: seq<Station>) {
    forall k :: 0 <= k < |points| ==> IsNorm(Gap(points, k), hypot(Gap(points, k)))
  }

  lemma UnitVector(points: seq<Station>, k: nat, h: real)
    requires k < |points| && IsNorm(Gap(points, k), h) && h > 0.0
    ensures var d := Gap(points, k);
      Joins(points, Segment(k, 0.0, h, Point(d.x / h, d.y / h)), k)
  {
    hide Norm2, IsNorm, Along;
    UnitNorm(Gap(points, k), h);
    Whole(points[k].at, points[After(|points|, k)].at, h);
  }

  lemma Whole(p: Point, q: Point, h: real)
    requires h > 0.0
    ensures Along(p, Point((q.x - p.x) / h, (q.y - p.y) / h), h) == q
  {
    assert h * ((q.x - p.x) / h) == q.x - p.x;
    assert h * ((q.y - p.y) / h) == q.y - p.y;
  }

  lemma UnitNorm(d: Point, h: real)
    requires IsNorm(d, h) && h > 0.0
    ensures Norm2(Point(d.x / h, d.y / h)) == 1.0
  {
    hide Times;
    var x, y := d.x / h, d.y / h;
    TimesPositive(h, h);
    Squared(x, h, d.x);
    Squared(y, h, d.y);
    NormIs(d);
    NormIs(Point(x, y));
    RootIs(d, h);
    Factor(Times(x, x), Times(y, y), Times(h, h));
    OneTimes(Norm2(Point(x, y)), Times(h, h));
  }

  lemma RootIs(d: Point, h: real)
    requires IsNorm(d, h)
    ensures Times(h, h) == Norm2(d)
  {
  }

  lemma Squared(x: real, h: real, d: real)
    requires h > 0.0 && x == d / h
    ensures Times(Times(x, x), Times(h, h)) == Times(d, d)
  {
    assert x * h == d;
    assert x * x * (h * h) == (x * h) * (x * h);
  }

  lemma Factor(a: real, b: real, c: real)
    ensures Times(a + b, c) == Times(a, c) + Times(b, c)
  {
  }

  lemma OneTimes(a: real, b: real)
    requires Times(a, b) == b && b > 0.0
    ensures a == 1.0
  {
    if a > 1.0 {
      ProductPositive(a - 1.0, b);
    } else if a < 1.0 {
      ProductPositive(1.0 - a, b);
    }
  }

  /** The centreline read from its points; the first fault refuses it. */
  method FromPoints(points: seq<Station>, closed: bool, hypot: Point -> real) returns (r: Result<Track>)
    requires Normed(hypot, points)
    ensures r.Ok? ==> Valid(r.value) && r.value.points == points && r.value.closed == closed
    ensures r.Ok? <==>
      && |points| >= 2 && (forall i :: 0 <= i < |points| ==> Wide(points[i]))
      && forall i :: 0 <= i < SegmentCount(|points|, closed) ==> hypot(Gap(points, i)) > EPSILON
    ensures r.Err? && r.error.TooFewPoints? <==> |points| < 2
    ensures r.Err? && r.error.NotPositive? ==>
      r.error.k < |points| && !Wide(points[r.error.k]) && forall i :: 0 <= i < r.error.k ==> Wide(points[i])
    ensures r.Err? && r.error.NoLength? ==>
      && r.error.k < |points| && hypot(Gap(points, r.error.k)) <= EPSILON
      && (forall i :: 0 <= i < |points| ==> Wide(points[i]))
      && forall i :: 0 <= i < r.error.k ==> hypot(Gap(points, i)) > EPSILON
  {
    hide Norm2, Gap, Along;
    if |points| < 2 {
      return Err(TooFewPoints);
    }
    for i := 0 to |points|
      invariant forall j :: 0 <= j < i ==> Wide(points[j])
    {
      if points[i].left <= 0.0 || points[i].right <= 0.0 {
        return Err(NotPositive(i));
      }
    }
    var segments: seq<Segment>, length := [], 0.0;
    for i := 0 to SegmentCount(|points|, closed)
      invariant |segments| == i && Chained(points, segments)
      invariant i == 0 ==> length == 0.0
      invariant i > 0 ==> segments[0].startS == 0.0 && length == EndS(segments[i - 1])
      invariant forall j :: 0 <= j < i ==> hypot(Gap(points, j)) > EPSILON
    {
      var d := Gap(points, i);
      var h := hypot(d);
      if h <= EPSILON {
        return Err(NoLength(i));
      }
      UnitVector(points, i, h);
      segments := segments + [Segment(i, length, h, Point(d.x / h, d.y / h))];
      length := length + h;
    }
    r := Ok(Track(points, segments, length, closed));
  }

  // --- arc length to position

  lemma {:induction false} StartsRise(t: Track, i: nat, j: nat)
    requires Valid(t) && i < j < |t.segments|
    ensures EndS(t.segments[i]) <= t.segments[j].startS
    decreases j
  {
    hide Norm2, Along;
    var k := j - 1;
    assert t.segments[j].startS == EndS(t.segments[k]) && Joins(t.points, t.segments[k], k);
    if i < k {
      StartsRise(t, i, k);
    }
  }

  lemma StartsBound(t: Track, i: nat)
    requires Valid(t) && i < |t.segments|
    ensures 0.0 <= t.segments[i].startS < EndS(t.segments[i]) <= t.length
  {
    hide Norm2, Along;
    var last := |t.segments| - 1;
    assert Joins(t.points, t.segments[i], i) && Joins(t.points, t.segments[0], 0);
    assert Joins(t.points, t.segments[last], last);
    if i > 0 {
      StartsRise(t, 0, i);
    }
    if i < last {
      StartsRise(t, i, last);
    }
  }

  /** std::upper_bound over the starts, from k on. */
  function UpperBound(segments: seq<Segment>, s: real, k: nat): (r: nat)
    requires k <= |segments|
    ensures k <= r <= |segments|
    decreases |segments| - k
  {
    if k == |segments| || s < segments[k].startS then k else UpperBound(segments, s, k + 1)
  }

  function SegmentAt(t: Track, s: real): (r: nat)
    requires t.segments != []
    ensures r < |t.segments|
  {
    var k := UpperBound(t.segments, s, 0);
    if k == 0 then 0 else k - 1
  }

  /** The segment's stretch of arc length: its own start, up to the next one's. */
  predicate Holds(t: Track, k: nat, s: real)
    requires k < |t.segments|
  {
    t.segments[k].startS <= s && (k + 1 < |t.segments| ==> s < t.segments[k + 1].startS)
  }

  lemma {:induction false} UpperBoundHolds(t: Track, s: real, k: nat)
    requires k < |t.segments| && t.segments[k].startS <= s
    ensures var r := UpperBound(t.segments, s, k); r > k && Holds(t, r - 1, s)
    decreases |t.segments| - k
  {
    if k + 1 < |t.segments| && t.segments[k + 1].startS <= s {
      UpperBoundHolds(t, s, k + 1);
    }
  }

  lemma SegmentAtHolds(t: Track, s: real)
    requires Valid(t) && s >= 0.0
    ensures Holds(t, SegmentAt(t, s), s)
  {
    UpperBoundHolds(t, s, 0);
  }

  lemma HoldsOnce(t: Track, k: nat, s: real)
    requires Valid(t) && k < |t.segments| && Holds(t, k, s)
    ensures SegmentAt(t, s) == k
  {
    hide Norm2, Along, SegmentAt;
    StartsBound(t, k);
    SegmentAtHolds(t, s);
    var h := SegmentAt(t, s);
    if h < k {
      StartNotBelow(t, h + 1, k);
    } else if k < h {
      StartNotBelow(t, k + 1, h);
    }
  }

  lemma StartNotBelow(t: Track, i: nat, j: nat)
    requires Valid(t) && i <= j < |t.segments|
    ensures t.segments[i].startS <= t.segments[j].startS
  {
    if i < j {
      StartsRise(t, i, j);
      StartsBound(t, i);
    }
  }

  /** Round the closed track, or held to the ends of the open one. */
  function Wrapped(t: Track, s: real): real
    requires t.closed ==> t.length > 0.0
  {
    if t.closed then Laps.Normalized(s, t.length)
    else if s < 0.0 then 0.0
    else if s > t.length then t.length
    else s
  }

  lemma LengthPositive(t: Track)
    requires Valid(t)
    ensures t.length > 0.0
  {
    StartsBound(t, 0);
  }

  lemma WrappedRange(t: Track, s: real)
    requires Valid(t) && t.length > 0.0
    ensures 0.0 <= Wrapped(t, s) <= t.length && (t.closed ==> Wrapped(t, s) < t.length)
  {
    if t.closed {
      Laps.NormalizedIsFloored(s, t.length);
      Laps.FlooredRange(s, t.length);
    }
  }

  lemma WrappedInside(t: Track, s: real)
    requires t.length > 0.0 && 0.0 <= s <= t.length
    ensures Wrapped(t, s) == if t.closed && s == t.length then 0.0 else s
  {
    if t.closed {
      assert s == (s / t.length) * t.length;
      Laps.TimesOrder(s / t.length, 1.0, t.length);
      Laps.TimesOrder(0.0, s / t.length, t.length);
      Laps.TimesNames(t.length);
    }
  }

  function Normal(unit: Point): Point {
    Point(-unit.y, unit.x)
  }

  function ToCartesian(t: Track, s: real, d: real): Point
    requires Valid(t)
  {
    LengthPositive(t);
    var w := Wrapped(t, s);
    var g := t.segments[SegmentAt(t, w)];
    Along(Along(t.points[g.start].at, g.unit, Min(w - g.startS, g.length)), Normal(g.unit), d)
  }

  // --- position to arc length and offset

  datatype Frenet = Frenet(s: real, d: real)

  function Ratio(t: Track, p: Point, i: nat): real
    requires Valid(t) && i < |t.segments|
  {
    var g := t.segments[i];
    assert Joins(t.points, g, i);
    Unit(Dot(Minus(p, t.points[g.start].at), g.unit) / g.length)
  }

  function Foot(t: Track, p: Point, i: nat): Point
    requires Valid(t) && i < |t.segments|
  {
    var g := t.segments[i];
    assert Joins(t.points, g, i);
    Along(t.points[g.start].at, g.unit, Times(Ratio(t, p, i), g.length))
  }

  /** The first of the nearest among n segments. */
  function Nearest(t: Track, p: Point, n: nat): (r: nat)
    requires Valid(t) && 1 <= n <= |t.segments|
    ensures r < n
  {
    if n == 1 then 0
    else
      var k := Nearest(t, p, n - 1);
      if Distance2(p, Foot(t, p, n - 1)) < Distance2(p, Foot(t, p, k)) then n - 1 else k
  }

  function FrenetOn(t: Track, p: Point, i: nat): Frenet
    requires Valid(t) && i < |t.segments|
  {
    var g := t.segments[i];
    Frenet(g.startS + Times(Ratio(t, p, i), g.length), Dot(Minus(p, Foot(t, p, i)), Normal(g.unit)))
  }

  function ToFrenet(t: Track, p: Point): Frenet
    requires Valid(t)
  {
    FrenetOn(t, p, Nearest(t, p, |t.segments|))
  }

  method FindFrenet(t: Track, p: Point) returns (f: Frenet)
    requires Valid(t)
    ensures f == ToFrenet(t, p)
  {
    hide Ratio, Foot, Chained, Distance2;
    var closest, minimum: Option<real> := 0, None;
    for i := 0 to |t.segments|
      invariant minimum.None? <==> i == 0
      invariant i > 0 ==> closest == Nearest(t, p, i) && minimum == Some(Distance2(p, Foot(t, p, closest)))
    {
      var distance2 := Distance2(p, Foot(t, p, i));
      if minimum.None? || distance2 < minimum.value {
        closest, minimum := i, Some(distance2);
      }
    }
    f := FrenetOn(t, p, closest);
  }

  lemma {:induction false} NearestLeast(t: Track, p: Point, n: nat, i: nat)
    requires Valid(t) && i < n <= |t.segments|
    ensures Distance2(p, Foot(t, p, Nearest(t, p, n))) <= Distance2(p, Foot(t, p, i))
    ensures i < Nearest(t, p, n) ==> Distance2(p, Foot(t, p, Nearest(t, p, n))) < Distance2(p, Foot(t, p, i))
    decreases n
  {
    hide Distance2, Foot, Valid;
    if n > 1 {
      var k := Nearest(t, p, n - 1);
      if i < n - 1 {
        NearestLeast(t, p, n - 1, i);
      }
    }
  }

  // --- the nearest point

  /** The point a along segment i. */
  function On(t: Track, i: nat, a: real): Point
    requires i < |t.segments| && t.segments[i].start < |t.points|
  {
    Along(t.points[t.segments[i].start].at, t.segments[i].unit, a)
  }

  /** How far along segment i the point projects, before clamping. */
  function Shadow(t: Track, p: Point, i: nat): real
    requires i < |t.segments| && t.segments[i].start < |t.points|
  {
    Dot(Minus(p, t.points[t.segments[i].start].at), t.segments[i].unit)
  }

  function ClampTo(c: real, length: real): real {
    if c < 0.0 then 0.0 else if c > length then length else c
  }

  lemma RatioClamps(c: real, length: real)
    requires length > 0.0
    ensures Times(Unit(c / length), length) == ClampTo(c, length)
  {
    var r := c / length;
    assert r * length == c;
    Laps.TimesOrder(r, 0.0, length);
    Laps.TimesOrder(r, 1.0, length);
    Laps.TimesNames(length);
  }

  lemma FootIs(t: Track, p: Point, i: nat)
    requires Valid(t) && i < |t.segments|
    ensures t.segments[i].start == i < |t.points| && t.segments[i].length > 0.0
    ensures Times(Ratio(t, p, i), t.segments[i].length) == ClampTo(Shadow(t, p, i), t.segments[i].length)
    ensures Foot(t, p, i) == On(t, i, ClampTo(Shadow(t, p, i), t.segments[i].length))
  {
    hide Norm2, Along, Dot, Times, Unit;
    assert Joins(t.points, t.segments[i], i);
    RatioClamps(Shadow(t, p, i), t.segments[i].length);
  }

  /** Along a unit vector the squared distance is |w|^2 - 2ac + a^2. */
  lemma DistanceOn(p: Point, q: Point, u: Point, a: real)
    requires Norm2(u) == 1.0
    ensures Distance2(p, Along(q, u, a)) ==
      Norm2(Minus(p, q)) - 2.0 * Times(a, Dot(Minus(p, q), u)) + Times(a, a)
  {
    AxisAlong(p.x, q.x, u.x, a);
    AxisAlong(p.y, q.y, u.y, a);
    assert a * a * Norm2(u) == a * a;
  }

  lemma ClampLeast(c: real, length: real, b: real)
    requires 0.0 <= b <= length
    ensures var a := ClampTo(c, length); Times(a, a) - 2.0 * Times(a, c) <= Times(b, b) - 2.0 * Times(b, c)
  {
    var a := ClampTo(c, length);
    if c < 0.0 {
      ProductNonNegative(b, b - 2.0 * c);
    } else if c > length {
      ProductNonNegative(length - b, 2.0 * c - b - length);
    } else {
      SquareNonNegative(b - c);
    }
  }

  /** The foot on a segment is its nearest point. */
  lemma FootLeast(t: Track, p: Point, i: nat, b: real)
    requires Valid(t) && i < |t.segments| && 0.0 <= b <= t.segments[i].length
    ensures t.segments[i].start == i && Distance2(p, Foot(t, p, i)) <= Distance2(p, On(t, i, b))
  {
    hide Norm2, Along, Dot, Times, Ratio, Foot, Distance2, ClampTo;
    var g := t.segments[i];
    FootIs(t, p, i);
    assert Joins(t.points, g, i);
    var c := Shadow(t, p, i);
    DistanceOn(p, t.points[i].at, g.unit, b);
    DistanceOn(p, t.points[i].at, g.unit, ClampTo(c, g.length));
    ClampLeast(c, g.length, b);
  }

  lemma NoOffset(p: Point, u: Point)
    ensures Along(p, u, 0.0) == p
  {
  }

  /** The centreline at s: the point of its segment, s being wrapped. */
  lemma CentreOn(t: Track, s: real)
    requires Valid(t) && t.length > 0.0
    ensures var k, w := SegmentAt(t, Wrapped(t, s)), Wrapped(t, s);
      && t.segments[k].start == k && 0.0 <= w - t.segments[k].startS <= t.segments[k].length
      && ToCartesian(t, s, 0.0) == On(t, k, w - t.segments[k].startS)
  {
    hide Norm2, Along, Wrapped, SegmentAt;
    var k, w := SegmentAt(t, Wrapped(t, s)), Wrapped(t, s);
    var g := t.segments[k];
    WrappedRange(t, s);
    SegmentAtHolds(t, w);
    assert Joins(t.points, g, k);
    assert w <= EndS(g) by {
      if k + 1 < |t.segments| {
        assert t.segments[k + 1].startS == EndS(g);
      }
    }
    NoOffset(Along(t.points[k].at, g.unit, w - g.startS), Normal(g.unit));
  }

  /** No point of the centreline is nearer than the one to_frenet chooses. */
  lemma FrenetNearest(t: Track, p: Point, s: real)
    requires Valid(t)
    ensures Distance2(p, Foot(t, p, Nearest(t, p, |t.segments|))) <= Distance2(p, ToCartesian(t, s, 0.0))
  {
    hide Valid, Distance2, Foot, Nearest, ToCartesian, Wrapped, SegmentAt;
    LengthPositive(t);
    CentreOn(t, s);
    var k, w := SegmentAt(t, Wrapped(t, s)), Wrapped(t, s);
    FootLeast(t, p, k, w - t.segments[k].startS);
    SegmentCounted(t);
    NearestLeast(t, p, |t.segments|, k);
  }

  lemma SegmentCounted(t: Track)
    requires Valid(t)
    ensures |t.segments| >= 1
  {
  }

  // --- there and back

  /** A point a along segment i has the arc length its segment says, vertices and
      the seam included. */
  lemma CentreAt(t: Track, i: nat, a: real)
    requires Valid(t) && i < |t.segments| && 0.0 <= a <= t.segments[i].length
    ensures t.segments[i].start == i && ToCartesian(t, t.segments[i].startS + a, 0.0) == On(t, i, a)
  {
    hide Norm2, Along, Wrapped, SegmentAt;
    var g, s := t.segments[i], t.segments[i].startS + a;
    LengthPositive(t);
    StartsBound(t, i);
    assert Joins(t.points, g, i);
    WrappedInside(t, s);
    CentreOn(t, s);
    if a < g.length {
      if i + 1 < |t.segments| {
        assert t.segments[i + 1].startS == EndS(g);
      }
      InsideLength(t, i, s);
      HoldsOnce(t, i, s);
    } else if i + 1 < |t.segments| {
      var next := t.segments[i + 1];
      assert next.startS == EndS(g);
      assert Joins(t.points, next, i + 1);
      StartsBound(t, i + 1);
      NextHolds(t, i + 1);
      HoldsOnce(t, i + 1, s);
      NoOffset(t.points[i + 1].at, next.unit);
    } else if t.closed {
      assert Joins(t.points, t.segments[0], 0);
      StartsBound(t, 0);
      NextHolds(t, 0);
      HoldsOnce(t, 0, 0.0);
      NoOffset(t.points[0].at, t.segments[0].unit);
    } else {
      HoldsOnce(t, i, s);
    }
  }

  lemma InsideLength(t: Track, i: nat, s: real)
    requires Valid(t) && i < |t.segments| && s < EndS(t.segments[i])
    ensures s < t.length
  {
    StartsBound(t, i);
  }

  lemma NextHolds(t: Track, i: nat)
    requires Valid(t) && i < |t.segments|
    ensures Holds(t, i, t.segments[i].startS)
  {
    StartsBound(t, i);
    if i + 1 < |t.segments| {
      assert t.segments[i + 1].startS == EndS(t.segments[i]);
    }
  }

  /** The arc length to_frenet gives is that of the nearest point. */
  lemma FrenetNamesFoot(t: Track, p: Point)
    requires Valid(t)
    ensures ToCartesian(t, ToFrenet(t, p).s, 0.0) == Foot(t, p, Nearest(t, p, |t.segments|))
  {
    hide Valid, Foot, Nearest, ToCartesian, Ratio, Times;
    SegmentCounted(t);
    var i := Nearest(t, p, |t.segments|);
    FootIs(t, p, i);
    CentreAt(t, i, ClampTo(Shadow(t, p, i), t.segments[i].length));
  }

  lemma SamePoint(p: Point, q: Point)
    requires Distance2(p, q) <= 0.0
    ensures p == q
  {
    hide Norm2, Times;
    var d := Minus(p, q);
    NormNonNegative(d);
    ZeroNorm(d);
  }

  lemma NoDistance(p: Point)
    ensures Distance2(p, p) == 0.0
  {
  }

  /** A centreline point comes back with no offset, under an arc length that names
      the same point. */
  lemma RoundTrip(t: Track, s: real)
    requires Valid(t)
    ensures var p := ToCartesian(t, s, 0.0);
      ToFrenet(t, p).d == 0.0 && ToCartesian(t, ToFrenet(t, p).s, 0.0) == p
  {
    hide Valid, Distance2, Foot, Nearest, ToCartesian, Ratio, Times, Minus, Dot;
    SegmentCounted(t);
    var p := ToCartesian(t, s, 0.0);
    var i := Nearest(t, p, |t.segments|);
    FrenetNearest(t, p, s);
    NoDistance(p);
    SamePoint(p, Foot(t, p, i));
    FrenetNamesFoot(t, p);
    NoDot(p, Normal(t.segments[i].unit));
  }

  lemma NoDot(p: Point, n: Point)
    ensures Dot(Minus(p, p), n) == 0.0
  {
  }

  predicate OnTrack(t: Track, s: real) {
    0.0 <= s <= t.length && (t.closed ==> s < t.length)
  }

  /** The centreline never meets itself. */
  ghost predicate Simple(t: Track)
    requires Valid(t)
  {
    forall a: real, b: real ::
      OnTrack(t, a) && OnTrack(t, b) && ToCartesian(t, a, 0.0) == ToCartesian(t, b, 0.0) ==> a == b
  }

  lemma WrappedTwice(t: Track, s: real)
    requires Valid(t) && t.length > 0.0
    ensures OnTrack(t, Wrapped(t, s)) && Wrapped(t, Wrapped(t, s)) == Wrapped(t, s)
    ensures ToCartesian(t, Wrapped(t, s), 0.0) == ToCartesian(t, s, 0.0)
  {
    hide Norm2, Along, Valid, SegmentAt, Wrapped;
    WrappedRange(t, s);
    WrappedInside(t, Wrapped(t, s));
  }

  lemma FrenetRange(t: Track, p: Point)
    requires Valid(t)
    ensures var i := Nearest(t, p, |t.segments|);
      t.segments[i].startS <= ToFrenet(t, p).s <= EndS(t.segments[i]) <= t.length && 0.0 <= t.segments[i].startS
  {
    hide Valid, Foot, Nearest, Ratio, Times;
    SegmentCounted(t);
    var i := Nearest(t, p, |t.segments|);
    FootIs(t, p, i);
    StartsBound(t, i);
  }

  /** The seam is found at its start, not its end: the first nearest segment wins. */
  lemma SeamAtStart(t: Track, s: real)
    requires Valid(t) && t.closed
    ensures ToFrenet(t, ToCartesian(t, s, 0.0)).s < t.length
  {
    hide Valid, Distance2, Foot, Nearest, ToCartesian, Ratio, Times, Minus, Dot;
    SegmentCounted(t);
    LengthPositive(t);
    var p := ToCartesian(t, s, 0.0);
    var i := Nearest(t, p, |t.segments|);
    FrenetRange(t, p);
    if ToFrenet(t, p).s >= t.length {
      RoundTrip(t, s);
      SeamIsStart(t);
      CentreAt(t, 0, 0.0);
      FootLeast(t, p, 0, 0.0);
      NoDistance(p);
      FirstNotLast(t, i);
      NearestLeast(t, p, |t.segments|, 0);
      DistanceNonNegative(p, Foot(t, p, i));
    }
  }

  lemma DistanceNonNegative(p: Point, q: Point)
    ensures Distance2(p, q) >= 0.0
  {
    NormNonNegative(Minus(p, q));
  }

  lemma SeamIsStart(t: Track)
    requires Valid(t) && t.closed && t.length > 0.0
    ensures t.segments[0].startS == 0.0 && t.segments[0].length > 0.0
    ensures ToCartesian(t, t.length, 0.0) == ToCartesian(t, 0.0, 0.0)
  {
    hide Norm2, Along, SegmentAt, Wrapped;
    WrappedInside(t, t.length);
    WrappedInside(t, 0.0);
    assert Joins(t.points, t.segments[0], 0);
  }

  lemma FirstNotLast(t: Track, i: nat)
    requires Valid(t) && t.closed && i < |t.segments| && EndS(t.segments[i]) >= t.length
    ensures i > 0
  {
    StartsRise(t, 0, 1);
    StartsBound(t, 1);
  }

  /** On a simple centreline the arc length itself comes back, wrapped. */
  lemma ArcLengthRecovered(t: Track, s: real)
    requires Valid(t) && Simple(t)
    ensures t.length > 0.0 && ToFrenet(t, ToCartesian(t, s, 0.0)).s == Wrapped(t, s)
  {
    hide Valid, ToFrenet, Nearest, ToCartesian, Wrapped;
    LengthPositive(t);
    var p := ToCartesian(t, s, 0.0);
    var r := ToFrenet(t, p).s;
    RoundTrip(t, s);
    WrappedTwice(t, s);
    FrenetRange(t, p);
    if t.closed {
      SeamAtStart(t, s);
    }
    assert OnTrack(t, r);
  }

  // --- positions off the centreline

  /** A vector in the frame of a unit vector and its normal. */
  lemma InFrame(v: Point, u: Point)
    requires Norm2(u) == 1.0
    ensures v == Along(Along(Point(0.0, 0.0), u, Dot(v, u)), Normal(u), Dot(v, Normal(u)))
    ensures Norm2(v) == Times(Dot(v, u), Dot(v, u)) + Times(Dot(v, Normal(u)), Dot(v, Normal(u)))
  {
    assert v.x * Norm2(u) == v.x && v.y * Norm2(u) == v.y;
    assert Norm2(v) * Norm2(u) == Norm2(v);
  }

  lemma NormalNorm(u: Point, d: real)
    requires Norm2(u) == 1.0
    ensures Norm2(Along(Point(0.0, 0.0), Normal(u), d)) == Times(d, d)
  {
    assert d * d * Norm2(u) == d * d;
  }

  lemma ZeroSquare(a: real)
    requires Times(a, a) == 0.0
    ensures a == 0.0
  {
    hide Times;
    if a != 0.0 {
      SquarePositive(a);
    }
  }

  /** A vector equals its normal part carried to another frame exactly when it has
      no part along its own and the frames agree, or it is zero. */
  lemma CarriedExact(v: Point, u: Point, w: Point)
    requires Norm2(u) == 1.0 && Norm2(w) == 1.0
    ensures v == Along(Point(0.0, 0.0), Normal(w), Dot(v, Normal(u))) <==>
      Dot(v, u) == 0.0 && (Dot(v, Normal(u)) == 0.0 || w == u)
  {
    hide Norm2, Dot, Times;
    var d := Dot(v, Normal(u));
    InFrame(v, u);
    NoOffset(Point(0.0, 0.0), u);
    if v == Along(Point(0.0, 0.0), Normal(w), d) {
      NormalNorm(w, d);
      ZeroSquare(Dot(v, u));
      if d != 0.0 {
        Cancel(d, u.x, w.x);
        Cancel(d, u.y, w.y);
      }
    }
    if d == 0.0 {
      NoOffset(Point(0.0, 0.0), Normal(u));
      NoOffset(Point(0.0, 0.0), Normal(w));
    }
  }

  lemma Cancel(d: real, a: real, b: real)
    requires d != 0.0 && (d * a == d * b || d * -a == d * -b)
    ensures a == b
  {
    assert d * (a - b) == 0.0;
  }

  /** The segment after i; the last of an open track has none but itself. */
  function Following(t: Track, i: nat): (r: nat)
    requires i < |t.segments|
    ensures r < |t.segments|
  {
    if i + 1 < |t.segments| then i + 1 else if t.closed then 0 else i
  }

  /** Short of its end a segment's arc length looks up the segment itself, at its end
      the one after it. */
  lemma LookedUpAt(t: Track, i: nat, a: real)
    requires Valid(t) && t.length > 0.0 && i < |t.segments| && 0.0 <= a <= t.segments[i].length
    ensures SegmentAt(t, Wrapped(t, t.segments[i].startS + a)) ==
      if a < t.segments[i].length then i else Following(t, i)
  {
    hide Norm2, Along, Wrapped, SegmentAt;
    var g, s := t.segments[i], t.segments[i].startS + a;
    StartsBound(t, i);
    WrappedInside(t, s);
    if a < g.length {
      InsideLength(t, i, s);
      ShortOfEnd(t, i, s);
      HoldsOnce(t, i, s);
    } else if i + 1 < |t.segments| {
      assert t.segments[i + 1].startS == EndS(g);
      StartsBound(t, i + 1);
      NextHolds(t, i + 1);
      HoldsOnce(t, i + 1, s);
    } else if t.closed {
      StartsBound(t, 0);
      NextHolds(t, 0);
      HoldsOnce(t, 0, 0.0);
    } else {
      HoldsOnce(t, i, s);
    }
  }

  lemma ToCartesianIs(t: Track, s: real, d: real)
    requires Valid(t) && t.length > 0.0
    ensures ToCartesian(t, s, d) ==
      Along(ToCartesian(t, s, 0.0), Normal(t.segments[SegmentAt(t, Wrapped(t, s))].unit), d)
  {
    hide Wrapped, SegmentAt, Norm2;
    var w := Wrapped(t, s);
    var g := t.segments[SegmentAt(t, w)];
    assert Joins(t.points, g, SegmentAt(t, w));
    NoOffset(Along(t.points[g.start].at, g.unit, Min(w - g.startS, g.length)), Normal(g.unit));
  }

  lemma AlongMinus(p: Point, q: Point, u: Point, d: real)
    ensures Along(q, u, d) == p <==> Minus(p, q) == Along(Point(0.0, 0.0), u, d)
  {
  }

  /** What lies past the end of the segment, seen along it. */
  lemma BeyondFoot(p: Point, q: Point, u: Point, a: real)
    requires Norm2(u) == 1.0
    ensures Dot(Minus(p, Along(q, u, a)), u) == Dot(Minus(p, q), u) - a
  {
    assert a * Norm2(u) == a;
  }

  /** The foot leaves the offset across the segment as it was. */
  lemma AcrossFoot(p: Point, q: Point, u: Point, a: real)
    ensures Dot(Minus(p, Along(q, u, a)), Normal(u)) == Dot(Minus(p, q), Normal(u))
  {
    assert a * u.x * -u.y + a * u.y * u.x == 0.0;
  }

  /** How far p lies off the line of segment i. */
  function Across(t: Track, p: Point, i: nat): real
    requires i < |t.segments| && t.segments[i].start < |t.points|
  {
    Dot(Minus(p, t.points[t.segments[i].start].at), Normal(t.segments[i].unit))
  }

  /** A position comes back exactly when it projects inside its nearest segment, and,
      should it project on the very end, lies on the segment's line or the next
      segment goes the same way; the last of an open track has no next. */
  lemma PoseExact(t: Track, p: Point)
    requires Valid(t)
    ensures var i := Nearest(t, p, |t.segments|);
      && t.segments[i].start < |t.points|
      && (ToCartesian(t, ToFrenet(t, p).s, ToFrenet(t, p).d) == p <==>
            && 0.0 <= Shadow(t, p, i) <= t.segments[i].length
            && (|| Shadow(t, p, i) < t.segments[i].length || Across(t, p, i) == 0.0
                || t.segments[Following(t, i)].unit == t.segments[i].unit))
  {
    hide Valid, Norm2, Along, Dot, Times, Ratio, Foot, Nearest, ToCartesian, Minus, Wrapped, SegmentAt, Following;
    SegmentCounted(t);
    LengthPositive(t);
    var i := Nearest(t, p, |t.segments|);
    FootIs(t, p, i);
    var f, a := ToFrenet(t, p), ClampTo(Shadow(t, p, i), t.segments[i].length);
    var k := SegmentAt(t, Wrapped(t, f.s));
    var u, w := t.segments[i].unit, t.segments[k].unit;
    var foot := Foot(t, p, i);
    LookedUpAt(t, i, a);
    UnitAt(t, i);
    UnitAt(t, k);
    FrenetNamesFoot(t, p);
    ToCartesianIs(t, f.s, f.d);
    AlongMinus(p, foot, Normal(w), f.d);
    CarriedExact(Minus(p, foot), u, w);
    BeyondFoot(p, t.points[i].at, u, a);
    AcrossFoot(p, t.points[i].at, u, a);
  }

  lemma UnitAt(t: Track, i: nat)
    requires Valid(t) && i < |t.segments|
    ensures Norm2(t.segments[i].unit) == 1.0
  {
    assert Joins(t.points, t.segments[i], i);
  }

  /** In particular every position that projects short of its segment's end. */
  lemma InteriorRecovered(t: Track, p: Point)
    requires Valid(t)
    requires var i := Nearest(t, p, |t.segments|);
      t.segments[i].start < |t.points| && 0.0 <= Shadow(t, p, i) < t.segments[i].length
    ensures ToCartesian(t, ToFrenet(t, p).s, ToFrenet(t, p).d) == p
  {
    hide Valid, Along, Dot, Nearest, ToCartesian, ToFrenet, Minus;
    PoseExact(t, p);
  }

  lemma ShortOfEnd(t: Track, i: nat, s: real)
    requires Valid(t) && i < |t.segments| && t.segments[i].startS <= s < EndS(t.segments[i])
    ensures Holds(t, i, s)
  {
    if i + 1 < |t.segments| {
      assert t.segments[i + 1].startS == EndS(t.segments[i]);
    }
  }

  // --- inside the walls

  function Between(a: real, b: real, ratio: real): real {
    a + (b - a) * ratio
  }

  datatype Widths = Widths(left: real, right: real)

  /** The track's widths at an arc length, between those of the points around it. */
  function WidthsAt(t: Track, s: real): Widths
    requires Valid(t)
  {
    var k := SegmentAt(t, s);
    var g := t.segments[k];
    assert Joins(t.points, g, k);
    var a, b := t.points[g.start], t.points[After(|t.points|, g.start)];
    var ratio := Unit((s - g.startS) / g.length);
    Widths(Between(a.left, b.left, ratio), Between(a.right, b.right, ratio))
  }

  predicate Fits(d: real, half: real, w: Widths) {
    half >= 0.0 && d + half <= w.left && d - half >= -w.right
  }

  predicate IsInside(t: Track, f: Frenet, half: real)
    requires Valid(t)
  {
    if half < 0.0 then false
    else
      var centre := ToCartesian(t, f.s, 0.0);
      Fits(f.d, half, WidthsAt(t, ToFrenet(t, centre).s))
  }

  lemma BetweenPositive(a: real, b: real, ratio: real)
    requires a > 0.0 && b > 0.0 && 0.0 <= ratio <= 1.0
    ensures Between(a, b, ratio) > 0.0
  {
    ProductNonNegative(b, ratio);
    ProductNonNegative(a, 1.0 - ratio);
    assert Between(a, b, ratio) == a * (1.0 - ratio) + b * ratio;
    if ratio > 0.5 {
      ProductPositive(b, ratio);
    } else {
      ProductPositive(a, 1.0 - ratio);
    }
  }

  /** Inside is never empty: the centreline itself always is. */
  lemma CentreInside(t: Track, s: real)
    requires Valid(t)
    ensures IsInside(t, Frenet(s, 0.0), 0.0)
  {
    hide Norm2, ToFrenet, ToCartesian, SegmentAt, Along, Nearest;
    var r := ToFrenet(t, ToCartesian(t, s, 0.0)).s;
    var k := SegmentAt(t, r);
    var g := t.segments[k];
    assert Joins(t.points, g, k);
    var a, b := t.points[g.start], t.points[After(|t.points|, g.start)];
    assert Wide(a) && Wide(b);
    var ratio := Unit((r - g.startS) / g.length);
    BetweenPositive(a.left, b.left, ratio);
    BetweenPositive(a.right, b.right, ratio);
  }
}
