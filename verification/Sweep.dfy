/**
 Walls with every disc taken out of their segments: each disc shadows a span
 of the segment's parameter, and one sweep over the sorted spans keeps the rest.
 */
module Sweep {
  import opened Geometry
  import opened NearestEdges
  import opened Products
  import opened Reals

  const TOLERANCE: real := 0.000000000001

  datatype Disc = Disc(centre: Point, radius: real)

  /** A stretch of the parameter, from lo to hi. */
  datatype Span = Span(lo: real, hi: real)

  // --- the sweep over spans

  predicate Before(a: Span, b: Span) {
    a.lo < b.lo || (a.lo == b.lo && a.hi <= b.hi)
  }

  function InsertSpan(x: Span, s: seq<Span>): seq<Span> {
    if s == [] || Before(x, s[0]) then [x] + s else [s[0]] + InsertSpan(x, s[1..])
  }

  function SortSpans(s: seq<Span>): seq<Span> {
    if s == [] then [] else InsertSpan(s[0], SortSpans(s[1..]))
  }

  ghost predicate Sorted(s: seq<Span>) {
    forall i, j :: 0 <= i < j < |s| ==> Before(s[i], s[j])
  }

  lemma {:induction false} InsertKeeps(x: Span, s: seq<Span>)
    requires Sorted(s)
    ensures Sorted(InsertSpan(x, s)) && multiset(InsertSpan(x, s)) == multiset(s) + multiset{x}
  {
    if s != [] && !Before(x, s[0]) {
      var rest := InsertSpan(x, s[1..]);
      InsertKeeps(x, s[1..]);
      assert s == [s[0]] + s[1..];
      forall j | 0 <= j < |rest|
        ensures Before(s[0], rest[j])
      {
        assert rest[j] in multiset(rest);
        if rest[j] != x {
          var k :| 0 <= k < |s[1..]| && s[1..][k] == rest[j];
          assert Before(s[0], s[k + 1]);
        }
      }
    } else if s != [] {
      assert forall j :: 0 < j < |s| ==> Before(s[0], s[j]);
    }
  }

  lemma {:induction false} SortSpansSorts(s: seq<Span>)
    ensures Sorted(SortSpans(s)) && multiset(SortSpans(s)) == multiset(s)
  {
    if s != [] {
      SortSpansSorts(s[1..]);
      InsertKeeps(s[0], SortSpans(s[1..]));
      assert s == [s[0]] + s[1..];
    }
  }

  lemma SortSpansSame(s: seq<Span>)
    ensures forall x :: x in SortSpans(s) <==> x in s
  {
    SortSpansSorts(s);
    assert forall x :: x in SortSpans(s) <==> x in multiset(SortSpans(s));
  }

  /** The stretch up to the next span, and the last one, where long enough. */
  function UpTo(s: Span, t: real): seq<Span> {
    if s.lo > t + TOLERANCE then [Span(t, s.lo)] else []
  }

  function ToEnd(t: real): seq<Span> {
    if t < 1.0 - TOLERANCE then [Span(t, 1.0)] else []
  }

  /** What the sweep keeps from t on. */
  function Kept(spans: seq<Span>, t: real): seq<Span> {
    if spans == [] then ToEnd(t) else UpTo(spans[0], t) + Kept(spans[1..], Max(t, spans[0].hi))
  }

  lemma KeptStep(spans: seq<Span>, k: nat, t: real, before: seq<Span>)
    requires k < |spans|
    ensures before + Kept(spans[k..], t) == before + UpTo(spans[k], t) + Kept(spans[k + 1..], Max(t, spans[k].hi))
  {
    hide UpTo, ToEnd, Max;
    assert spans[k..][1..] == spans[k + 1..];
  }

  predicate Proper(s: Span) {
    0.0 <= s.lo < s.hi <= 1.0
  }

  ghost predicate AllProper(spans: seq<Span>) {
    forall i :: 0 <= i < |spans| ==> Proper(spans[i])
  }

  /** Overlapping and nested spans included: the pieces follow each other without
      overlap, and none meets the inside of a span. */
  lemma {:induction false} KeptOrdered(spans: seq<Span>, t: real)
    requires 0.0 <= t && AllProper(spans)
    requires Sorted(spans)
    ensures var r := Kept(spans, t);
      && AllProper(r)
      && (forall k :: 0 <= k < |r| ==> t <= r[k].lo)
      && (forall k, h :: 0 <= k < h < |r| ==> r[k].hi <= r[h].lo)
  {
    if spans != [] {
      var s, next := spans[0], Max(t, spans[0].hi);
      KeptOrdered(spans[1..], next);
      var rest := Kept(spans[1..], next);
      assert forall k :: 0 <= k < |rest| ==> s.lo <= rest[k].lo;
    }
  }

  lemma {:induction false} KeptClear(spans: seq<Span>, t: real, x: Span)
    requires Sorted(spans) && x in spans
    ensures forall k :: 0 <= k < |Kept(spans, t)| ==>
      Kept(spans, t)[k].hi <= x.lo || x.hi <= Kept(spans, t)[k].lo
  {
    var s, next := spans[0], Max(t, spans[0].hi);
    var rest := Kept(spans[1..], next);
    assert s == x || x in spans[1..];
    assert s.lo <= x.lo;
    if s == x {
      KeptFrom(spans[1..], next);
    } else {
      KeptClear(spans[1..], next, x);
    }
  }

  lemma {:induction false} KeptFrom(spans: seq<Span>, t: real)
    ensures forall k :: 0 <= k < |Kept(spans, t)| ==> t <= Kept(spans, t)[k].lo
  {
    if spans != [] {
      KeptFrom(spans[1..], Max(t, spans[0].hi));
    }
  }

  predicate In(u: real, s: Span) {
    s.lo <= u <= s.hi
  }

  predicate Inside(u: real, s: Span) {
    s.lo < u < s.hi
  }

  /** A stretch too short to keep: from a span's end to the next span's start,
      the segment's own ends standing in for spans. */
  ghost predicate Gap(spans: seq<Span>, u: real, g: Span) {
    && In(u, g) && g.hi - g.lo <= 0.000000000001
    && (g.lo == 0.0 || EndsAt(spans, g.lo)) && (g.hi == 1.0 || StartsAt(spans, g.hi))
  }

  ghost predicate EndsAt(spans: seq<Span>, t: real) {
    exists i :: 0 <= i < |spans| && spans[i].hi == t
  }

  ghost predicate StartsAt(spans: seq<Span>, t: real) {
    exists i :: 0 <= i < |spans| && spans[i].lo == t
  }

  /** Whatever no span covers is kept, or lies in a gap within the tolerance. */
  lemma {:induction false} KeptComplete(all: seq<Span>, k: nat, t: real, u: real)
    requires AllProper(all) && k <= |all|
    requires t == 0.0 || EndsAt(all, t)
    requires t <= u <= 1.0
    requires forall i :: 0 <= i < |all| ==> !Inside(u, all[i])
    ensures (exists j :: 0 <= j < |Kept(all[k..], t)| && In(u, Kept(all[k..], t)[j])) || (exists g :: Gap(all, u, g))
    decreases |all| - k
  {
    var spans := all[k..];
    var r := Kept(spans, t);
    if spans == [] {
      if t < 1.0 - TOLERANCE {
        assert Kept(all[k..], t) == [Span(t, 1.0)];
        assert In(u, Kept(all[k..], t)[0]);
      } else {
        assert Gap(all, u, Span(t, 1.0));
      }
    } else {
      var s := spans[0];
      assert s == all[k] && spans[1..] == all[k + 1..];
      var first := UpTo(s, t);
      var rest := Kept(all[k + 1..], Max(t, s.hi));
      assert r == first + rest;
      if u <= s.lo {
        if s.lo > t + TOLERANCE {
          assert Kept(all[k..], t)[0] == Span(t, s.lo);
          assert In(u, Kept(all[k..], t)[0]);
        } else {
          assert StartsAt(all, s.lo);
          assert Gap(all, u, Span(t, s.lo));
        }
      } else {
        assert !Inside(u, all[k]);
        assert EndsAt(all, s.hi);
        KeptComplete(all, k + 1, Max(t, s.hi), u);
        if j :| 0 <= j < |rest| && In(u, rest[j]) {
          assert Kept(all[k..], t)[|first| + j] == rest[j];
          assert In(u, Kept(all[k..], t)[|first| + j]);
        }
      }
    }
  }

  // --- the span a disc cuts from a segment

  function QuadA(e: Edge): real {
    Norm2(Minus(e.end, e.start))
  }

  function QuadB(e: Edge, disc: Disc): real {
    2.0 * Dot(Minus(e.end, e.start), Minus(e.start, disc.centre))
  }

  function QuadC(e: Edge, disc: Disc): real {
    Norm2(Minus(e.start, disc.centre)) - disc.radius * disc.radius
  }

  function Delta(a: real, b: real, c: real): real {
    b * b - 4.0 * a * c
  }

  function Value(a: real, b: real, c: real, t: real): real {
    t * t * a + t * b + c
  }

  function Discriminant(e: Edge, disc: Disc): real {
    Delta(QuadA(e), QuadB(e, disc), QuadC(e, disc))
  }

  /** Square roots enter as a function that is right where it is used. */
  predicate IsRoot(x: real, root: real) {
    x >= 0.0 ==> root >= 0.0 && root * root == x
  }

  predicate Rooted(sqrt: real -> real, e: Edge, discs: seq<Disc>) {
    forall k :: 0 <= k < |discs| ==> IsRoot(Discriminant(e, discs[k]), sqrt(Discriminant(e, discs[k])))
  }

  function Low(a: real, b: real, q: real): real
    requires a > 0.0
  {
    (-b - q) / (2.0 * a)
  }

  function High(a: real, b: real, q: real): real
    requires a > 0.0
  {
    (-b + q) / (2.0 * a)
  }

  function Clip(t0: real, t1: real): seq<Span> {
    if t1 > 0.0 && t0 < 1.0 then [Span(Max(t0, 0.0), Min(t1, 1.0))] else []
  }

  function SpansOf(sqrt: real -> real, e: Edge, disc: Disc): seq<Span> {
    var qa, qb, d := QuadA(e), QuadB(e, disc), Discriminant(e, disc);
    if qa <= 0.0 || d <= 0.0 then []
    else Clip(Low(qa, qb, sqrt(d)), High(qa, qb, sqrt(d)))
  }

  /** Strictly inside the disc. */
  predicate Within(p: Point, disc: Disc) {
    Distance2(p, disc.centre) < disc.radius * disc.radius
  }

  lemma AxisSquare(a: real, d: real, c: real, t: real)
    ensures (a + t * d - c) * (a + t * d - c) == t * t * (d * d) + t * (2.0 * (d * (a - c))) + (a - c) * (a - c)
  {
  }

  /** Along the segment, how far inside the disc a point is, is a quadratic. */
  lemma Quadratic(e: Edge, disc: Disc, t: real)
    ensures Distance2(PointOn(e, t), disc.centre) - disc.radius * disc.radius ==
      Value(QuadA(e), QuadB(e, disc), QuadC(e, disc), t)
  {
    var d := Minus(e.end, e.start);
    AxisSquare(e.start.x, d.x, disc.centre.x, t);
    AxisSquare(e.start.y, d.y, disc.centre.y, t);
  }

  lemma WithinExact(e: Edge, disc: Disc, t: real)
    ensures Within(PointOn(e, t), disc) <==> Value(QuadA(e), QuadB(e, disc), QuadC(e, disc), t) < 0.0
  {
    hide Value, Distance2, PointOn;
    Quadratic(e, disc, t);
  }

  lemma CompleteSquare(a: real, b: real, c: real, t: real)
    ensures 4.0 * a * Value(a, b, c, t) == (2.0 * a * t + b) * (2.0 * a * t + b) - Delta(a, b, c)
  {
  }

  lemma SquareBelow(u: real, q: real)
    requires q >= 0.0
    ensures u * u < q * q <==> -q < u < q
  {
    Conjugates(u, q);
    if -q < u < q {
      TimesPositive(q - u, q + u);
    } else if u >= q {
      TimesNonNegative(u - q, u + q);
      Flipped(u, q);
    } else {
      TimesNonNegative(-u - q, -u + q);
      FlippedBoth(u, q);
    }
  }

  lemma Conjugates(u: real, q: real)
    ensures Times(q - u, q + u) == q * q - u * u
  {
  }

  lemma Flipped(u: real, q: real)
    ensures Times(u - q, u + q) == -Times(q - u, q + u)
  {
  }

  lemma FlippedBoth(u: real, q: real)
    ensures Times(-u - q, -u + q) == -Times(q - u, q + u)
  {
  }

  lemma SignOfProduct(a: real, b: real)
    requires a > 0.0
    ensures a * b < 0.0 <==> b < 0.0
  {
    if b < 0.0 {
      ProductPositive(a, -b);
    } else {
      ProductNonNegative(a, b);
    }
  }

  lemma Divided(x: real, y: real, t: real)
    requires y > 0.0
    ensures x / y < t <==> x < y * t
    ensures t < x / y <==> y * t < x
  {
    var z := x / y;
    assert z * y == x;
    SignOfProduct(y, z - t);
    SignOfProduct(y, t - z);
    assert y * (z - t) == x - y * t && y * (t - z) == y * t - x;
  }

  /** The roots bracket exactly the points inside. */
  lemma BetweenRoots(a: real, b: real, c: real, q: real, t: real)
    requires a > 0.0 && q >= 0.0 && q * q == Delta(a, b, c)
    ensures Value(a, b, c, t) < 0.0 <==> Low(a, b, q) < t < High(a, b, q)
  {
    hide Value, Delta;
    var f, u := Value(a, b, c, t), 2.0 * a * t + b;
    CompleteSquare(a, b, c, t);
    SignOfProduct(4.0 * a, f);
    SquareBelow(u, q);
    Divided(-b - q, 2.0 * a, t);
    Divided(-b + q, 2.0 * a, t);
    assert u * u - q * q == 4.0 * a * f;
  }

  lemma NoRoots(a: real, b: real, c: real, t: real)
    requires a > 0.0 && Delta(a, b, c) <= 0.0
    ensures Value(a, b, c, t) >= 0.0
  {
    hide Value, Delta;
    var f, u := Value(a, b, c, t), 2.0 * a * t + b;
    CompleteSquare(a, b, c, t);
    SignOfProduct(4.0 * a, f);
    SquareNonNegative(u);
  }

  lemma RootsApart(a: real, b: real, q: real)
    requires a > 0.0 && q > 0.0
    ensures Low(a, b, q) < High(a, b, q)
  {
    var z := High(a, b, q);
    assert z * (2.0 * a) == -b + q;
    Divided(-b - q, 2.0 * a, z);
    assert 2.0 * a * z == z * (2.0 * a);
  }

  lemma RootPositive(d: real, q: real)
    requires IsRoot(d, q) && d > 0.0
    ensures q > 0.0 && q * q == d
  {
  }

  /** Cut to the segment: a point of it between the roots is in what is left of
      the span, and on its edge only where the segment itself ends. */
  predicate Covers(s: seq<Span>, t: real) {
    s != [] && Proper(s[0]) && In(t, s[0]) && (t == s[0].lo ==> t == 0.0) && (t == s[0].hi ==> t == 1.0)
  }

  /** On a segment with length, the span is proper, covers every point inside the
      disc, and nothing but such points is inside it. */
  lemma SpanExact(sqrt: real -> real, e: Edge, disc: Disc, t: real)
    requires IsRoot(Discriminant(e, disc), sqrt(Discriminant(e, disc)))
    requires QuadA(e) > 0.0 && 0.0 <= t <= 1.0
    ensures AllProper(SpansOf(sqrt, e, disc))
    ensures Within(PointOn(e, t), disc) ==> Covers(SpansOf(sqrt, e, disc), t)
    ensures SpansOf(sqrt, e, disc) != [] && Inside(t, SpansOf(sqrt, e, disc)[0]) ==> Within(PointOn(e, t), disc)
  {
    hide Within, PointOn, QuadA, QuadB, QuadC, Delta, Value, IsRoot, Low, High;
    var qa, qb, qc, d := QuadA(e), QuadB(e, disc), QuadC(e, disc), Discriminant(e, disc);
    WithinExact(e, disc, t);
    if d <= 0.0 {
      NoRoots(qa, qb, qc, t);
    } else {
      var q := sqrt(d);
      RootPositive(d, q);
      BetweenRoots(qa, qb, qc, q, t);
      RootsApart(qa, qb, q);
      assert SpansOf(sqrt, e, disc) == Clip(Low(qa, qb, q), High(qa, qb, q));
    }
  }

  // --- one segment

  function SpansFrom(sqrt: real -> real, e: Edge, discs: seq<Disc>): seq<Span> {
    if discs == [] then []
    else SpansFrom(sqrt, e, discs[..|discs| - 1]) + SpansOf(sqrt, e, discs[|discs| - 1])
  }

  lemma {:induction false} SpansFromHas(sqrt: real -> real, e: Edge, discs: seq<Disc>, k: nat)
    requires k < |discs| && SpansOf(sqrt, e, discs[k]) != []
    ensures SpansOf(sqrt, e, discs[k])[0] in SpansFrom(sqrt, e, discs)
    decreases |discs|
  {
    hide SpansOf;
    if k < |discs| - 1 {
      SpansFromHas(sqrt, e, discs[..|discs| - 1], k);
    }
  }

  lemma {:induction false} SpansFromOnly(sqrt: real -> real, e: Edge, discs: seq<Disc>, h: nat) returns (k: nat)
    requires h < |SpansFrom(sqrt, e, discs)|
    ensures k < |discs| && SpansOf(sqrt, e, discs[k]) == [SpansFrom(sqrt, e, discs)[h]]
    decreases |discs|
  {
    var init := discs[..|discs| - 1];
    if h < |SpansFrom(sqrt, e, init)| {
      k := SpansFromOnly(sqrt, e, init, h);
    } else {
      k := |discs| - 1;
    }
  }

  /** The pieces a segment with spans is cut into, by parameter. */
  function PiecesOf(sqrt: real -> real, e: Edge, discs: seq<Disc>): seq<Span> {
    Kept(SortSpans(SpansFrom(sqrt, e, discs)), 0.0)
  }

  lemma SpansProper(sqrt: real -> real, e: Edge, discs: seq<Disc>)
    requires Rooted(sqrt, e, discs) && QuadA(e) > 0.0
    ensures AllProper(SpansFrom(sqrt, e, discs)) && AllProper(SortSpans(SpansFrom(sqrt, e, discs)))
  {
    hide Proper, SpansOf, QuadA, Discriminant, IsRoot;
    var spans := SpansFrom(sqrt, e, discs);
    forall h | 0 <= h < |spans|
      ensures Proper(spans[h])
    {
      var k := SpansFromOnly(sqrt, e, discs, h);
      SpanExact(sqrt, e, discs[k], 0.0);
      assert Proper(SpansOf(sqrt, e, discs[k])[0]);
    }
    SortSpansSame(spans);
    forall h | 0 <= h < |SortSpans(spans)|
      ensures Proper(SortSpans(spans)[h])
    {
      assert SortSpans(spans)[h] in spans;
    }
  }

  /** No point of a kept piece is inside a disc. */
  lemma PieceClear(sqrt: real -> real, e: Edge, discs: seq<Disc>, j: nat, u: real, k: nat)
    requires Rooted(sqrt, e, discs) && QuadA(e) > 0.0
    requires j < |PiecesOf(sqrt, e, discs)| && In(u, PiecesOf(sqrt, e, discs)[j]) && k < |discs|
    ensures !Within(PointOn(e, u), discs[k])
  {
    hide Within, PointOn, QuadA, SpansOf, Discriminant, IsRoot, SpansFrom, Kept, SortSpans, Before;
    var spans := SpansFrom(sqrt, e, discs);
    var sorted, piece := SortSpans(spans), PiecesOf(sqrt, e, discs)[j];
    SpansProper(sqrt, e, discs);
    SortSpansSorts(spans);
    SortSpansSame(spans);
    KeptOrdered(sorted, 0.0);
    assert Proper(piece);
    SpanExact(sqrt, e, discs[k], u);
    if Within(PointOn(e, u), discs[k]) {
      var x := SpansOf(sqrt, e, discs[k])[0];
      SpansFromHas(sqrt, e, discs, k);
      KeptClear(sorted, 0.0, x);
    }
  }

  /** A segment with no span has no point inside a disc. */
  lemma WholeClear(sqrt: real -> real, e: Edge, discs: seq<Disc>, u: real, k: nat)
    requires Rooted(sqrt, e, discs) && QuadA(e) > 0.0 && SpansFrom(sqrt, e, discs) == []
    requires 0.0 <= u <= 1.0 && k < |discs|
    ensures !Within(PointOn(e, u), discs[k])
  {
    hide Within, PointOn, QuadA, SpansOf, Discriminant, IsRoot, SpansFrom;
    SpanExact(sqrt, e, discs[k], u);
    if SpansOf(sqrt, e, discs[k]) != [] {
      SpansFromHas(sqrt, e, discs, k);
    }
  }

  /** A point no disc holds is on a kept piece, or in a gap within the tolerance. */
  lemma OutsideKept(sqrt: real -> real, e: Edge, discs: seq<Disc>, u: real)
    requires Rooted(sqrt, e, discs) && QuadA(e) > 0.0 && 0.0 <= u <= 1.0
    requires forall k :: 0 <= k < |discs| ==> !Within(PointOn(e, u), discs[k])
    ensures (exists j :: 0 <= j < |PiecesOf(sqrt, e, discs)| && In(u, PiecesOf(sqrt, e, discs)[j])) ||
      exists g :: Gap(SortSpans(SpansFrom(sqrt, e, discs)), u, g)
  {
    hide Within, PointOn, QuadA, SpansOf, Discriminant, IsRoot, SpansFrom, Kept, SortSpans, Gap;
    var spans := SpansFrom(sqrt, e, discs);
    var sorted := SortSpans(spans);
    SpansProper(sqrt, e, discs);
    SortSpansSame(spans);
    forall i | 0 <= i < |sorted|
      ensures !Inside(u, sorted[i])
    {
      assert sorted[i] in spans;
      var h :| 0 <= h < |spans| && spans[h] == sorted[i];
      var k := SpansFromOnly(sqrt, e, discs, h);
      SpanExact(sqrt, e, discs[k], u);
    }
    assert sorted[0..] == sorted;
    assert PiecesOf(sqrt, e, discs) == Kept(sorted[0..], 0.0);
    KeptComplete(sorted, 0, 0.0, u);
  }

  // --- every segment

  function PieceOf(e: Edge, s: Span): Edge {
    Edge(PointOn(e, s.lo), PointOn(e, s.hi))
  }

  function PieceEdges(e: Edge, pieces: seq<Span>): (r: seq<Edge>)
    ensures |r| == |pieces| && forall j :: 0 <= j < |r| ==> r[j] == PieceOf(e, pieces[j])
  {
    seq(|pieces|, j requires 0 <= j < |pieces| => PieceOf(e, pieces[j]))
  }

  /** The parameter v of the way along a piece. */
  function Share(s: Span, v: real): real {
    s.lo + v * (s.hi - s.lo)
  }

  lemma PieceMiddle(e: Edge, s: Span, v: real)
    ensures PointOn(PieceOf(e, s), v) == PointOn(e, Share(s, v))
  {
    AxisMiddle(e.start.x, e.end.x - e.start.x, s.lo, s.hi, v);
    AxisMiddle(e.start.y, e.end.y - e.start.y, s.lo, s.hi, v);
  }

  lemma AxisMiddle(a: real, d: real, lo: real, hi: real, v: real)
    ensures a + lo * d + v * ((a + hi * d) - (a + lo * d)) == a + (lo + v * (hi - lo)) * d
  {
  }

  /** The segments no disc touches. */
  function Wholes(sqrt: real -> real, edges: seq<Edge>, discs: seq<Disc>): seq<Edge> {
    if edges == [] then []
    else
      var e := edges[|edges| - 1];
      Wholes(sqrt, edges[..|edges| - 1], discs) + if SpansFrom(sqrt, e, discs) == [] then [e] else []
  }

  /** The pieces of the others, segment by segment. */
  function Cuts(sqrt: real -> real, edges: seq<Edge>, discs: seq<Disc>): seq<Edge> {
    if edges == [] then []
    else
      var e := edges[|edges| - 1];
      Cuts(sqrt, edges[..|edges| - 1], discs) +
      if SpansFrom(sqrt, e, discs) == [] then [] else PieceEdges(e, PiecesOf(sqrt, e, discs))
  }

  method SpanList(sqrt: real -> real, e: Edge, discs: seq<Disc>) returns (spans: seq<Span>)
    requires Rooted(sqrt, e, discs)
    ensures spans == SpansFrom(sqrt, e, discs)
  {
    hide Rooted, Discriminant, IsRoot, QuadA, QuadB, Low, High;
    spans := [];
    for k := 0 to |discs|
      invariant spans == SpansFrom(sqrt, e, discs[..k])
    {
      assert discs[..k + 1][..k] == discs[..k];
      var qa, qb, d := QuadA(e), QuadB(e, discs[k]), Discriminant(e, discs[k]);
      if qa <= 0.0 || d <= 0.0 {
        continue;
      }
      var t0, t1 := Low(qa, qb, sqrt(d)), High(qa, qb, sqrt(d));
      if t1 > 0.0 && t0 < 1.0 {
        spans := spans + [Span(Max(t0, 0.0), Min(t1, 1.0))];
      }
    }
    assert discs[..|discs|] == discs;
  }

  method SweepSpans(e: Edge, spans: seq<Span>) returns (out: seq<Edge>)
    ensures out == PieceEdges(e, Kept(SortSpans(spans), 0.0))
  {
    hide PointOn, Kept, Max, SortSpans;
    out := [];
    var sorted := SortSpans(spans);
    var t := 0.0;
    ghost var pieces: seq<Span> := [];
    for k := 0 to |sorted|
      invariant pieces + Kept(sorted[k..], t) == Kept(sorted, 0.0)
      invariant out == PieceEdges(e, pieces)
    {
      KeptStep(sorted, k, t, pieces);
      pieces := pieces + UpTo(sorted[k], t);
      if sorted[k].lo > t + TOLERANCE {
        out := out + [Edge(PointOn(e, t), PointOn(e, sorted[k].lo))];
      }
      t := Max(t, sorted[k].hi);
    }
    KeptEnd(sorted, t);
    pieces := pieces + ToEnd(t);
    if t < 1.0 - TOLERANCE {
      EndOfEdge(e);
      out := out + [Edge(PointOn(e, t), e.end)];
    }
  }

  lemma KeptEnd(spans: seq<Span>, t: real)
    ensures Kept(spans[|spans|..], t) == ToEnd(t)
  {
  }

  lemma EndOfEdge(e: Edge)
    ensures PointOn(e, 1.0) == e.end
  {
  }

  method OutsideDiscs(sqrt: real -> real, edges: seq<Edge>, discs: seq<Disc>) returns (out: seq<Edge>)
    requires AllRooted(sqrt, edges, discs)
    ensures out == Outside(sqrt, edges, discs)
  {
    hide Rooted, SpansFrom, PieceEdges;
    var keep, cut := [], [];
    for i := 0 to |edges|
      invariant keep == Wholes(sqrt, edges[..i], discs) && cut == Cuts(sqrt, edges[..i], discs)
    {
      assert edges[..i + 1][..i] == edges[..i];
      var spans := SpanList(sqrt, edges[i], discs);
      if spans == [] {
        keep := keep + [edges[i]];
      } else {
        var pieces := SweepSpans(edges[i], spans);
        cut := cut + pieces;
      }
    }
    assert edges[..|edges|] == edges;
    out := keep + cut;
  }

  lemma {:induction false} WholeFrom(sqrt: real -> real, edges: seq<Edge>, discs: seq<Disc>, h: nat) returns (i: nat)
    requires h < |Wholes(sqrt, edges, discs)|
    ensures i < |edges| && SpansFrom(sqrt, edges[i], discs) == [] && Wholes(sqrt, edges, discs)[h] == edges[i]
    decreases |edges|
  {
    hide SpansFrom;
    var init := edges[..|edges| - 1];
    if h < |Wholes(sqrt, init, discs)| {
      i := WholeFrom(sqrt, init, discs, h);
    } else {
      i := |edges| - 1;
    }
  }

  lemma {:induction false} CutFrom(sqrt: real -> real, edges: seq<Edge>, discs: seq<Disc>, h: nat)
    returns (i: nat, j: nat)
    requires h < |Cuts(sqrt, edges, discs)|
    ensures i < |edges| && SpansFrom(sqrt, edges[i], discs) != [] && j < |PiecesOf(sqrt, edges[i], discs)|
    ensures Cuts(sqrt, edges, discs)[h] == PieceOf(edges[i], PiecesOf(sqrt, edges[i], discs)[j])
    decreases |edges|
  {
    hide SpansFrom, PiecesOf, PieceOf;
    var init := edges[..|edges| - 1];
    if h < |Cuts(sqrt, init, discs)| {
      i, j := CutFrom(sqrt, init, discs, h);
    } else {
      i, j := |edges| - 1, h - |Cuts(sqrt, init, discs)|;
    }
  }

  lemma {:induction false} WholeKept(sqrt: real -> real, edges: seq<Edge>, discs: seq<Disc>, i: nat) returns (h: nat)
    requires i < |edges| && SpansFrom(sqrt, edges[i], discs) == []
    ensures h < |Wholes(sqrt, edges, discs)| && Wholes(sqrt, edges, discs)[h] == edges[i]
    decreases |edges|
  {
    hide SpansFrom;
    var init := edges[..|edges| - 1];
    if i < |edges| - 1 {
      h := WholeKept(sqrt, init, discs, i);
    } else {
      h := |Wholes(sqrt, init, discs)|;
    }
  }

  lemma {:induction false} CutKept(sqrt: real -> real, edges: seq<Edge>, discs: seq<Disc>, i: nat, j: nat)
    returns (h: nat)
    requires i < |edges| && SpansFrom(sqrt, edges[i], discs) != [] && j < |PiecesOf(sqrt, edges[i], discs)|
    ensures h < |Cuts(sqrt, edges, discs)|
    ensures Cuts(sqrt, edges, discs)[h] == PieceOf(edges[i], PiecesOf(sqrt, edges[i], discs)[j])
    decreases |edges|
  {
    hide SpansFrom, PiecesOf, PieceOf;
    var init := edges[..|edges| - 1];
    if i < |edges| - 1 {
      h := CutKept(sqrt, init, discs, i, j);
    } else {
      h := |Cuts(sqrt, init, discs)| + j;
    }
  }

  /** The segments of the result, whole ones first. */
  function Outside(sqrt: real -> real, edges: seq<Edge>, discs: seq<Disc>): seq<Edge> {
    Wholes(sqrt, edges, discs) + Cuts(sqrt, edges, discs)
  }

  ghost predicate AllRooted(sqrt: real -> real, edges: seq<Edge>, discs: seq<Disc>) {
    forall i :: 0 <= i < |edges| ==> Rooted(sqrt, edges[i], discs)
  }

  /** Some point of the edge is inside a disc. */
  ghost predicate Touched(e: Edge, discs: seq<Disc>) {
    exists v: real, k: nat :: 0.0 <= v <= 1.0 && k < |discs| && Within(PointOn(e, v), discs[k])
  }

  /** A segment of no length is never cut. */
  lemma PointKept(sqrt: real -> real, e: Edge, discs: seq<Disc>)
    requires QuadA(e) <= 0.0
    ensures SpansFrom(sqrt, e, discs) == []
    decreases |discs|
  {
    if discs != [] {
      PointKept(sqrt, e, discs[..|discs| - 1]);
    }
  }

  /** What is kept is clear of every disc, unless a segment of no length lies
      inside one: exactly those stay, whole. */
  lemma OutsideClear(sqrt: real -> real, edges: seq<Edge>, discs: seq<Disc>)
    requires AllRooted(sqrt, edges, discs)
    ensures var out := Outside(sqrt, edges, discs);
      (exists h :: 0 <= h < |out| && Touched(out[h], discs)) <==>
      (exists i :: 0 <= i < |edges| && QuadA(edges[i]) <= 0.0 && Touched(edges[i], discs))
  {
    hide Touched, Rooted, Wholes, Cuts, QuadA;
    var out := Outside(sqrt, edges, discs);
    if h :| 0 <= h < |out| && Touched(out[h], discs) {
      var i := TouchedFrom(sqrt, edges, discs, h);
    }
    if i :| 0 <= i < |edges| && QuadA(edges[i]) <= 0.0 && Touched(edges[i], discs) {
      PointKept(sqrt, edges[i], discs);
      var h := WholeKept(sqrt, edges, discs, i);
      assert out[h] == edges[i];
    }
  }

  lemma TouchedFrom(sqrt: real -> real, edges: seq<Edge>, discs: seq<Disc>, h: nat) returns (i: nat)
    requires AllRooted(sqrt, edges, discs)
    requires h < |Outside(sqrt, edges, discs)| && Touched(Outside(sqrt, edges, discs)[h], discs)
    ensures i < |edges| && QuadA(edges[i]) <= 0.0 && Touched(edges[i], discs)
  {
    hide Within, PointOn, Rooted, Wholes, Cuts, QuadA, SpansFrom, PiecesOf, PieceOf;
    var n := |Wholes(sqrt, edges, discs)|;
    var v: real, k: nat :|
      0.0 <= v <= 1.0 && k < |discs| && Within(PointOn(Outside(sqrt, edges, discs)[h], v), discs[k]);
    if h < n {
      i := WholeFrom(sqrt, edges, discs, h);
      if QuadA(edges[i]) > 0.0 {
        WholeClear(sqrt, edges[i], discs, v, k);
      }
    } else {
      var j: nat;
      i, j := CutFrom(sqrt, edges, discs, h - n);
      if QuadA(edges[i]) <= 0.0 {
        PointKept(sqrt, edges[i], discs);
      } else {
        PieceNotTouched(sqrt, edges[i], discs, j, v, k);
      }
    }
  }

  lemma PieceNotTouched(sqrt: real -> real, e: Edge, discs: seq<Disc>, j: nat, v: real, k: nat)
    requires Rooted(sqrt, e, discs) && QuadA(e) > 0.0
    requires j < |PiecesOf(sqrt, e, discs)| && 0.0 <= v <= 1.0 && k < |discs|
    ensures !Within(PointOn(PieceOf(e, PiecesOf(sqrt, e, discs)[j]), v), discs[k])
  {
    hide Within, PointOn, Rooted, QuadA, SpansFrom, PieceOf, Kept, SortSpans, Before, Share, In;
    var s := PiecesOf(sqrt, e, discs)[j];
    var sorted := SortSpans(SpansFrom(sqrt, e, discs));
    SpansProper(sqrt, e, discs);
    SortSpansSorts(SpansFrom(sqrt, e, discs));
    KeptOrdered(sorted, 0.0);
    assert Proper(s);
    PieceMiddle(e, s, v);
    ShareInside(s, v);
    PieceClear(sqrt, e, discs, j, Share(s, v), k);
  }

  lemma ShareInside(s: Span, v: real)
    requires s.lo <= s.hi && 0.0 <= v <= 1.0
    ensures In(Share(s, v), s)
  {
    ProductNonNegative(v, s.hi - s.lo);
    ProductNonNegative(1.0 - v, s.hi - s.lo);
    assert (1.0 - v) * (s.hi - s.lo) == (s.hi - s.lo) - v * (s.hi - s.lo);
  }

  /** The point at u of segment i is on a segment of the result, or in a gap of
      its segment too short to keep. */
  ghost predicate Survives(sqrt: real -> real, edges: seq<Edge>, discs: seq<Disc>, i: nat, u: real)
    requires i < |edges|
  {
    var out := Outside(sqrt, edges, discs);
    || (exists h: nat, v: real :: h < |out| && 0.0 <= v <= 1.0 && PointOn(out[h], v) == PointOn(edges[i], u))
    || (exists g :: Gap(SortSpans(SpansFrom(sqrt, edges[i], discs)), u, g))
  }

  /** Nothing outside the discs is lost but stretches within the tolerance. */
  lemma NothingLost(sqrt: real -> real, edges: seq<Edge>, discs: seq<Disc>, i: nat, u: real)
    requires AllRooted(sqrt, edges, discs) && i < |edges| && QuadA(edges[i]) > 0.0 && 0.0 <= u <= 1.0
    requires forall k :: 0 <= k < |discs| ==> !Within(PointOn(edges[i], u), discs[k])
    ensures Survives(sqrt, edges, discs, i, u)
  {
    hide Within, PointOn, Rooted, Wholes, Cuts, QuadA, SpansFrom, PiecesOf, PieceOf, Gap, SortSpans;
    var e, out := edges[i], Outside(sqrt, edges, discs);
    if SpansFrom(sqrt, e, discs) == [] {
      var h := WholeKept(sqrt, edges, discs, i);
      assert PointOn(out[h], u) == PointOn(e, u);
    } else {
      OutsideKept(sqrt, e, discs, u);
      if j :| 0 <= j < |PiecesOf(sqrt, e, discs)| && In(u, PiecesOf(sqrt, e, discs)[j]) {
        var s := PiecesOf(sqrt, e, discs)[j];
        var h := CutKept(sqrt, edges, discs, i, j);
        var v := OnPiece(e, s, u);
        assert PointOn(out[|Wholes(sqrt, edges, discs)| + h], v) == PointOn(e, u);
      }
    }
  }

  lemma OnPiece(e: Edge, s: Span, u: real) returns (v: real)
    requires In(u, s)
    ensures 0.0 <= v <= 1.0 && PointOn(PieceOf(e, s), v) == PointOn(e, u)
  {
    hide PointOn, PieceOf, Share;
    v := ShareOf(s, u);
    PieceMiddle(e, s, v);
  }

  lemma ShareOf(s: Span, u: real) returns (v: real)
    requires In(u, s)
    ensures 0.0 <= v <= 1.0 && Share(s, v) == u
  {
    if s.lo == s.hi {
      v := 0.0;
    } else {
      v := (u - s.lo) / (s.hi - s.lo);
      assert v * (s.hi - s.lo) == u - s.lo;
      Divided(u - s.lo, s.hi - s.lo, 0.0);
      Divided(u - s.lo, s.hi - s.lo, 1.0);
    }
  }

  const SPECK := Edge(Point(0.0, 0.0), Point(0.0, 0.0))

  /** A segment of no length at the centre of a disc is kept. */
  lemma SpeckKept(sqrt: real -> real)
    ensures var discs := [Disc(Point(0.0, 0.0), 1.0)];
      Outside(sqrt, [SPECK], discs) == [SPECK] && Touched(SPECK, discs)
  {
    var discs := [Disc(Point(0.0, 0.0), 1.0)];
    PointKept(sqrt, SPECK, discs);
    assert [SPECK][..0] == [];
    assert Wholes(sqrt, [SPECK], discs) == [SPECK] && Cuts(sqrt, [SPECK], discs) == [];
    assert PointOn(SPECK, 0.0) == Point(0.0, 0.0);
    assert Within(PointOn(SPECK, 0.0), discs[0]);
  }
}
