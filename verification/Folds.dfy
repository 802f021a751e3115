/**
 Cutting the small loops out of a closed wall, as the optimiser's library and the
 map importer each do it, and what a cut keeps and what it removes.
 */
module Folds {
  import opened Options
  import opened Geometry

  /** The points between the crossing segments, and the points around them. */
  function Inner<T>(s: seq<T>, i: nat, j: nat): seq<T>
    requires i < j < |s|
  {
    s[i + 1..j + 1]
  }

  function Outer<T>(s: seq<T>, i: nat, j: nat): seq<T>
    requires i < j < |s|
  {
    s[j + 1..] + s[..i + 1]
  }

  predicate InnerIsSmall(n: nat, i: nat, j: nat)
    requires i < j < n
  {
    j - i <= n - (j - i)
  }

  function Small<T>(s: seq<T>, i: nat, j: nat): seq<T>
    requires i < j < |s|
  {
    if InnerIsSmall(|s|, i, j) then Inner(s, i, j) else Outer(s, i, j)
  }

  /** The list with its smaller loop replaced by x. */
  function CutOut<T>(s: seq<T>, i: nat, j: nat, x: T): seq<T>
    requires i < j < |s|
  {
    if InnerIsSmall(|s|, i, j) then s[..i + 1] + [x] + s[j + 1..] else [x] + Inner(s, i, j)
  }

  /** The largest squared distance from x to a point of the loop. */
  function Reach2(loop: seq<Point>, x: Point): (r: real)
    ensures forall p :: p in loop ==> Distance2(p, x) <= r
    ensures if loop == [] then r == 0.0 else exists p :: p in loop && Distance2(p, x) == r
  {
    if |loop| == 0 then 0.0
    else if |loop| == 1 then Distance2(loop[0], x)
    else
      var rest := Reach2(loop[1..], x);
      if Distance2(loop[0], x) >= rest then Distance2(loop[0], x) else rest
  }

  /** A distance, given squared, exceeds the bound. */
  predicate Over(reach2: real, maxLoop: real) {
    maxLoop < 0.0 || reach2 > maxLoop * maxLoop
  }

  /** One cut: the crossing, how far its loop reached, and the input indexes of
      the loop's points (-1 for an earlier tip). */
  datatype Cut = Cut(at: Point, reach2: real, removed: seq<int>)

  /** A wall with its parallel arrays; `origin` (the input index of each point, -1
      for a tip) and `cuts` are history. */
  datatype Wall = Wall(points: Ring, tip: seq<bool>, reach2: seq<real>, origin: seq<int>, cuts: seq<Cut>)

  predicate Parallel(w: Wall) {
    |w.tip| == |w.points| && |w.reach2| == |w.points| && |w.origin| == |w.points|
  }

  function Uncut(ring: Ring): (w: Wall)
    ensures Parallel(w)
  {
    Wall(ring, seq(|ring|, k => false), seq(|ring|, k => 0.0), seq(|ring|, k => k), [])
  }

  function CutWall(w: Wall, c: Crossing): (r: Wall)
    requires Parallel(w) && c.i < c.j < |w.points|
    ensures Parallel(r)
  {
    var reach2 := Reach2(Small(w.points, c.i, c.j), c.at);
    Wall(CutOut(w.points, c.i, c.j, c.at), CutOut(w.tip, c.i, c.j, true),
         CutOut(w.reach2, c.i, c.j, reach2), CutOut(w.origin, c.i, c.j, -1),
         w.cuts + [Cut(c.at, reach2, Small(w.origin, c.i, c.j))])
  }

  datatype Outcome = Clean(wall: Wall) | SelfIntersects(c: Crossing, reach2: real)

  lemma FirstSplits(ring: Ring)
    requires AllCrossings(ring) != []
    ensures var c := AllCrossings(ring)[0]; Genuine(ring, c) && 2 <= c.j - c.i <= |ring| - 2
  {
    CrossingsGenuine(ring, 0, 1);
    var c := AllCrossings(ring)[0];
    assert Genuine(ring, c);
    CrossingNames(ring, c.i, c.j);
  }

  /** Every cut strictly shortens the ring, by all of the loop but one point. */
  lemma CutShortens<T>(s: seq<T>, i: nat, j: nat, x: T)
    requires i < j < |s| && 2 <= j - i <= |s| - 2
    ensures |CutOut(s, i, j, x)| == |s| - |Small(s, i, j)| + 1 < |s|
    ensures |Small(s, i, j)| >= 2
  {
  }

  /** The first crossing's smaller loop is cut until none is left, or refused. */
  function RemoveFrom(w: Wall, maxLoop: real): (r: Outcome)
    requires Parallel(w)
    ensures r.Clean? ==> Parallel(r.wall)
    decreases |w.points|
  {
    if AllCrossings(w.points) == [] then Clean(w)
    else
      FirstSplits(w.points);
      var c := AllCrossings(w.points)[0];
      var reach2 := Reach2(Small(w.points, c.i, c.j), c.at);
      CutShortens(w.points, c.i, c.j, c.at);
      if Over(reach2, maxLoop) then SelfIntersects(c, reach2)
      else RemoveFrom(CutWall(w, c), maxLoop)
  }

  /** One turn of the cutting, by the case it meets. */
  lemma RemoveTurn(w: Wall, maxLoop: real)
    requires Parallel(w)
    ensures AllCrossings(w.points) == [] ==> RemoveFrom(w, maxLoop) == Clean(w)
    ensures AllCrossings(w.points) != [] ==>
      var c := AllCrossings(w.points)[0];
      && c.i < c.j < |w.points| && 2 <= c.j - c.i <= |w.points| - 2
      && var reach2 := Reach2(Small(w.points, c.i, c.j), c.at);
        && |CutWall(w, c).points| < |w.points|
        && RemoveFrom(w, maxLoop) ==
             if Over(reach2, maxLoop) then SelfIntersects(c, reach2) else RemoveFrom(CutWall(w, c), maxLoop)
  {
    hide AllCrossings, Over, Reach2;
    if AllCrossings(w.points) != [] {
      FirstSplits(w.points);
      CutShortens(w.points, AllCrossings(w.points)[0].i, AllCrossings(w.points)[0].j, AllCrossings(w.points)[0].at);
    }
  }

  /** The cut wall's arrays, by which loop is the small one. */
  lemma CutWallArrays(w: Wall, c: Crossing)
    requires Parallel(w) && c.i < c.j < |w.points|
    ensures var r := CutWall(w, c);
      var reach2 := Reach2(Small(w.points, c.i, c.j), c.at);
      var i, j := c.i, c.j;
      if |Inner(w.points, i, j)| <= |Outer(w.points, i, j)| then
        && Small(w.points, i, j) == Inner(w.points, i, j)
        && r.points == w.points[..i + 1] + [c.at] + w.points[j + 1..]
        && r.tip == w.tip[..i + 1] + [true] + w.tip[j + 1..]
        && r.reach2 == w.reach2[..i + 1] + [reach2] + w.reach2[j + 1..]
      else
        && Small(w.points, i, j) == Outer(w.points, i, j)
        && r.points == [c.at] + Inner(w.points, i, j)
        && r.tip == [true] + w.tip[i + 1..j + 1]
        && r.reach2 == [reach2] + w.reach2[i + 1..j + 1]
  {
    hide Reach2;
  }

  // --- the library's version

  function Tips<T>(values: seq<T>, tip: seq<bool>): seq<T>
    requires |values| == |tip|
  {
    if values == [] then []
    else (if tip[0] then [values[0]] else []) + Tips(values[1..], tip[1..])
  }

  /** What a caller gets: the clean wall, its tips and their reaches, or why not. */
  datatype Removed =
    | Walled(clean: Ring, tips: seq<Point>, reach2: seq<real>)
    | Refused(c: Crossing, loopReach2: real)
    | GaveUp

  function Reported(w: Wall): Removed
    requires Parallel(w)
  {
    Walled(w.points, Tips(w.points, w.tip), Tips(w.reach2, w.tip))
  }

  /** The indexes of the flags that are up, from `from` on. */
  ghost function Flagged(tip: seq<bool>, from: nat): (r: seq<nat>)
    requires from <= |tip|
    ensures forall k: nat :: k in r <==> from <= k < |tip| && tip[k]
    ensures forall i :: 0 <= i < |r| ==> from <= r[i] < |tip|
    ensures forall i, j :: 0 <= i < j < |r| ==> r[i] < r[j]
    decreases |tip| - from
  {
    if from == |tip| then []
    else
      var rest := Flagged(tip, from + 1);
      assert forall i :: 0 <= i < |rest| ==> rest[i] in rest;
      if tip[from] then [from] + rest else rest
  }

  lemma {:induction false} TipsFlagged<T>(values: seq<T>, tip: seq<bool>, from: nat)
    requires |values| == |tip| && from <= |tip|
    ensures var r, at := Tips(values[from..], tip[from..]), Flagged(tip, from);
      |r| == |at| && forall i :: 0 <= i < |r| ==> r[i] == values[at[i]]
    decreases |tip| - from
  {
    if from < |tip| {
      assert values[from..][1..] == values[from + 1..] && tip[from..][1..] == tip[from + 1..];
      TipsFlagged(values, tip, from + 1);
    }
  }

  /** A report lists the flagged points of its wall, all of them, in order, each
      with its own reach. */
  lemma ReportedExact(w: Wall)
    requires Parallel(w)
    ensures var r, at := Reported(w), Flagged(w.tip, 0);
      && r.clean == w.points && |r.tips| == |r.reach2| == |at|
      && forall i :: 0 <= i < |at| ==> r.tips[i] == w.points[at[i]] && r.reach2[i] == w.reach2[at[i]]
  {
    hide Tips;
    TipsFlagged(w.points, w.tip, 0);
    TipsFlagged(w.reach2, w.tip, 0);
    assert w.points[0..] == w.points && w.tip[0..] == w.tip && w.reach2[0..] == w.reach2;
  }

  method RemoveFoldsCuts(wall: Ring, maxLoop: real) returns (r: Removed)
    ensures wall == [] <==> r == GaveUp
    ensures wall != [] ==> r == match RemoveFrom(Uncut(wall), maxLoop)
                                case Clean(w) => Reported(w)
                                case SelfIntersects(c, reach2) => Refused(c, reach2)
  {
    hide AllCrossings, Over, Reach2, RemoveFrom, Tips, CutWall, Small, CutOut;
    var current, tip, reachOf := wall, seq(|wall|, k => false), seq(|wall|, k => 0.0);
    ghost var w := Uncut(wall);
    for round := 0 to |wall|
      invariant Parallel(w) && w.points == current && w.tip == tip && w.reach2 == reachOf
      invariant |current| + round <= |wall| && (wall != [] ==> current != [])
      invariant RemoveFrom(w, maxLoop) == RemoveFrom(Uncut(wall), maxLoop)
    {
      RemoveTurn(w, maxLoop);
      var found := Crossings(current);
      if found == [] {
        return Walled(current, Tips(current, tip), Tips(reachOf, tip));
      }
      var Crossing(i, j, x) := found[0];
      var inner, outer := Inner(current, i, j), Outer(current, i, j);
      CutWallArrays(w, found[0]);
      var innerSmall := |inner| <= |outer|;
      var small := if innerSmall then inner else outer;
      var reach := Reach2(small, x);
      if Over(reach, maxLoop) {
        return Refused(found[0], reach);
      }
      if innerSmall {
        current := current[..i + 1] + [x] + current[j + 1..];
        tip := tip[..i + 1] + [true] + tip[j + 1..];
        reachOf := reachOf[..i + 1] + [reach] + reachOf[j + 1..];
      } else {
        current := [x] + inner;
        tip := [true] + tip[i + 1..j + 1];
        reachOf := [reach] + reachOf[i + 1..j + 1];
      }
      w := CutWall(w, found[0]);
    }
    r := GaveUp;
  }

  // --- the importer's version

  method RemoveFoldsImporter(ring: Ring, maxLoop: real) returns (kept: Option<Ring>)
    requires ring != []
    ensures kept == match RemoveFrom(Uncut(ring), maxLoop)
                    case Clean(w) => Some(w.points)
                    case SelfIntersects(_, _) => None
  {
    hide AllCrossings, Over, Reach2, RemoveFrom, CutWall, Small, CutOut;
    var current := ring;
    ghost var w := Uncut(ring);
    while true
      invariant Parallel(w) && w.points == current
      invariant RemoveFrom(w, maxLoop) == RemoveFrom(Uncut(ring), maxLoop)
      decreases |current|
    {
      RemoveTurn(w, maxLoop);
      var crossing := FirstCrossing(current);
      if crossing == None {
        return Some(current);
      }
      var Crossing(i, j, point) := crossing.value;
      var inner, outer := Inner(current, i, j), Outer(current, i, j);
      CutWallArrays(w, crossing.value);
      var loop, rest := outer, [point] + Inner(current, i, j);
      if |inner| <= |outer| {
        loop, rest := inner, current[..i + 1] + [point] + current[j + 1..];
      }
      if Over(Reach2(loop, point), maxLoop) {
        return None;
      }
      current := rest;
      w := CutWall(w, crossing.value);
    }
  }
}
