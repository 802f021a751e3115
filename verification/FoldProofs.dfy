/**
 What fold removal keeps over all its cuts: which points survive and in which
 order, where each removed one went, and that the result crosses itself nowhere.
 */
module FoldProofs {
  import opened Folds
  import opened Geometry
  import opened Options
  import opened Products

  /** The index a cut list's k-th element had before, -1 for the crossing. */
  function KeptIndex(n: nat, i: nat, j: nat, k: nat): int
    requires i < j < n
  {
    if InnerIsSmall(n, i, j) then (if k <= i then k else if k == i + 1 then -1 else k + (j - i) - 1)
    else if k == 0 then -1 else i + k
  }

  function SmallIndex(n: nat, i: nat, j: nat, k: nat): int
    requires i < j < n
  {
    if InnerIsSmall(n, i, j) then i + 1 + k
    else if k < n - (j + 1) then j + 1 + k else k - (n - (j + 1))
  }

  lemma CutOutAt<T>(s: seq<T>, i: nat, j: nat, x: T, k: nat)
    requires i < j < |s| && k < |CutOut(s, i, j, x)|
    ensures var was := KeptIndex(|s|, i, j, k);
      if was == -1 then CutOut(s, i, j, x)[k] == x
      else 0 <= was < |s| && CutOut(s, i, j, x)[k] == s[was]
  {
  }

  lemma KeptIndexRises(n: nat, i: nat, j: nat, k: nat, m: nat)
    requires i < j < n && k < m
    ensures KeptIndex(n, i, j, k) == -1 || KeptIndex(n, i, j, m) == -1 || KeptIndex(n, i, j, k) < KeptIndex(n, i, j, m)
  {
  }

  lemma SmallAt<T>(s: seq<T>, i: nat, j: nat, k: nat)
    requires i < j < |s| && k < |Small(s, i, j)|
    ensures 0 <= SmallIndex(|s|, i, j, k) < |s| && Small(s, i, j)[k] == s[SmallIndex(|s|, i, j, k)]
  {
  }

  /** A cut moves its loop out and puts the crossing in: nothing else changes. */
  lemma CutBalances<T>(s: seq<T>, i: nat, j: nat, x: T)
    requires i < j < |s|
    ensures multiset(CutOut(s, i, j, x)) + multiset(Small(s, i, j)) == multiset(s) + multiset{x}
  {
    assert s == s[..i + 1] + Inner(s, i, j) + s[j + 1..];
  }

  function AllRemoved(cuts: seq<Cut>): multiset<int> {
    if cuts == [] then multiset{} else AllRemoved(cuts[..|cuts| - 1]) + multiset(cuts[|cuts| - 1].removed)
  }

  /** The k-th point of the wall is the input point it says it is, or a tip. */
  ghost predicate PointTraced(input: Ring, w: Wall, k: nat)
    requires Parallel(w) && k < |w.points|
  {
    if w.tip[k] then w.origin[k] == -1 && exists c :: c in w.cuts && c.at == w.points[k] && c.reach2 == w.reach2[k]
    else 0 <= w.origin[k] < |input| && w.points[k] == input[w.origin[k]] && w.reach2[k] == 0.0
  }

  ghost predicate InOrder(origin: seq<int>) {
    forall k, m :: 0 <= k < m < |origin| && origin[k] >= 0 && origin[m] >= 0 ==> origin[k] < origin[m]
  }

  /** Every input point a cut removed lay within its reach, and its reach within the bound. */
  ghost predicate CutTraced(input: Ring, c: Cut, maxLoop: real) {
    && !Over(c.reach2, maxLoop)
    && forall m :: m in c.removed && m >= 0 ==> m < |input| && Distance2(input[m], c.at) <= c.reach2
  }

  /** The points in the ring and the points removed are the input's points and
      one crossing a cut. */
  ghost predicate Balanced(input: Ring, w: Wall) {
    multiset(w.origin) + AllRemoved(w.cuts) == multiset(Uncut(input).origin) + multiset{}[-1 := |w.cuts|]
  }

  ghost predicate Traced(input: Ring, w: Wall, maxLoop: real) {
    && Parallel(w)
    && (forall k: nat :: k < |w.points| ==> PointTraced(input, w, k))
    && InOrder(w.origin)
    && (forall c :: c in w.cuts ==> CutTraced(input, c, maxLoop))
    && Balanced(input, w)
  }

  lemma UncutTraced(input: Ring, maxLoop: real)
    ensures Traced(input, Uncut(input), maxLoop)
  {
    assert multiset{}[-1 := 0] == multiset{};
  }

  lemma CutPointTraced(input: Ring, w: Wall, c: Crossing, k: nat)
    requires Parallel(w) && c.i < c.j < |w.points| && k < |CutWall(w, c).points|
    requires forall m: nat :: m < |w.points| ==> PointTraced(input, w, m)
    ensures PointTraced(input, CutWall(w, c), k)
  {
    hide Reach2, CutOut, Small;
    var r := CutWall(w, c);
    var reach2 := Reach2(Small(w.points, c.i, c.j), c.at);
    CutOutAt(w.points, c.i, c.j, c.at, k);
    CutOutAt(w.tip, c.i, c.j, true, k);
    CutOutAt(w.reach2, c.i, c.j, reach2, k);
    CutOutAt(w.origin, c.i, c.j, -1, k);
    var was := KeptIndex(|w.points|, c.i, c.j, k);
    if was == -1 {
      assert Cut(c.at, reach2, Small(w.origin, c.i, c.j)) in r.cuts;
    } else {
      assert PointTraced(input, w, was);
      assert forall cut :: cut in w.cuts ==> cut in r.cuts;
    }
  }

  lemma CutInOrder(origin: seq<int>, i: nat, j: nat)
    requires i < j < |origin| && InOrder(origin)
    ensures InOrder(CutOut(origin, i, j, -1))
  {
    var r := CutOut(origin, i, j, -1);
    forall k, m | 0 <= k < m < |r| && r[k] >= 0 && r[m] >= 0
      ensures r[k] < r[m]
    {
      CutOutAt(origin, i, j, -1, k);
      CutOutAt(origin, i, j, -1, m);
      KeptIndexRises(|origin|, i, j, k, m);
    }
  }

  lemma NewCutTraced(input: Ring, w: Wall, c: Crossing, maxLoop: real)
    requires Parallel(w) && c.i < c.j < |w.points|
    requires forall m: nat :: m < |w.points| ==> PointTraced(input, w, m)
    requires !Over(Reach2(Small(w.points, c.i, c.j), c.at), maxLoop)
    ensures CutTraced(input, Cut(c.at, Reach2(Small(w.points, c.i, c.j), c.at), Small(w.origin, c.i, c.j)), maxLoop)
  {
    hide Over;
    var removed, loop := Small(w.origin, c.i, c.j), Small(w.points, c.i, c.j);
    forall m | m in removed && m >= 0
      ensures m < |input| && Distance2(input[m], c.at) <= Reach2(loop, c.at)
    {
      var k :| 0 <= k < |removed| && removed[k] == m;
      SmallAt(w.origin, c.i, c.j, k);
      SmallAt(w.points, c.i, c.j, k);
      assert PointTraced(input, w, SmallIndex(|w.points|, c.i, c.j, k));
      assert loop[k] in loop;
    }
  }

  lemma CutBalanced(input: Ring, w: Wall, c: Crossing)
    requires Parallel(w) && c.i < c.j < |w.points| && Balanced(input, w)
    ensures Balanced(input, CutWall(w, c))
  {
    hide CutOut, Small, Reach2, Uncut;
    var r := CutWall(w, c);
    CutBalances(w.origin, c.i, c.j, -1);
    var removed := Small(w.origin, c.i, c.j);
    assert r.cuts[..|r.cuts| - 1] == w.cuts;
    assert AllRemoved(r.cuts) == AllRemoved(w.cuts) + multiset(removed);
    assert multiset(r.origin) + (AllRemoved(w.cuts) + multiset(removed))
        == (multiset(r.origin) + multiset(removed)) + AllRemoved(w.cuts);
    assert (multiset(w.origin) + multiset{-1}) + AllRemoved(w.cuts)
        == (multiset(w.origin) + AllRemoved(w.cuts)) + multiset{-1};
    assert multiset{}[-1 := |w.cuts| + 1] == multiset{}[-1 := |w.cuts|] + multiset{-1};
  }

  lemma CutKeeps(input: Ring, w: Wall, c: Crossing, maxLoop: real)
    requires Traced(input, w, maxLoop) && c.i < c.j < |w.points|
    requires !Over(Reach2(Small(w.points, c.i, c.j), c.at), maxLoop)
    ensures Traced(input, CutWall(w, c), maxLoop)
  {
    hide PointTraced, CutTraced, Balanced, CutOut, Small, Reach2, Over, InOrder;
    var r := CutWall(w, c);
    forall k: nat | k < |r.points|
      ensures PointTraced(input, r, k)
    {
      CutPointTraced(input, w, c, k);
    }
    CutInOrder(w.origin, c.i, c.j);
    NewCutTraced(input, w, c, maxLoop);
    CutBalanced(input, w, c);
  }

  lemma {:induction false} RemovalKeeps(input: Ring, w: Wall, maxLoop: real)
    requires Traced(input, w, maxLoop)
    ensures var r := RemoveFrom(w, maxLoop);
      if r.Clean? then Traced(input, r.wall, maxLoop) && AllCrossings(r.wall.points) == [] else Over(r.reach2, maxLoop)
    decreases |w.points|
  {
    hide AllCrossings, Over, Reach2, RemoveFrom, CutWall, Small, PointTraced, CutTraced, Balanced, InOrder;
    RemoveTurn(w, maxLoop);
    if AllCrossings(w.points) != [] {
      var c := AllCrossings(w.points)[0];
      if !Over(Reach2(Small(w.points, c.i, c.j), c.at), maxLoop) {
        CutKeeps(input, w, c, maxLoop);
        RemovalKeeps(input, CutWall(w, c), maxLoop);
      }
    }
  }

  /** On return no two segments cross; the surviving points are the input's, in
      order; each removed one lay within the bound of the crossing that replaced
      its loop; and points, tip flags and reaches stay parallel. */
  lemma FoldsRemoved(input: Ring, maxLoop: real)
    ensures var r := RemoveFrom(Uncut(input), maxLoop);
      if r.Clean? then Traced(input, r.wall, maxLoop) && NoneCross(r.wall.points) else Over(r.reach2, maxLoop)
  {
    hide Traced, NoneCross, RemoveFrom, Over, AllCrossings;
    UncutTraced(input, maxLoop);
    RemovalKeeps(input, Uncut(input), maxLoop);
    var r := RemoveFrom(Uncut(input), maxLoop);
    if r.Clean? {
      NoCrossingsExact(r.wall.points);
    }
  }

  /** Each input point survives once, or is removed by one cut, never both. */
  lemma EachPointOnce(input: Ring, w: Wall, maxLoop: real, m: nat)
    requires m < |input| && Traced(input, w, maxLoop)
    ensures multiset(w.origin)[m] + AllRemoved(w.cuts)[m] == 1
  {
    hide PointTraced, CutTraced, InOrder;
    CountUpto(|input|, m);
    assert (multiset(w.origin) + AllRemoved(w.cuts))[m] == multiset(w.origin)[m] + AllRemoved(w.cuts)[m];
  }

  lemma {:induction false} CountUpto(n: nat, m: nat)
    ensures multiset(seq(n, k => k))[m] == if m < n then 1 else 0
  {
    if n > 0 {
      CountUpto(n - 1, m);
      assert seq(n, k => k) == seq(n - 1, k => k) + [n - 1];
    }
  }

  /** A larger bound accepts whatever a smaller one did, with the same wall. */
  lemma {:induction false} LargerBoundSame(w: Wall, maxLoop: real, larger: real)
    requires Parallel(w) && maxLoop <= larger && RemoveFrom(w, maxLoop).Clean?
    ensures RemoveFrom(w, larger) == RemoveFrom(w, maxLoop)
    decreases |w.points|
  {
    hide AllCrossings, Reach2, RemoveFrom, CutWall, Over;
    RemoveTurn(w, maxLoop);
    RemoveTurn(w, larger);
    if AllCrossings(w.points) != [] {
      var c := AllCrossings(w.points)[0];
      OverLess(Reach2(Small(w.points, c.i, c.j), c.at), maxLoop, larger);
      LargerBoundSame(CutWall(w, c), maxLoop, larger);
    }
  }

  lemma OverLess(reach2: real, maxLoop: real, larger: real)
    requires maxLoop <= larger
    ensures Over(reach2, larger) ==> Over(reach2, maxLoop)
  {
    if maxLoop >= 0.0 {
      ProductNonNegative(larger - maxLoop, larger + maxLoop);
    }
  }

  /** A clean wall is a fixed point: removing folds again changes nothing. */
  lemma RemovingAgain(input: Ring, maxLoop: real)
    ensures var r := RemoveFrom(Uncut(input), maxLoop);
      r.Clean? ==> RemoveFrom(Uncut(r.wall.points), maxLoop) == Clean(Uncut(r.wall.points))
  {
    hide RemoveFrom, AllCrossings, Traced, Uncut, NoneCross;
    FoldsRemoved(input, maxLoop);
    var r := RemoveFrom(Uncut(input), maxLoop);
    if r.Clean? {
      NoCrossingsExact(r.wall.points);
      UncutPoints(r.wall.points);
      RemoveTurn(Uncut(r.wall.points), maxLoop);
    }
  }

  lemma UncutPoints(ring: Ring)
    ensures Uncut(ring).points == ring
  {
  }
}
