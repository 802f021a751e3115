/**
 The stretches of a closed bound that have no observed wall, each grown onto the
 wall at both ends, and the bridges that replace them. Points are indexed round the
 bound; whether a bridge may be drawn enters as a given predicate on its ends.
 */
module Bridges {

  // --- indexes round n points

  function Shift(i: int, d: int, n: nat): (r: nat)
    requires n > 0
    ensures r < n
  {
    (i + d) % n
  }

  lemma AtLeast(n: int, k: int)
    requires n > 0 && k >= 1
    ensures n * k >= n
  {
  }

  lemma Remainder(x: int, n: int, q: int, r: int)
    requires 0 <= r < n && x == n * q + r
    ensures x % n == r
  {
    var q1, r1 := x / n, x % n;
    assert n * (q1 - q) == r - r1 && n * (q - q1) == r1 - r;
    if q1 > q {
      AtLeast(n, q1 - q);
    } else if q1 < q {
      AtLeast(n, q - q1);
    }
  }

  /** Steps add up. */
  lemma ShiftTwice(i: int, d: int, c: int, n: nat)
    requires n > 0
    ensures Shift(Shift(i, d, n), c, n) == Shift(i, d + c, n)
  {
    var q, r := (i + d) / n, (i + d) % n;
    var p, s := (r + c) / n, (r + c) % n;
    assert i + d + c == n * (q + p) + s;
    Remainder(i + d + c, n, q + p, s);
  }

  lemma ShiftStays(i: int, n: nat)
    requires 0 <= i < n
    ensures Shift(i, 0, n) == i && Shift(i, n, n) == i
  {
    Remainder(i, n, 0, i);
    Remainder(i + n, n, 1, i);
  }

  /** The only step under n from i to k. */
  lemma StepTo(i: nat, k: nat, n: nat) returns (d: nat)
    requires i < n && k < n
    ensures d < n && Shift(i, d, n) == k
    ensures forall c: nat :: c < n && Shift(i, c, n) == k ==> c == d
  {
    hide Shift;
    var back: int := i;
    d := Shift(k, -back, n);
    ShiftTwice(k, -back, i, n);
    ShiftStays(k, n);
    ShiftSwap(d, i, n);
    forall c: nat | c < n && Shift(i, c, n) == k
      ensures c == d
    {
      ShiftSwap(c, i, n);
      ShiftTwice(c, i, -back, n);
      ShiftStays(c, n);
    }
  }

  lemma ShiftSwap(i: int, d: int, n: nat)
    requires n > 0
    ensures Shift(i, d, n) == Shift(d, i, n)
  {
  }

  // --- growing

  /** Some point within e of k, round the bound, is unobserved. */
  ghost predicate NearBad(bad: seq<bool>, e: int, k: int)
    requires bad != []
  {
    exists d :: -e <= d <= e && bad[Shift(k, d, |bad|)]
  }

  /** One of the offsets from -e up to d takes i to k. */
  ghost predicate Marked(i: int, e: int, d: int, k: int, n: nat)
    requires n > 0
  {
    exists c :: -e <= c < d && Shift(i, c, n) == k
  }

  /** One of the first m bad points marks k. */
  ghost predicate Reached(bad: seq<bool>, e: int, m: int, k: int)
    requires bad != [] && m <= |bad|
  {
    exists i :: 0 <= i < m && bad[i] && Marked(i, e, e + 1, k, |bad|)
  }

  /** Marks every point within e of a bad one. */
  method Grow(bad: seq<bool>, e: int) returns (grown: seq<bool>)
    requires bad != [] && e >= 0
    ensures |grown| == |bad| && forall k :: 0 <= k < |bad| ==> (grown[k] <==> NearBad(bad, e, k))
  {
    hide NearBad, Marked, Shift;
    var n := |bad|;
    grown := seq(n, k => false);
    for i := 0 to n
      invariant |grown| == n
      invariant forall k :: 0 <= k < n ==> (grown[k] <==> Reached(bad, e, i, k))
    {
      if bad[i] {
        grown := MarkAround(grown, i, e);
      }
    }
    forall k | 0 <= k < n
      ensures grown[k] <==> NearBad(bad, e, k)
    {
      ReachedIsNear(bad, e, k);
    }
  }

  method MarkAround(grown: seq<bool>, i: nat, e: int) returns (next: seq<bool>)
    requires i < |grown| && e >= 0
    ensures |next| == |grown|
    ensures forall k :: 0 <= k < |grown| ==> (next[k] <==> grown[k] || Marked(i, e, e + 1, k, |grown|))
  {
    hide Shift;
    next := grown;
    var d := -e;
    while d <= e
      invariant -e <= d <= e + 1
      invariant |next| == |grown|
      invariant forall k :: 0 <= k < |grown| ==> (next[k] <==> grown[k] || Marked(i, e, d, k, |grown|))
    {
      next := next[Shift(i, d, |grown|) := true];
      d := d + 1;
    }
  }

  lemma ReachedIsNear(bad: seq<bool>, e: int, k: int)
    requires bad != [] && 0 <= k < |bad|
    ensures Reached(bad, e, |bad|, k) <==> NearBad(bad, e, k)
  {
    hide Shift;
    var n := |bad|;
    ShiftStays(k, n);
    if Reached(bad, e, n, k) {
      var i :| 0 <= i < n && bad[i] && Marked(i, e, e + 1, k, n);
      var c :| -e <= c < e + 1 && Shift(i, c, n) == k;
      ShiftTwice(i, c, -c, n);
      ShiftStays(i, n);
      assert bad[Shift(k, -c, n)];
    }
    if NearBad(bad, e, k) {
      var d :| -e <= d <= e && bad[Shift(k, d, n)];
      var i := Shift(k, d, n);
      ShiftTwice(k, d, -d, n);
      assert Shift(i, -d, n) == k;
      assert Marked(i, e, e + 1, k, n);
    }
  }

  // --- scanning

  /** A run of marked points, from a up to b. */
  datatype Run = Run(a: nat, b: nat)

  ghost predicate IsRun(run: seq<bool>, r: Run) {
    && 1 <= r.a < r.b <= |run| && !run[r.a - 1] && (r.b < |run| ==> !run[r.b])
    && forall j :: r.a <= j < r.b ==> run[j]
  }

  predicate Holds(r: Run, j: int) {
    r.a <= j < r.b
  }

  /** The maximal runs, in order, from a start that is not in one. */
  method FindRuns(run: seq<bool>) returns (runs: seq<Run>)
    requires run != [] && !run[0]
    ensures forall h :: 0 <= h < |runs| ==> IsRun(run, runs[h])
    ensures forall h, g :: 0 <= h < g < |runs| ==> runs[h].b < runs[g].a
    ensures forall j :: 0 <= j < |run| && run[j] ==> exists h :: 0 <= h < |runs| && Holds(runs[h], j)
  {
    runs := [];
    var j, n := 0, |run|;
    while j < n
      invariant 0 <= j <= n
      invariant forall h :: 0 <= h < |runs| ==> IsRun(run, runs[h]) && runs[h].b <= j
      invariant forall h, g :: 0 <= h < g < |runs| ==> runs[h].b < runs[g].a
      invariant 0 < j < n ==> !run[j] || !run[j - 1]
      invariant forall i :: 0 <= i < j && run[i] ==> exists h :: 0 <= h < |runs| && Holds(runs[h], i)
    {
      if !run[j] {
        j := j + 1;
        continue;
      }
      var a := j;
      while j < n && run[j]
        invariant a <= j <= n && forall i :: a <= i < j ==> run[i]
      {
        j := j + 1;
      }
      ghost var before := runs;
      runs := runs + [Run(a, j)];
      assert runs[|before|] == Run(a, j) && forall h :: 0 <= h < |before| ==> runs[h] == before[h];
      forall i | 0 <= i < j && run[i]
        ensures exists h :: 0 <= h < |runs| && Holds(runs[h], i)
      {
        if i < a {
          var h :| 0 <= h < |before| && Holds(before[h], i);
          assert Holds(runs[h], i);
        } else {
          assert Holds(runs[|before|], i);
        }
      }
    }
  }

  // --- the bridges

  /** From the observed point before the run to the one after it, over `length` points. */
  datatype Bridge = Bridge(before: nat, after: nat, length: nat)

  /** The bridge replaces point k. */
  ghost predicate Spans(b: Bridge, k: int, n: nat)
    requires n > 0
  {
    exists d :: 1 <= d <= b.length && Shift(b.before, d, n) == k
  }

  datatype Outcome = Bridged(bridges: seq<Bridge>) | NoObservedWall | TooLong(bridge: Bridge)

  ghost predicate Grounded(bad: seq<bool>, e: int, b: Bridge)
    requires bad != []
  {
    && b.before < |bad| && b.after < |bad| && 1 <= b.length < |bad| && b.after == Shift(b.before, b.length + 1, |bad|)
    && !NearBad(bad, e, b.before) && !NearBad(bad, e, b.after)
    && forall k :: 0 <= k < |bad| && Spans(b, k, |bad|) ==> NearBad(bad, e, k)
  }

  /** A point not in any bridge's run. */
  method FirstKept(grown: seq<bool>) returns (start: nat)
    ensures start <= |grown| && (start < |grown| ==> !grown[start])
    ensures start == |grown| <==> forall k :: 0 <= k < |grown| ==> grown[k]
  {
    start := 0;
    while start < |grown| && grown[start]
      invariant start <= |grown| && forall k :: 0 <= k < start ==> grown[k]
    {
      start := start + 1;
    }
  }

  function BridgeOf(start: nat, r: Run, n: nat): Bridge
    requires n > 0 && r.a >= 1 && r.a <= r.b
  {
    Bridge(Shift(start, r.a - 1, n), Shift(start, r.b, n), r.b - r.a)
  }

  /** The bridge of a run replaces just the run's points. */
  lemma SpansRun(start: nat, r: Run, n: nat, k: nat, j: nat)
    requires start < n && 1 <= r.a <= r.b <= n && k < n && j < n && Shift(start, j, n) == k
    ensures Spans(BridgeOf(start, r, n), k, n) <==> Holds(r, j)
  {
    hide Shift;
    var b := BridgeOf(start, r, n);
    if Holds(r, j) {
      ShiftTwice(start, r.a - 1, j - (r.a - 1), n);
      assert Shift(b.before, j - (r.a - 1), n) == k;
    }
    if Spans(b, k, n) {
      var d :| 1 <= d <= b.length && Shift(b.before, d, n) == k;
      ShiftTwice(start, r.a - 1, d, n);
      var c := StepTo(start, k, n);
      assert r.a - 1 + d < n;
    }
  }

  lemma RunGrounded(bad: seq<bool>, e: int, grown: seq<bool>, start: nat, run: seq<bool>, r: Run)
    requires bad != [] && |grown| == |run| == |bad| && start < |bad|
    requires forall k :: 0 <= k < |bad| ==> (grown[k] <==> NearBad(bad, e, k))
    requires forall j :: 0 <= j < |bad| ==> run[j] == grown[Shift(start, j, |bad|)]
    requires IsRun(run, r) && !run[0]
    ensures Grounded(bad, e, BridgeOf(start, r, |bad|))
  {
    hide Shift, NearBad, Spans;
    var n := |bad|;
    var b := BridgeOf(start, r, n);
    ShiftTwice(start, r.a - 1, b.length + 1, n);
    if r.b == n {
      ShiftStays(start, n);
      assert !run[0] && Shift(start, r.b, n) == Shift(start, 0, n);
    }
    forall k | 0 <= k < n && Spans(b, k, n)
      ensures NearBad(bad, e, k)
    {
      var j := StepTo(start, k, n);
      SpansRun(start, r, n, k, j);
    }
  }

  /** One bridge over every maximal stretch of points near an unobserved one, each
      between points that are not; refused where all the bound is such a stretch, or
      a stretch may not be bridged. */
  method FindBridges(bad: seq<bool>, e: int, allowed: (nat, nat) -> bool) returns (r: Outcome)
    requires e >= 0
    ensures r == NoObservedWall <==> bad != [] && forall k :: 0 <= k < |bad| ==> NearBad(bad, e, k)
    ensures r.Bridged? && bad == [] ==> r.bridges == []
    ensures r.Bridged? && bad != [] ==>
      && (forall h :: 0 <= h < |r.bridges| ==>
            Grounded(bad, e, r.bridges[h]) && allowed(r.bridges[h].before, r.bridges[h].after))
      && (forall k :: 0 <= k < |bad| ==>
            (NearBad(bad, e, k) <==> exists h :: 0 <= h < |r.bridges| && Spans(r.bridges[h], k, |bad|)))
      && (forall k, h, g :: 0 <= k < |bad| && 0 <= h < g < |r.bridges| ==>
            !(Spans(r.bridges[h], k, |bad|) && Spans(r.bridges[g], k, |bad|)))
    ensures r.TooLong? ==>
      bad != [] && Grounded(bad, e, r.bridge) && !allowed(r.bridge.before, r.bridge.after)
  {
    hide Shift, NearBad, Spans, Grounded;
    var n := |bad|;
    if forall i :: 0 <= i < n ==> !bad[i] {
      NothingNear(bad, e);
      assert bad != [] ==> !NearBad(bad, e, 0);
      return Bridged([]);
    }
    var grown := Grow(bad, e);
    var start := FirstKept(grown);
    if start == n {
      return NoObservedWall;
    }
    var run := seq(n, j requires 0 <= j < n => grown[Shift(start, j, n)]);
    ShiftStays(start, n);
    var runs := FindRuns(run);
    var bridges := [];
    for h := 0 to |runs|
      invariant |bridges| == h
      invariant forall g :: 0 <= g < h ==>
        && bridges[g] == BridgeOf(start, runs[g], n) && Grounded(bad, e, bridges[g])
        && allowed(bridges[g].before, bridges[g].after)
    {
      var bridge := BridgeOf(start, runs[h], n);
      RunGrounded(bad, e, grown, start, run, runs[h]);
      if !allowed(bridge.before, bridge.after) {
        return TooLong(bridge);
      }
      bridges := bridges + [bridge];
    }
    r := Bridged(bridges);
    BridgesExact(bad, e, grown, start, run, runs, bridges);
  }

  lemma NothingNear(bad: seq<bool>, e: int)
    requires forall i :: 0 <= i < |bad| ==> !bad[i]
    ensures bad != [] ==> forall k :: 0 <= k < |bad| ==> !NearBad(bad, e, k)
  {
  }

  lemma BridgesExact(bad: seq<bool>, e: int, grown: seq<bool>, start: nat, run: seq<bool>, runs: seq<Run>,
                     bridges: seq<Bridge>)
    requires bad != [] && |grown| == |run| == |bad| && start < |bad| && |bridges| == |runs|
    requires forall k :: 0 <= k < |bad| ==> (grown[k] <==> NearBad(bad, e, k))
    requires forall j :: 0 <= j < |bad| ==> run[j] == grown[Shift(start, j, |bad|)]
    requires forall h :: 0 <= h < |runs| ==> IsRun(run, runs[h]) && bridges[h] == BridgeOf(start, runs[h], |bad|)
    requires forall h, g :: 0 <= h < g < |runs| ==> runs[h].b < runs[g].a
    requires forall j :: 0 <= j < |run| && run[j] ==> exists h :: 0 <= h < |runs| && Holds(runs[h], j)
    ensures forall k :: 0 <= k < |bad| ==>
      (NearBad(bad, e, k) <==> exists h :: 0 <= h < |bridges| && Spans(bridges[h], k, |bad|))
    ensures forall k, h, g :: 0 <= k < |bad| && 0 <= h < g < |bridges| ==>
      !(Spans(bridges[h], k, |bad|) && Spans(bridges[g], k, |bad|))
  {
    hide Shift, NearBad, Spans, BridgeOf;
    var n := |bad|;
    forall k | 0 <= k < n
      ensures NearBad(bad, e, k) <==> exists h :: 0 <= h < |bridges| && Spans(bridges[h], k, n)
    {
      var j := StepTo(start, k, n);
      forall h | 0 <= h < |runs|
        ensures Spans(bridges[h], k, n) <==> Holds(runs[h], j)
      {
        SpansRun(start, runs[h], n, k, j);
      }
    }
    forall k, h, g | 0 <= k < n && 0 <= h < g < |bridges|
      ensures !(Spans(bridges[h], k, n) && Spans(bridges[g], k, n))
    {
      var j := StepTo(start, k, n);
      SpansRun(start, runs[h], n, k, j);
      SpansRun(start, runs[g], n, k, j);
    }
  }
}
