/**
 Peeling the ends off a skeleton until none remains, in place: what is left is
 its greatest part in which every pixel has at least two neighbours.
 */
module Spurs {

  type Pixel = (int, int)

  function On(s: set<Pixel>, r: int, c: int): nat {
    if (r, c) in s then 1 else 0
  }

  /** How many of the pixel's eight neighbours are in the set. */
  function Degree(s: set<Pixel>, p: Pixel): nat {
    var (r, c) := p;
    On(s, r - 1, c - 1) + On(s, r - 1, c) + On(s, r - 1, c + 1) + On(s, r, c - 1) + On(s, r, c + 1) +
    On(s, r + 1, c - 1) + On(s, r + 1, c) + On(s, r + 1, c + 1)
  }

  /** No pixel of the set is an end. */
  ghost predicate Endless(s: set<Pixel>) {
    forall p :: p in s ==> Degree(s, p) >= 2
  }

  /** The set less its ends, all removed at once. */
  ghost function Peeled(s: set<Pixel>): set<Pixel> {
    set p | p in s && Degree(s, p) >= 2
  }

  lemma DegreeRises(a: set<Pixel>, b: set<Pixel>, p: Pixel)
    requires a <= b
    ensures Degree(a, p) <= Degree(b, p)
  {
  }

  /** An endless part is untouched by a peeling. */
  lemma EndlessSurvives(part: set<Pixel>, s: set<Pixel>)
    requires Endless(part) && part <= s
    ensures part <= Peeled(s)
  {
    forall p | p in part
      ensures p in Peeled(s)
    {
      DegreeRises(part, s, p);
    }
  }

  /** The pixels set in an image. */
  ghost function Pixels(skel: array2<bool>): set<Pixel>
    reads skel
  {
    set r, c | 0 <= r < skel.Length0 && 0 <= c < skel.Length1 && skel[r, c] :: (r, c)
  }

  predicate Lit(skel: array2<bool>, r: int, c: int)
    reads skel
  {
    0 <= r < skel.Length0 && 0 <= c < skel.Length1 && skel[r, c]
  }

  /** The sum over the 3 x 3 window, beyond the border nothing. */
  function Window(skel: array2<bool>, r: int, c: int): nat
    reads skel
  {
    (if Lit(skel, r - 1, c - 1) then 1 else 0) + (if Lit(skel, r - 1, c) then 1 else 0) +
    (if Lit(skel, r - 1, c + 1) then 1 else 0) + (if Lit(skel, r, c - 1) then 1 else 0) +
    (if Lit(skel, r, c) then 1 else 0) + (if Lit(skel, r, c + 1) then 1 else 0) +
    (if Lit(skel, r + 1, c - 1) then 1 else 0) + (if Lit(skel, r + 1, c) then 1 else 0) +
    (if Lit(skel, r + 1, c + 1) then 1 else 0)
  }

  lemma LitIsOn(skel: array2<bool>, r: int, c: int)
    ensures Lit(skel, r, c) <==> (r, c) in Pixels(skel)
  {
  }

  lemma WindowIsDegree(skel: array2<bool>, r: int, c: int)
    requires Lit(skel, r, c)
    ensures Window(skel, r, c) == Degree(Pixels(skel), (r, c)) + 1
  {
    hide Lit, Pixels;
    LitIsOn(skel, r - 1, c - 1);
    LitIsOn(skel, r - 1, c);
    LitIsOn(skel, r - 1, c + 1);
    LitIsOn(skel, r, c - 1);
    LitIsOn(skel, r, c + 1);
    LitIsOn(skel, r + 1, c - 1);
    LitIsOn(skel, r + 1, c);
    LitIsOn(skel, r + 1, c + 1);
  }

  method FindEnds(skel: array2<bool>) returns (ends: array2<bool>, any: bool)
    ensures fresh(ends) && ends.Length0 == skel.Length0 && ends.Length1 == skel.Length1
    ensures forall r, c :: 0 <= r < skel.Length0 && 0 <= c < skel.Length1 ==>
      ends[r, c] == (skel[r, c] && Degree(Pixels(skel), (r, c)) <= 1)
    ensures any == exists r, c :: 0 <= r < skel.Length0 && 0 <= c < skel.Length1 && ends[r, c]
  {
    hide Degree, Pixels, Window;
    ends := new bool[skel.Length0, skel.Length1]((r, c) => false);
    any := false;
    var r := 0;
    while r < skel.Length0
      invariant 0 <= r <= skel.Length0
      invariant forall a, b :: 0 <= a < r && 0 <= b < skel.Length1 ==>
        ends[a, b] == (skel[a, b] && Degree(Pixels(skel), (a, b)) <= 1)
      invariant any == exists a, b :: 0 <= a < r && 0 <= b < skel.Length1 && ends[a, b]
    {
      var c := 0;
      while c < skel.Length1
        invariant 0 <= c <= skel.Length1
        invariant forall a, b :: 0 <= a < skel.Length0 && 0 <= b < skel.Length1 && (a < r || (a == r && b < c)) ==>
          ends[a, b] == (skel[a, b] && Degree(Pixels(skel), (a, b)) <= 1)
        invariant any == exists a, b ::
          0 <= a < skel.Length0 && 0 <= b < skel.Length1 && (a < r || (a == r && b < c)) && ends[a, b]
      {
        if skel[r, c] {
          WindowIsDegree(skel, r, c);
        }
        ends[r, c] := skel[r, c] && Window(skel, r, c) <= 2;
        any := any || ends[r, c];
        c := c + 1;
      }
      r := r + 1;
    }
  }

  method Clear(skel: array2<bool>, ends: array2<bool>)
    requires skel != ends && ends.Length0 == skel.Length0 && ends.Length1 == skel.Length1
    modifies skel
    ensures forall r, c :: 0 <= r < skel.Length0 && 0 <= c < skel.Length1 ==>
      skel[r, c] == (old(skel[r, c]) && !ends[r, c])
  {
    var r := 0;
    while r < skel.Length0
      invariant 0 <= r <= skel.Length0
      invariant forall a, b :: 0 <= a < skel.Length0 && 0 <= b < skel.Length1 ==>
        skel[a, b] == (old(skel[a, b]) && !(a < r && ends[a, b]))
    {
      var c := 0;
      while c < skel.Length1
        invariant 0 <= c <= skel.Length1
        invariant forall a, b :: 0 <= a < skel.Length0 && 0 <= b < skel.Length1 ==>
          skel[a, b] == (old(skel[a, b]) && !((a < r || (a == r && b < c)) && ends[a, b]))
      {
        if ends[r, c] {
          skel[r, c] := false;
        }
        c := c + 1;
      }
      r := r + 1;
    }
  }

  /** What remains has no end, and holds every endless part of what there was: a
      closed loop survives untouched, and every spur vanishes. */
  method PruneSpurs(skel: array2<bool>)
    modifies skel
    ensures Pixels(skel) <= old(Pixels(skel)) && Endless(Pixels(skel))
    ensures forall part :: Endless(part) && part <= old(Pixels(skel)) ==> part <= Pixels(skel)
  {
    hide Degree;
    while true
      invariant Pixels(skel) <= old(Pixels(skel))
      invariant forall part :: Endless(part) && part <= old(Pixels(skel)) ==> part <= Pixels(skel)
      decreases Pixels(skel)
    {
      ghost var before := Pixels(skel);
      var ends, any := FindEnds(skel);
      if !any {
        return;
      }
      Clear(skel, ends);
      ghost var r, c :| 0 <= r < skel.Length0 && 0 <= c < skel.Length1 && ends[r, c];
      assert (r, c) in before && (r, c) !in Pixels(skel);
      assert Pixels(skel) == Peeled(before);
      forall part | Endless(part) && part <= old(Pixels(skel))
        ensures part <= Pixels(skel)
      {
        EndlessSurvives(part, before);
      }
    }
  }

  predicate Touching(p: Pixel, q: Pixel) {
    p != q && -1 <= p.0 - q.0 <= 1 && -1 <= p.1 - q.1 <= 1
  }

  /** Three or more pixels, each touching the next, the last touching the first. */
  ghost predicate ClosedLoop(loop: seq<Pixel>) {
    && |loop| >= 3
    && (forall i, j :: 0 <= i < j < |loop| ==> loop[i] != loop[j])
    && (forall i, j :: 0 <= i < |loop| && j == Following(|loop|, i) ==> Touching(loop[i], loop[j]))
  }

  function Following(n: nat, i: int): int {
    if i + 1 == n then 0 else i + 1
  }

  lemma TwoTouching(s: set<Pixel>, p: Pixel, q: Pixel, r: Pixel)
    requires q in s && r in s && q != r && Touching(p, q) && Touching(p, r)
    ensures Degree(s, p) >= 2
  {
  }

  /** Every closed loop is endless, so peeling leaves it whole. */
  lemma LoopEndless(loop: seq<Pixel>)
    requires ClosedLoop(loop)
    ensures Endless(set p | p in loop)
  {
    hide Degree;
    var s := set p | p in loop;
    forall p | p in s
      ensures Degree(s, p) >= 2
    {
      var i :| 0 <= i < |loop| && loop[i] == p;
      var before := if i == 0 then |loop| - 1 else i - 1;
      var after := Following(|loop|, i);
      assert Following(|loop|, before) == i;
      assert Touching(loop[before], loop[i]) && Touching(loop[i], loop[after]);
      TwoTouching(s, p, loop[before], loop[after]);
    }
  }
}
