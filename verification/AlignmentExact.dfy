/**
 What an estimate handed out is, told from the recorded poses alone: a pose at the
 truth's stamp, or its two neighbours' common share of the way and of the turn.
 */
module AlignmentExact {
  import opened Options
  import opened Alignment
  import opened AlignmentProofs

  /** A whole turn and half of one, to the double nearest the circle. */
  const WHOLE: real := 6.283185307179586
  const HALF: real := 3.141592653589793

  /** The turn is the angle less whole turns, no longer than half of one; of the two
      halves, the one an even number of turns away. */
  ghost predicate ShortTurn(turn: real, angle: real, n: int) {
    && turn == angle - n as real * WHOLE && -HALF <= turn <= HALF
    && (turn == HALF || turn == -HALF ==> n % 2 == 0)
  }

  /** e is the same share of the way from b to a in place, yaw and time. */
  ghost predicate Shares(e: Pose, b: Pose, a: Pose, stamp: real) {
    && e.stamp == stamp
    && (e.x - b.x) * (a.stamp - b.stamp) == (stamp - b.stamp) * (a.x - b.x)
    && (e.y - b.y) * (a.stamp - b.stamp) == (stamp - b.stamp) * (a.y - b.y)
    && exists turn, n :: SharesTurn(e, b, a, stamp, turn, n)
  }

  ghost predicate SharesTurn(e: Pose, b: Pose, a: Pose, stamp: real, turn: real, n: int) {
    ShortTurn(turn, a.yaw - b.yaw, n) && (e.yaw - b.yaw) * (a.stamp - b.stamp) == (stamp - b.stamp) * turn
  }

  /** The stamp falls strictly between pose n - 1 and pose n, no further apart than
      the window. */
  ghost predicate FallsIn(poses: seq<Pose>, window: real, stamp: real, n: nat) {
    && 0 < n < |poses| && poses[n - 1].stamp < stamp < poses[n].stamp
    && poses[n].stamp - poses[n - 1].stamp <= window
  }

  /** Pose n is the first of the stamp. */
  ghost predicate FirstAt(poses: seq<Pose>, stamp: real, n: nat) {
    n < |poses| && poses[n].stamp == stamp && forall i :: 0 <= i < n ==> poses[i].stamp != stamp
  }

  /** The answer the poses give at a stamp: the first pose of that stamp; failing
      one, the neighbours' share; failing both, none. */
  ghost predicate Answers(poses: seq<Pose>, window: real, stamp: real, answer: Option<Pose>) {
    match answer
    case Some(e) =>
      || (exists n: nat :: FirstAt(poses, stamp, n) && e == poses[n])
      || ((forall n: nat :: !FirstAt(poses, stamp, n)) &&
          exists n: nat :: FallsIn(poses, window, stamp, n) && Shares(e, poses[n - 1], poses[n], stamp))
    case None => forall n: nat :: !FirstAt(poses, stamp, n) && !FallsIn(poses, window, stamp, n)
  }

  lemma WrapIsShort(angle: real)
    ensures exists n :: ShortTurn(WrapAngle(angle), angle, n)
  {
    var q := angle / TAU;
    var n := RoundHalfEven(q);
    assert q * TAU == angle;
    assert angle - n as real * TAU == (q - n as real) * TAU;
    HalfOff(q);
    assert ShortTurn(WrapAngle(angle), angle, n);
  }

  lemma HalfOff(q: real)
    ensures -0.5 <= q - RoundHalfEven(q) as real <= 0.5
    ensures q - RoundHalfEven(q) as real == 0.5 || q - RoundHalfEven(q) as real == -0.5 ==> RoundHalfEven(q) % 2 == 0
  {
  }

  /** A share f of the way d over a span. */
  lemma ShareOf(start: real, d: real, f: real, passed: real, span: real)
    requires span > 0.0 && f == passed / span
    ensures ((start + f * d) - start) * span == passed * d
  {
    assert f * span == passed;
    assert f * d * span == f * span * d;
  }

  lemma InterpolateShares(b: Pose, a: Pose, stamp: real)
    requires b.stamp < a.stamp
    ensures Shares(Interpolate(b, a, stamp), b, a, stamp)
  {
    hide WrapAngle, ShortTurn;
    var span, passed := a.stamp - b.stamp, stamp - b.stamp;
    var f, turn := passed / span, WrapAngle(a.yaw - b.yaw);
    WrapIsShort(a.yaw - b.yaw);
    ShareOf(b.x, a.x - b.x, f, passed, span);
    ShareOf(b.y, a.y - b.y, f, passed, span);
    ShareOf(b.yaw, turn, f, passed, span);
    var n :| ShortTurn(turn, a.yaw - b.yaw, n);
    assert SharesTurn(Interpolate(b, a, stamp), b, a, stamp, turn, n);
  }

  lemma FallsOnce(poses: seq<Pose>, window: real, stamp: real, n: nat)
    requires Sorted(poses) && FallsIn(poses, window, stamp, n)
    ensures Left(poses, stamp) == n
  {
  }

  /** The declared answer, at any stamp among poses in order. */
  lemma EstimateExact(poses: seq<Pose>, window: real, stamp: real)
    requires Sorted(poses)
    ensures Answers(poses, window, stamp, EstimateOf(poses, window, stamp))
  {
    hide Interpolate, Left, Shares;
    var n := Left(poses, stamp);
    forall m: nat | FallsIn(poses, window, stamp, m)
      ensures m == n
    {
      FallsOnce(poses, window, stamp, m);
    }
    if n < |poses| && poses[n].stamp == stamp {
      assert FirstAt(poses, stamp, n);
    } else {
      assert forall m: nat :: !FirstAt(poses, stamp, m);
      if 0 < n < |poses| && poses[n].stamp - poses[n - 1].stamp <= window {
        assert FallsIn(poses, window, stamp, n);
        InterpolateShares(poses[n - 1], poses[n], stamp);
      }
    }
  }

  // --- what is handed out

  /** Offline: every truth, in stamp order, with the answer of all the estimates. */
  lemma AlignAnswers(estimates: seq<Pose>, truth: seq<Pose>, window: real)
    requires window > 0.0
    ensures var pairs, es, ts := Align(estimates, truth, window), SortByStamp(estimates), SortByStamp(truth);
      && |pairs| == |ts|
      && forall i :: 0 <= i < |pairs| ==>
           pairs[i].truth == ts[i] && Answers(es, window, ts[i].stamp, pairs[i].estimate)
  {
    hide Align, SortByStamp, EstimateOf, Answers, Sorted;
    AlignExact(estimates, truth, window);
    SortSorts(estimates);
    var pairs, es, ts := Align(estimates, truth, window), SortByStamp(estimates), SortByStamp(truth);
    forall i | 0 <= i < |pairs|
      ensures pairs[i].truth == ts[i] && Answers(es, window, ts[i].stamp, pairs[i].estimate)
    {
      EstimateExact(es, window, ts[i].stamp);
    }
  }

  /** Live: every truth, in order, with that answer unless it was overtaken. */
  lemma LiveAnswers(window: real, events: seq<Event>)
    requires window > 0.0 && TruthOrdered(None, events) && Sorted(EstimatesIn(events))
    ensures var pairs, es, ts := Live(Start(window), events), EstimatesIn(events), TruthsIn(events);
      && |pairs| == |ts|
      && forall i :: 0 <= i < |pairs| ==>
           && pairs[i].truth == ts[i]
           && if Overtaken(events, ts[i].stamp, window) then pairs[i].estimate == None
              else Answers(es, window, ts[i].stamp, pairs[i].estimate)
  {
    hide Live, EstimatesIn, TruthsIn, EstimateOf, Answers, Sorted, Overtaken;
    LiveExact(window, events);
    var pairs, es, ts := Live(Start(window), events), EstimatesIn(events), TruthsIn(events);
    forall i | 0 <= i < |pairs|
      ensures pairs[i].truth == ts[i]
      ensures if Overtaken(events, ts[i].stamp, window) then pairs[i].estimate == None
              else Answers(es, window, ts[i].stamp, pairs[i].estimate)
    {
      EstimateExact(es, window, ts[i].stamp);
    }
  }

  // --- the sort keeps the order of equal stamps

  function OfStamp(poses: seq<Pose>, stamp: real): seq<Pose> {
    if poses == [] then []
    else
      OfStamp(poses[..|poses| - 1], stamp) +
      if poses[|poses| - 1].stamp == stamp then [poses[|poses| - 1]] else []
  }

  lemma {:induction false} OfStampJoin(a: seq<Pose>, b: seq<Pose>, stamp: real)
    ensures OfStamp(a + b, stamp) == OfStamp(a, stamp) + OfStamp(b, stamp)
    decreases |b|
  {
    if b == [] {
      assert a + b == a;
    } else {
      assert (a + b)[..|a + b| - 1] == a + b[..|b| - 1];
      OfStampJoin(a, b[..|b| - 1], stamp);
    }
  }

  lemma {:induction false} NoneOfStamp(poses: seq<Pose>, stamp: real)
    requires forall i :: 0 <= i < |poses| ==> poses[i].stamp != stamp
    ensures OfStamp(poses, stamp) == []
    decreases |poses|
  {
    if poses != [] {
      NoneOfStamp(poses[..|poses| - 1], stamp);
    }
  }

  lemma LaterStamps(poses: seq<Pose>, n: nat, stamp: real)
    requires Sorted(poses) && n <= |poses| && (n < |poses| ==> poses[n].stamp > stamp)
    ensures forall i :: 0 <= i < |poses[n..]| ==> poses[n..][i].stamp != stamp
  {
  }

  lemma InsertLast(poses: seq<Pose>, pose: Pose, stamp: real)
    requires Sorted(poses)
    ensures OfStamp(Insert(poses, pose), stamp) == OfStamp(poses + [pose], stamp)
  {
    hide OfStamp, Right;
    var n := Right(poses, pose.stamp);
    var a, b := poses[..n], poses[n..];
    assert poses == a + b;
    OfStampJoin(a + [pose], b, stamp);
    OfStampJoin(a, [pose], stamp);
    OfStampJoin(a, b, stamp);
    OfStampJoin(poses, [pose], stamp);
    if stamp == pose.stamp {
      LaterStamps(poses, n, stamp);
      NoneOfStamp(b, stamp);
    } else {
      NoneOfStamp([pose], stamp);
    }
  }

  /** Poses of one stamp come out of the sort in the order they went in. */
  lemma {:induction false} SortStable(poses: seq<Pose>, stamp: real)
    ensures OfStamp(SortByStamp(poses), stamp) == OfStamp(poses, stamp)
    decreases |poses|
  {
    hide Insert, OfStamp;
    if poses != [] {
      var init, last := poses[..|poses| - 1], poses[|poses| - 1];
      assert poses == init + [last];
      SortSorts(init);
      SortStable(init, stamp);
      InsertLast(SortByStamp(init), last, stamp);
      OfStampJoin(SortByStamp(init), [last], stamp);
      OfStampJoin(init, [last], stamp);
    }
  }
}
