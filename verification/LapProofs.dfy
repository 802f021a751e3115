/**
 What every run of the lap accounting keeps, what it recovers of the true
 progress, and that its two implementations agree.
 */
module LapProofs {
  import opened Laps
  import opened Options
  import opened Products
  import opened Reals

  function Sum(times: seq<real>): real {
    if times == [] then 0.0 else Sum(times[..|times| - 1]) + times[|times| - 1]
  }

  ghost predicate Invariant(m: State, length: real, laps: nat)
    requires length > 0.0
  {
    && |m.lapTimes| <= laps
    && (m.completed <==> |m.lapTimes| == laps)
    && Sum(m.lapTimes) == m.lastLapEnd
    && m.distance <= m.peak && Counted(m, length, laps)
    && (if m.started then 0.0 <= m.lastS < length else m.lapTimes == [] && m.distance == 0.0 && m.peak == 0.0)
  }

  /** The recorded laps are the track lengths in the greatest distance, up to `laps`. */
  ghost predicate Counted(m: State, length: real, laps: nat)
    requires length > 0.0
  {
    && Times(|m.lapTimes| as real, length) <= m.peak
    && (|m.lapTimes| < laps ==> m.peak < Times((|m.lapTimes| + 1) as real, length))
  }

  lemma CountedIsFloor(m: State, length: real, laps: nat)
    requires length > 0.0 && |m.lapTimes| <= laps && Counted(m, length, laps)
    ensures |m.lapTimes| == if (m.peak / length).Floor < laps then (m.peak / length).Floor else laps
  {
    hide Times;
    var q := m.peak / length;
    QuotientTimes(m.peak, length);
    TimesOrder(|m.lapTimes| as real, q, length);
    TimesOrder(q, (|m.lapTimes| + 1) as real, length);
  }

  lemma UnwrappedShort(from: real, next: real, length: real)
    requires length > 0.0 && 0.0 <= from < length && 0.0 <= next < length
    ensures -length / 2.0 <= Unwrapped(from, next, length) <= length / 2.0
  {
  }

  lemma MovedKeeps(m: State, x: Sample, length: real, laps: nat)
    requires length > 0.0 && laps >= 1 && Invariant(m, length, laps) && !m.completed
    ensures var r := Moved(m, x, length);
      && r.lapTimes == m.lapTimes && r.lastLapEnd == m.lastLapEnd && r.completed == m.completed
      && r.started && 0.0 <= r.lastS < length && r.distance <= r.peak
      && r.peak == Max(m.peak, r.distance)
      && (|m.lapTimes| < laps ==> r.peak < Times((|m.lapTimes| + 2) as real, length))
      && Times(|m.lapTimes| as real, length) <= r.peak
  {
    hide Times, Normalized, Floored, Unwrapped, Sum;
    NormalizedIsFloored(x.s, length);
    FlooredRange(x.s, length);
    if m.started {
      UnwrappedShort(m.lastS, Normalized(x.s, length), length);
    }
    LapAfter(|m.lapTimes|, length);
  }

  lemma LapAfter(k: nat, length: real)
    ensures Times((k + 2) as real, length) == Times((k + 1) as real, length) + length
  {
  }

  /** The lap loop runs at most once a sample. */
  lemma LappedOnce(m: State, length: real, laps: nat)
    requires length > 0.0 && |m.lapTimes| < laps
    requires m.distance < Times((|m.lapTimes| + 2) as real, length)
    ensures Lapped(m, length, laps) ==
      if m.distance >= Times((|m.lapTimes| + 1) as real, length)
      then m.(lapTimes := m.lapTimes + [m.lapTime - m.lastLapEnd], lastLapEnd := m.lapTime)
      else m
  {
    hide Times;
    if m.distance >= Times((|m.lapTimes| + 1) as real, length) {
      var next := m.(lapTimes := m.lapTimes + [m.lapTime - m.lastLapEnd], lastLapEnd := m.lapTime);
      assert |next.lapTimes| + 1 == |m.lapTimes| + 2;
      assert Lapped(next, length, laps) == next;
    }
  }

  lemma SumNext(times: seq<real>, t: real)
    ensures Sum(times + [t]) == Sum(times) + t
  {
    assert (times + [t])[..|times|] == times;
  }

  /** Every sample keeps the books, whatever it is; it records one lap at most. */
  lemma ObservationKeeps(m: State, x: Sample, length: real, laps: nat)
    requires length > 0.0 && laps >= 1 && Invariant(m, length, laps)
    ensures var r := Observation(m, x, length, laps).state;
      Invariant(r, length, laps) && |m.lapTimes| <= |r.lapTimes| <= |m.lapTimes| + 1
  {
    hide Times, Moved, Lapped, Sum;
    if !m.completed {
      MovedKeeps(m, x, length, laps);
      var moved := Moved(m, x, length);
      LappedOnce(moved, length, laps);
      SumNext(m.lapTimes, moved.lapTime - moved.lastLapEnd);
      assert |m.lapTimes| + 1 + 1 == |m.lapTimes| + 2;
    }
  }

  function Run(xs: seq<Sample>, length: real, laps: nat): State
    requires length > 0.0
  {
    if xs == [] then FRESH
    else Observation(Run(xs[..|xs| - 1], length, laps), xs[|xs| - 1], length, laps).state
  }

  lemma {:induction false} RunKeeps(xs: seq<Sample>, length: real, laps: nat)
    requires length > 0.0 && laps >= 1
    ensures Invariant(Run(xs, length, laps), length, laps)
    decreases |xs|
  {
    if xs == [] {
      assert Times(0.0, length) == 0.0 && Times(1.0, length) == length;
    } else {
      hide Invariant, Observation;
      RunKeeps(xs[..|xs| - 1], length, laps);
      ObservationKeeps(Run(xs[..|xs| - 1], length, laps), xs[|xs| - 1], length, laps);
    }
  }

  // --- against the true progress

  /** No sample is refused: instants never go back, though they may repeat. */
  ghost predicate Clean(xs: seq<Sample>) {
    && (forall i :: 0 <= i < |xs| ==> Acceptable(xs[i]))
    && (forall i, j :: 0 <= i < j < |xs| ==> xs[i].elapsedTime <= xs[j].elapsedTime)
  }

  /** No instant repeats either. */
  ghost predicate Strict(xs: seq<Sample>) {
    Clean(xs) && forall i, j :: 0 <= i < j < |xs| ==> xs[i].elapsedTime < xs[j].elapsedTime
  }

  /** The samples' arc lengths are the true progress, modulo the track: one progress
      an instant, moving less than half the track from one sample to the next. */
  ghost predicate Samples(xs: seq<Sample>, progress: seq<real>, length: real)
    requires length > 0.0
  {
    && |progress| == |xs|
    && (forall i, j :: 0 <= i && j == i + 1 && j < |xs| && xs[i].elapsedTime == xs[j].elapsedTime ==>
          progress[i] == progress[j])
    && (forall i :: 0 <= i < |xs| ==> Floored(xs[i].s, length) == Floored(progress[i], length))
    && (forall i, j :: 0 <= i && j == i + 1 && j < |xs| ==> -length / 2.0 < progress[j] - progress[i] < length / 2.0)
  }

  function Peak(progress: seq<real>): real
    requires progress != []
  {
    if |progress| == 1 then 0.0
    else Max(Peak(progress[..|progress| - 1]), progress[|progress| - 1] - progress[0])
  }

  /** The clock as the last sample left it. */
  ghost predicate Clocked(m: State, xs: seq<Sample>)
    requires xs != []
  {
    && m.started && m.startTime == xs[0].elapsedTime
    && m.lastTime == xs[|xs| - 1].elapsedTime && m.lapTime == m.lastTime - m.startTime
  }

  lemma StillRunning(m: State, x: Sample, length: real, laps: nat)
    requires length > 0.0 && m.completed
    ensures Observation(m, x, length, laps).state == m
  {
  }

  /** While the run is not complete the clock follows every sample. */
  lemma ClockStep(m: State, xs: seq<Sample>, x: Sample, length: real, laps: nat)
    requires length > 0.0 && !m.completed && Clean(xs + [x]) && Acceptable(x)
    requires if xs == [] then m == FRESH else Clocked(m, xs) && xs[|xs| - 1].elapsedTime != x.elapsedTime
    ensures var r := Observation(m, x, length, laps).state;
      && r == Tallied(Lapped(Moved(m, x, length), length, laps), x, laps)
      && Clocked(r, xs + [x])
      && r.distance == Moved(m, x, length).distance && r.lastS == Moved(m, x, length).lastS
      && r.peak == Moved(m, x, length).peak
  {
    hide Times, Normalized, Unwrapped;
    LappedLeaves(Moved(m, x, length), length, laps);
    if xs != [] {
      assert (xs + [x])[|xs| - 1].elapsedTime <= (xs + [x])[|xs|].elapsedTime;
    }
  }

  /** A sample of the instant just observed changes nothing, whatever it says. */
  lemma RepeatInvisible(m: State, x: Sample, length: real, laps: nat)
    requires length > 0.0 && m.started && x.elapsedTime == m.lastTime
    ensures Observation(m, x, length, laps).state == m
  {
  }

  lemma {:induction false} PeakReached(progress: seq<real>)
    requires progress != []
    ensures Peak(progress) >= progress[|progress| - 1] - progress[0]
  {
    PeakNext(progress);
  }

  lemma {:induction false} LappedLeaves(m: State, length: real, laps: nat)
    ensures var r := Lapped(m, length, laps);
      r == m.(lapTimes := r.lapTimes, lastLapEnd := r.lastLapEnd)
    decreases laps - |m.lapTimes|
  {
    hide Times;
    if |m.lapTimes| < laps && m.distance >= Times((|m.lapTimes| + 1) as real, length) {
      LappedLeaves(m.(lapTimes := m.lapTimes + [m.lapTime - m.lastLapEnd], lastLapEnd := m.lapTime), length, laps);
    }
  }

  /** While the run is not complete its clock is that of the last sample. */
  lemma {:induction false} CleanClocked(xs: seq<Sample>, length: real, laps: nat)
    requires length > 0.0 && xs != [] && Clean(xs) && !Run(xs, length, laps).completed
    ensures Clocked(Run(xs, length, laps), xs)
    decreases |xs|
  {
    hide Observation, Lapped, Moved, Tallied;
    var n := |xs| - 1;
    var init, x := xs[..n], xs[n];
    assert init + [x] == xs;
    StillRunningBefore(xs, length, laps);
    if n > 0 {
      CleanClocked(init, length, laps);
    }
    if n > 0 && init[n - 1].elapsedTime == x.elapsedTime {
      RepeatInvisible(Run(init, length, laps), x, length, laps);
    } else {
      ClockStep(Run(init, length, laps), init, x, length, laps);
    }
  }

  /** A repeated instant is invisible to the run, however the sample differs. */
  lemma RepeatDropped(xs: seq<Sample>, x: Sample, length: real, laps: nat)
    requires length > 0.0 && xs != [] && Clean(xs) && x.elapsedTime == xs[|xs| - 1].elapsedTime
    ensures Run(xs + [x], length, laps) == Run(xs, length, laps)
  {
    hide Observation;
    assert (xs + [x])[..|xs|] == xs;
    var m := Run(xs, length, laps);
    if m.completed {
      StillRunning(m, x, length, laps);
    } else {
      CleanClocked(xs, length, laps);
      RepeatInvisible(m, x, length, laps);
    }
  }

  /** Up to the sample that completes it, the run knows the true distance exactly,
      and the greatest one so far. */
  lemma {:induction false} RunExact(xs: seq<Sample>, progress: seq<real>, length: real, laps: nat)
    requires length > 0.0 && laps >= 1 && xs != [] && Clean(xs) && Samples(xs, progress, length)
    requires !Run(xs[..|xs| - 1], length, laps).completed
    ensures var m := Run(xs, length, laps);
      && Clocked(m, xs) && m.lastS == Floored(progress[|xs| - 1], length)
      && m.distance == progress[|xs| - 1] - progress[0] && m.peak == Peak(progress)
    decreases |xs|
  {
    hide Times, Normalized, Unwrapped, Floored, Observation, Lapped, Tallied, Peak, Run;
    var n := |xs| - 1;
    var init, x := xs[..n], xs[n];
    assert init + [x] == xs;
    PeakNext(progress);
    if n > 0 {
      assert progress[..n][0] == progress[0] && progress[..n][n - 1] == progress[n - 1];
      StillRunningBefore(init, length, laps);
      RunExact(init, progress[..n], length, laps);
    }
    if n > 0 && init[n - 1].elapsedTime == x.elapsedTime {
      PeakReached(progress[..n]);
      RepeatDropped(init, x, length, laps);
    } else if n > 0 {
      RunExactMove(init, x, progress[0], progress[n - 1], progress[n], length, laps);
    } else {
      assert [x] == xs;
      RunExactFirst(x, progress[0], length, laps);
    }
  }

  /** A move of under half a track is recovered whole. */
  lemma MoveExact(m: State, x: Sample, p0: real, p1: real, length: real)
    requires length > 0.0 && m.started && m.lastS == Floored(p0, length)
    requires Floored(x.s, length) == Floored(p1, length) && -length / 2.0 < p1 - p0 < length / 2.0
    ensures var r := Moved(m, x, length);
      r.lastS == Floored(p1, length) && r.distance == m.distance + (p1 - p0) && r.peak == Max(m.peak, r.distance)
  {
    hide Normalized, Unwrapped, Floored;
    NormalizedIsFloored(x.s, length);
    UnwrapExact(p0, p1, length);
  }

  lemma FirstExact(x: Sample, p: real, length: real)
    requires length > 0.0 && Floored(x.s, length) == Floored(p, length)
    ensures var r := Moved(FRESH, x, length); r.lastS == Floored(p, length) && r.distance == 0.0 && r.peak == 0.0
  {
    hide Normalized, Floored;
    NormalizedIsFloored(x.s, length);
  }

  /** The step a fresh instant makes, up to the move of half a track. */
  lemma RunExactMove(init: seq<Sample>, x: Sample, start: real, p0: real, p1: real, length: real, laps: nat)
    requires length > 0.0 && init != [] && Clean(init + [x]) && Acceptable(x)
    requires init[|init| - 1].elapsedTime != x.elapsedTime && Floored(x.s, length) == Floored(p1, length)
    requires -length / 2.0 < p1 - p0 < length / 2.0
    requires var m := Run(init, length, laps);
      !m.completed && Clocked(m, init) && m.lastS == Floored(p0, length) && m.distance == p0 - start
    ensures var m, r := Run(init, length, laps), Run(init + [x], length, laps);
      && Clocked(r, init + [x]) && r.lastS == Floored(p1, length) && r.distance == p1 - start
      && r.peak == Max(m.peak, r.distance)
  {
    hide Floored, Observation, Lapped, Tallied, Moved, Run, Times, Normalized, Unwrapped, Clean;
    var m := Run(init, length, laps);
    assert (init + [x])[..|init|] == init;
    MoveExact(m, x, p0, p1, length);
    RunLast(init + [x], length, laps);
    ClockStep(m, init, x, length, laps);
  }

  lemma RunExactFirst(x: Sample, p: real, length: real, laps: nat)
    requires length > 0.0 && Clean([x]) && Acceptable(x) && Floored(x.s, length) == Floored(p, length)
    ensures var r := Run([x], length, laps);
      Clocked(r, [x]) && r.lastS == Floored(p, length) && r.distance == 0.0 && r.peak == 0.0
  {
    hide Floored, Observation, Lapped, Tallied, Moved, Run, Times, Normalized, Unwrapped, Clean;
    assert [] + [x] == [x] && [x][..0] == [];
    RunLast([x], length, laps);
    RunLast([], length, laps);
    FirstExact(x, p, length);
    ClockStep(FRESH, [], x, length, laps);
  }

  lemma RunLast(xs: seq<Sample>, length: real, laps: nat)
    requires length > 0.0
    ensures xs == [] ==> Run(xs, length, laps) == FRESH
    ensures xs != [] ==>
      Run(xs, length, laps) == Observation(Run(xs[..|xs| - 1], length, laps), xs[|xs| - 1], length, laps).state
  {
    hide Observation;
  }

  lemma PeakNext(progress: seq<real>)
    requires progress != []
    ensures |progress| == 1 ==> Peak(progress) == 0.0
    ensures |progress| > 1 ==>
      Peak(progress) == Max(Peak(progress[..|progress| - 1]), progress[|progress| - 1] - progress[0])
  {
  }

  lemma StillRunningBefore(xs: seq<Sample>, length: real, laps: nat)
    requires length > 0.0 && xs != [] && !Run(xs, length, laps).completed
    ensures !Run(xs[..|xs| - 1], length, laps).completed
  {
    hide Observation;
    if Run(xs[..|xs| - 1], length, laps).completed {
      StillRunning(Run(xs[..|xs| - 1], length, laps), xs[|xs| - 1], length, laps);
    }
  }

  /** The laps recorded are the whole laps of true progress, counted at its greatest
      and up to the number asked for; their times sum to the last crossing. */
  lemma LapsExact(xs: seq<Sample>, progress: seq<real>, length: real, laps: nat)
    requires length > 0.0 && laps >= 1 && xs != [] && Clean(xs) && Samples(xs, progress, length)
    requires !Run(xs[..|xs| - 1], length, laps).completed
    ensures var m := Run(xs, length, laps);
      var turns := (Peak(progress) / length).Floor;
      && |m.lapTimes| == (if turns < laps then turns else laps)
      && (m.completed <==> turns >= laps)
      && Sum(m.lapTimes) == m.lastLapEnd
  {
    hide Counted, Sum, Peak;
    RunKeeps(xs, length, laps);
    RunExact(xs, progress, length, laps);
    CountedIsFloor(Run(xs, length, laps), length, laps);
  }

  // --- the two implementations

  function RunLap(xs: seq<Sample>, length: real): Lap
    requires length > 0.0
  {
    if xs == [] then NO_LAP
    else Updated(RunLap(xs[..|xs| - 1], length), xs[|xs| - 1].s, xs[|xs| - 1].elapsedTime, length)
  }

  ghost predicate Agree(m: State, c: Lap) {
    && m.completed == c.completed && m.started == c.lastS.Some?
    && (m.started ==> m.lastS == c.lastS.value && m.startTime == c.startTime)
    && m.distance == c.travelled && m.lapTime == c.lapTime
    && m.lapTimes == (if c.completed then [c.lapTime] else []) && (!c.completed ==> m.lastLapEnd == 0.0)
  }

  lemma AgreeStep(m: State, c: Lap, xs: seq<Sample>, x: Sample, length: real)
    requires length > 0.0 && Agree(m, c) && Invariant(m, length, 1) && !m.completed && Clean(xs + [x]) && Acceptable(x)
    requires if xs == [] then m == FRESH else Clocked(m, xs) && xs[|xs| - 1].elapsedTime != x.elapsedTime
    ensures Agree(Observation(m, x, length, 1).state, Updated(c, x.s, x.elapsedTime, length))
  {
    hide Normalized, Floored, Unwrapped, Times, Invariant, Clean;
    NormalizedIsFloored(x.s, length);
    ClockStep(m, xs, x, length, 1);
    MovedKeeps(m, x, length, 1);
    LappedOnce(Moved(m, x, length), length, 1);
    assert Times(1.0, length) == length by { TimesNames(length); }
  }

  /** One lap, strictly increasing times: the rollout reports the same completion,
      at the same sample, with the same lap time. */
  lemma {:induction false} Agreement(xs: seq<Sample>, length: real)
    requires length > 0.0 && Strict(xs)
    ensures Agree(Run(xs, length, 1), RunLap(xs, length))
    ensures xs != [] && !Run(xs, length, 1).completed ==> Clocked(Run(xs, length, 1), xs)
    decreases |xs|
  {
    hide Observation, Updated, Times;
    if xs != [] {
      var init, x := xs[..|xs| - 1], xs[|xs| - 1];
      var m, c := Run(init, length, 1), RunLap(init, length);
      assert init + [x] == xs;
      Agreement(init, length);
      RunKeeps(init, length, 1);
      if m.completed {
        StillRunning(m, x, length, 1);
        DoneStays(c, x, length);
      } else {
        AgreeStep(m, c, init, x, length);
        ClockStep(m, init, x, length, 1);
      }
    }
  }

  lemma DoneStays(c: Lap, x: Sample, length: real)
    requires length > 0.0 && c.completed
    ensures Updated(c, x.s, x.elapsedTime, length) == c
  {
  }
}
