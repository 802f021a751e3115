/**
 Lap accounting by unwrapping the arc length: the live graph's accumulator and
 the rollout's restatement of its rule.
 */
module Laps {
  import opened Options
  import opened Products
  import opened Reals

  // --- arc length modulo the track

  function Truncated(q: real): int {
    if q >= 0.0 then q.Floor else -(-q).Floor
  }

  /** C's fmod, then shifted up when negative. */
  function Normalized(s: real, length: real): real
    requires length > 0.0
  {
    var r := s - Times(Truncated(s / length) as real, length);
    if r < 0.0 then r + length else r
  }

  /** numpy's mod: the floored remainder. */
  function Floored(s: real, length: real): real
    requires length > 0.0
  {
    s - Times((s / length).Floor as real, length)
  }

  lemma QuotientTimes(s: real, length: real)
    requires length > 0.0
    ensures s == Times(s / length, length)
  {
  }

  lemma TimesStep(k: real, length: real)
    ensures Times(k + 1.0, length) == Times(k, length) + length
  {
  }

  lemma TimesOrder(a: real, b: real, length: real)
    requires length > 0.0
    ensures a <= b <==> Times(a, length) <= Times(b, length)
    ensures a < b <==> Times(a, length) < Times(b, length)
  {
    if a < b {
      TimesPositive(b - a, length);
    } else if b < a {
      TimesPositive(a - b, length);
    }
  }

  lemma FlooredRange(s: real, length: real)
    requires length > 0.0
    ensures 0.0 <= Floored(s, length) < length
  {
    hide Times;
    var q := s / length;
    QuotientTimes(s, length);
    TimesOrder(q.Floor as real, q, length);
    TimesOrder(q, q.Floor as real + 1.0, length);
    TimesStep(q.Floor as real, length);
  }

  lemma TruncatedIs(q: real)
    ensures Truncated(q) == q.Floor || (q < 0.0 && Truncated(q) == q.Floor + 1)
  {
  }

  /** The two remainders are one. */
  lemma NormalizedIsFloored(s: real, length: real)
    requires length > 0.0
    ensures Normalized(s, length) == Floored(s, length)
  {
    hide Times, Truncated;
    FlooredRange(s, length);
    TruncatedIs(s / length);
    TimesStep((s / length).Floor as real, length);
  }

  /** The distance between two arc lengths, the short way round. */
  function Unwrapped(from: real, next: real, length: real): real {
    var delta := next - from;
    if delta < -length / 2.0 then delta + length
    else if delta > length / 2.0 then delta - length
    else delta
  }

  lemma WholeTurns(k: int, length: real, d: real)
    requires length > 0.0 && d == Times(k as real, length) && -length < d < length
    ensures d == 0.0
  {
    hide Times;
    TimesOrder(-1.0, k as real, length);
    TimesOrder(k as real, 1.0, length);
    TimesNames(length);
    assert k == 0;
  }

  lemma TimesNames(length: real)
    ensures Times(-1.0, length) == -length && Times(0.0, length) == 0.0 && Times(1.0, length) == length
  {
  }

  /** Two positions told apart by their remainders alone: unwrapping recovers the
      move when it is under half a turn, and only when it is at most half. */
  lemma UnwrapExact(p0: real, p1: real, length: real)
    requires length > 0.0
    ensures -length / 2.0 < p1 - p0 < length / 2.0 ==>
      Unwrapped(Floored(p0, length), Floored(p1, length), length) == p1 - p0
    ensures Unwrapped(Floored(p0, length), Floored(p1, length), length) == p1 - p0 ==>
      -length / 2.0 <= p1 - p0 <= length / 2.0
  {
    hide Times;
    var n0, n1 := Floored(p0, length), Floored(p1, length);
    var k := (p1 / length).Floor - (p0 / length).Floor;
    FlooredRange(p0, length);
    FlooredRange(p1, length);
    TurnsBetween((p0 / length).Floor, (p1 / length).Floor, length);
    TurnsNext(k, length);
    if -length / 2.0 < p1 - p0 < length / 2.0 {
      if n1 - n0 < -length / 2.0 {
        WholeTurns(k - 1, length, p1 - p0 - (n1 - n0 + length));
      } else if n1 - n0 > length / 2.0 {
        WholeTurns(k + 1, length, p1 - p0 - (n1 - n0 - length));
      } else {
        WholeTurns(k, length, p1 - p0 - (n1 - n0));
      }
    }
  }

  lemma TurnsBetween(a: int, b: int, length: real)
    ensures Times(b as real, length) - Times(a as real, length) == Times((b - a) as real, length)
  {
  }

  lemma TurnsNext(k: int, length: real)
    ensures Times((k - 1) as real, length) == Times(k as real, length) - length
    ensures Times((k + 1) as real, length) == Times(k as real, length) + length
  {
  }

  // --- the accumulator's rule

  datatype Sample = Sample(elapsedTime: real, s: real, wallClearance: real, trackingError: real,
                           colliding: bool, controlSaturated: bool)

  /** `peak`, the greatest distance so far, is history. */
  datatype State = State(
    startTime: real, lastTime: real, lastS: real, distance: real, lapTime: real, minimumClearance: real,
    collisions: nat, saturations: nat, started: bool, completed: bool, wasColliding: bool, wasSaturated: bool,
    trackingErrors: seq<real>, lapTimes: seq<real>, lastLapEnd: real, peak: real)

  const FRESH := State(0.0, 0.0, 0.0, 0.0, 0.0, 0.0, 0, 0, false, false, false, false, [], [], 0.0, 0.0)

  predicate Acceptable(x: Sample) {
    x.elapsedTime >= 0.0 && x.wallClearance >= 0.0 && x.trackingError >= 0.0
  }

  /** The sample's move, and its clocks. */
  function Moved(m: State, x: Sample, length: real): State
    requires length > 0.0
  {
    var s := Normalized(x.s, length);
    if !m.started then
      m.(started := true, startTime := x.elapsedTime, lastTime := x.elapsedTime, lastS := s,
         minimumClearance := x.wallClearance, lapTime := 0.0)
    else
      m.(lastTime := x.elapsedTime, distance := m.distance + Unwrapped(m.lastS, s, length), lastS := s,
         peak := Max(m.peak, m.distance + Unwrapped(m.lastS, s, length)),
         minimumClearance := if x.wallClearance < m.minimumClearance then x.wallClearance else m.minimumClearance,
         lapTime := x.elapsedTime - m.startTime)
  }

  /** Each multiple of the track length reached is one lap, up to `laps`. */
  function Lapped(m: State, length: real, laps: nat): State
    decreases laps - |m.lapTimes|
  {
    if |m.lapTimes| < laps && m.distance >= Times((|m.lapTimes| + 1) as real, length) then
      Lapped(m.(lapTimes := m.lapTimes + [m.lapTime - m.lastLapEnd], lastLapEnd := m.lapTime), length, laps)
    else m
  }

  function Tallied(m: State, x: Sample, laps: nat): State {
    m.(completed := m.completed || |m.lapTimes| == laps,
       collisions := if x.colliding && !m.wasColliding then m.collisions + 1 else m.collisions,
       saturations := if x.controlSaturated && !m.wasSaturated then m.saturations + 1 else m.saturations,
       wasColliding := x.colliding, wasSaturated := x.controlSaturated,
       trackingErrors := m.trackingErrors + [x.trackingError])
  }

  datatype Observed = Observed(state: State, ok: bool)

  /** One sample: refused, repeated, or counted. */
  function Observation(m: State, x: Sample, length: real, laps: nat): Observed
    requires length > 0.0
  {
    if m.completed then Observed(m, true)
    else if !Acceptable(x) then Observed(m, false)
    else if m.started && x.elapsedTime == m.lastTime then Observed(m, true)
    else if m.started && x.elapsedTime < m.startTime + m.lapTime then Observed(m.(lastTime := x.elapsedTime), false)
    else Observed(Tallied(Lapped(Moved(m, x, length), length, laps), x, laps), true)
  }

  /** A track of no length, or no laps to count, is refused. */
  method CreateAccumulator(trackLength: real, laps: nat) returns (m: Option<MetricsAccumulator>)
    ensures m.Some? <==> trackLength > 0.0 && laps >= 1
    ensures m.Some? ==>
      fresh(m.value) && m.value.Abs() == FRESH && m.value.trackLength == trackLength && m.value.laps == laps
  {
    if laps < 1 || trackLength <= 0.0 {
      return None;
    }
    var made := new MetricsAccumulator(trackLength, laps);
    m := Some(made);
  }

  class MetricsAccumulator {
    const trackLength: real
    const laps: nat
    var startTime: real
    var lastTime: real
    var lastS: real
    var distanceTravelled: real
    var lapTime: real
    var minimumWallClearance: real
    var collisionCount: nat
    var controlSaturationEvents: nat
    var started: bool
    var lapCompleted: bool
    var wasColliding: bool
    var wasSaturated: bool
    var trackingErrors: seq<real>
    var lapTimes: seq<real>
    var lastLapEnd: real
    ghost var peak: real

    ghost function Abs(): State
      reads this
    {
      State(startTime, lastTime, lastS, distanceTravelled, lapTime, minimumWallClearance, collisionCount,
            controlSaturationEvents, started, lapCompleted, wasColliding, wasSaturated, trackingErrors, lapTimes,
            lastLapEnd, peak)
    }

    constructor (trackLength: real, laps: nat)
      requires trackLength > 0.0 && laps >= 1
      ensures Abs() == FRESH && this.trackLength == trackLength && this.laps == laps
    {
      this.trackLength, this.laps := trackLength, laps;
      startTime, lastTime, lastS, distanceTravelled, lapTime, minimumWallClearance := 0.0, 0.0, 0.0, 0.0, 0.0, 0.0;
      collisionCount, controlSaturationEvents := 0, 0;
      started, lapCompleted, wasColliding, wasSaturated := false, false, false, false;
      trackingErrors, lapTimes, lastLapEnd, peak := [], [], 0.0, 0.0;
    }

    /** `ok` is false where the sample is refused with an exception. */
    method Observe(sample: Sample) returns (ok: bool)
      requires trackLength > 0.0
      modifies this
      ensures Observed(Abs(), ok) == Observation(old(Abs()), sample, trackLength, laps)
    {
      hide Moved, Lapped, Tallied;
      if lapCompleted {
        return true;
      }
      if sample.elapsedTime < 0.0 || sample.wallClearance < 0.0 || sample.trackingError < 0.0 {
        return false;
      }
      if started && sample.elapsedTime == lastTime {
        return true;
      }
      if started && sample.elapsedTime < startTime + lapTime {
        lastTime := sample.elapsedTime;
        return false;
      }
      Move(sample);
      CountLaps();
      Tally(sample);
      ok := true;
    }

    method Move(sample: Sample)
      requires trackLength > 0.0
      modifies this
      ensures Abs() == Moved(old(Abs()), sample, trackLength)
    {
      hide Normalized, Unwrapped;
      lastTime := sample.elapsedTime;
      var normalizedS := Normalized(sample.s, trackLength);
      if !started {
        started := true;
        startTime := sample.elapsedTime;
        lastS := normalizedS;
        minimumWallClearance := sample.wallClearance;
      } else {
        distanceTravelled := distanceTravelled + Unwrapped(lastS, normalizedS, trackLength);
        peak := Max(peak, distanceTravelled);
        lastS := normalizedS;
        if sample.wallClearance < minimumWallClearance {
          minimumWallClearance := sample.wallClearance;
        }
      }
      lapTime := sample.elapsedTime - startTime;
    }

    method Tally(sample: Sample)
      modifies this
      ensures Abs() == Tallied(old(Abs()), sample, laps)
    {
      if |lapTimes| == laps {
        lapCompleted := true;
      }
      if sample.colliding && !wasColliding {
        collisionCount := collisionCount + 1;
      }
      if sample.controlSaturated && !wasSaturated {
        controlSaturationEvents := controlSaturationEvents + 1;
      }
      wasColliding := sample.colliding;
      wasSaturated := sample.controlSaturated;
      trackingErrors := trackingErrors + [sample.trackingError];
    }

    method CountLaps()
      modifies this`lapTimes, this`lastLapEnd
      ensures Abs() == Lapped(old(Abs()), trackLength, laps)
    {
      while |lapTimes| < laps && distanceTravelled >= Times((|lapTimes| + 1) as real, trackLength)
        invariant Lapped(Abs(), trackLength, laps) == Lapped(old(Abs()), trackLength, laps)
        decreases laps - |lapTimes|
      {
        lapTimes := lapTimes + [lapTime - lastLapEnd];
        lastLapEnd := lapTime;
      }
    }
  }

  // --- the rollout's rule

  datatype Lap = Lap(lastS: Option<real>, startTime: real, travelled: real, completed: bool, lapTime: real)

  const NO_LAP := Lap(None, 0.0, 0.0, false, 0.0)

  function Updated(c: Lap, s: real, elapsedTime: real, length: real): Lap
    requires length > 0.0
  {
    if c.completed then c
    else
      var normalized := Floored(s, length);
      var start := if c.lastS == None then elapsedTime else c.startTime;
      var travelled :=
        if c.lastS == None then c.travelled else c.travelled + Unwrapped(c.lastS.value, normalized, length);
      Lap(Some(normalized), start, travelled, travelled >= length, elapsedTime - start)
  }

  method CreateLap(trackLength: real) returns (l: Option<CenterlineLap>)
    ensures l.Some? <==> trackLength > 0.0
    ensures l.Some? ==> fresh(l.value) && l.value.Abs() == NO_LAP && l.value.length == trackLength
  {
    if trackLength <= 0.0 {
      return None;
    }
    var made := new CenterlineLap(trackLength);
    l := Some(made);
  }

  class CenterlineLap {
    const length: real
    var lastS: Option<real>
    var startTime: real
    var travelled: real
    var completed: bool
    var lapTime: real

    ghost function Abs(): Lap
      reads this
    {
      Lap(lastS, startTime, travelled, completed, lapTime)
    }

    constructor (trackLength: real)
      requires trackLength > 0.0
      ensures Abs() == NO_LAP && length == trackLength
    {
      length := trackLength;
      lastS, startTime, travelled, completed, lapTime := None, 0.0, 0.0, false, 0.0;
    }

    method Update(s: real, elapsedTime: real) returns (done: bool)
      requires length > 0.0
      modifies this
      ensures Abs() == Updated(old(Abs()), s, elapsedTime, length) && done == completed
    {
      if completed {
        return true;
      }
      var normalized := Floored(s, length);
      if lastS == None {
        startTime := elapsedTime;
      } else {
        var delta := normalized - lastS.value;
        if delta < -length / 2.0 {
          delta := delta + length;
        } else if delta > length / 2.0 {
          delta := delta - length;
        }
        travelled := travelled + delta;
      }
      lastS := Some(normalized);
      lapTime := elapsedTime - startTime;
      completed := travelled >= length;
      return completed;
    }
  }
}
