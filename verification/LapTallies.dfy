/**
 The figures a run reports beside its laps: the least clearance, the events and the
 tracking errors, over any samples, refused and repeated ones included.
 */
module LapTallies {
  import opened Laps
  import opened LapProofs

  /** The sample is neither refused nor left out: the run still goes on, its figures
      are not negative, and its instant is new and not before the latest counted. */
  ghost predicate Counts(m: State, x: Sample) {
    && !m.completed && x.elapsedTime >= 0.0 && x.wallClearance >= 0.0 && x.trackingError >= 0.0
    && (m.started ==> x.elapsedTime != m.lastTime && x.elapsedTime >= m.startTime + m.lapTime)
  }

  /** The samples of the run that count, in order. */
  ghost function Counting(xs: seq<Sample>, length: real, laps: nat): seq<Sample>
    requires length > 0.0
  {
    if xs == [] then []
    else
      var init, x := xs[..|xs| - 1], xs[|xs| - 1];
      Counting(init, length, laps) + if Counts(Run(init, length, laps), x) then [x] else []
  }

  /** Where a flag goes up. */
  ghost function Rises(flags: seq<bool>): set<nat> {
    set k: nat | k < |flags| && RisesAt(flags, k)
  }

  ghost predicate RisesAt(flags: seq<bool>, k: nat)
    requires k < |flags|
  {
    flags[k] && (k > 0 ==> !flags[k - 1])
  }

  function Collisions(xs: seq<Sample>): (r: seq<bool>)
    ensures |r| == |xs| && forall i :: 0 <= i < |xs| ==> r[i] == xs[i].colliding
  {
    seq(|xs|, i requires 0 <= i < |xs| => xs[i].colliding)
  }

  function Saturations(xs: seq<Sample>): (r: seq<bool>)
    ensures |r| == |xs| && forall i :: 0 <= i < |xs| ==> r[i] == xs[i].controlSaturated
  {
    seq(|xs|, i requires 0 <= i < |xs| => xs[i].controlSaturated)
  }

  function Errors(xs: seq<Sample>): (r: seq<real>)
    ensures |r| == |xs| && forall i :: 0 <= i < |xs| ==> r[i] == xs[i].trackingError
  {
    seq(|xs|, i requires 0 <= i < |xs| => xs[i].trackingError)
  }

  ghost predicate LeastClearance(xs: seq<Sample>, clearance: real) {
    && (forall i :: 0 <= i < |xs| ==> clearance <= xs[i].wallClearance)
    && exists i :: 0 <= i < |xs| && clearance == xs[i].wallClearance
  }

  /** The state reports the figures of the samples that counted. */
  ghost predicate Reports(m: State, counted: seq<Sample>) {
    && (m.started <==> counted != [])
    && (counted != [] ==> LeastClearance(counted, m.minimumClearance))
    && m.collisions == |Rises(Collisions(counted))| && m.saturations == |Rises(Saturations(counted))|
    && m.wasColliding == (counted != [] && counted[|counted| - 1].colliding)
    && m.wasSaturated == (counted != [] && counted[|counted| - 1].controlSaturated)
    && m.trackingErrors == Errors(counted)
  }

  lemma RisesNext(flags: seq<bool>, flag: bool)
    ensures |Rises(flags + [flag])| ==
      |Rises(flags)| + if flag && (flags != [] ==> !flags[|flags| - 1]) then 1 else 0
  {
    var next, n := flags + [flag], |flags|;
    forall k: nat | k < n
      ensures RisesAt(next, k) <==> RisesAt(flags, k)
    {
    }
    if RisesAt(next, n) {
      assert Rises(next) == Rises(flags) + {n};
    } else {
      assert Rises(next) == Rises(flags);
    }
  }

  lemma LeastNext(xs: seq<Sample>, x: Sample, clearance: real)
    requires xs != [] ==> LeastClearance(xs, clearance)
    ensures LeastClearance(xs + [x], if xs == [] || x.wallClearance < clearance then x.wallClearance else clearance)
  {
    if xs != [] && !(x.wallClearance < clearance) {
      var i :| 0 <= i < |xs| && clearance == xs[i].wallClearance;
      assert (xs + [x])[i] == xs[i];
    } else {
      assert (xs + [x])[|xs|] == x;
    }
  }

  lemma ObservationReports(m: State, counted: seq<Sample>, x: Sample, length: real, laps: nat)
    requires length > 0.0 && Reports(m, counted)
    ensures Reports(Observation(m, x, length, laps).state, counted + if Counts(m, x) then [x] else [])
  {
    hide Rises, LeastClearance, Normalized, Unwrapped, Lapped;
    if Counts(m, x) {
      var next := counted + [x];
      LappedLeaves(Moved(m, x, length), length, laps);
      LeastNext(counted, x, m.minimumClearance);
      RisesNext(Collisions(counted), x.colliding);
      RisesNext(Saturations(counted), x.controlSaturated);
      assert Collisions(next) == Collisions(counted) + [x.colliding];
      assert Saturations(next) == Saturations(counted) + [x.controlSaturated];
      assert Errors(next) == Errors(counted) + [x.trackingError];
    } else {
      assert counted + [] == counted;
    }
  }

  /** Whatever the samples: the clearance reported is the least of those that count,
      each event counts its flag's rises among them, and the errors are theirs. */
  lemma {:induction false} RunReports(xs: seq<Sample>, length: real, laps: nat)
    requires length > 0.0
    ensures Reports(Run(xs, length, laps), Counting(xs, length, laps))
    decreases |xs|
  {
    hide Reports, Observation, Counts;
    if xs == [] {
      NothingReported();
    } else {
      var init, x := xs[..|xs| - 1], xs[|xs| - 1];
      RunReports(init, length, laps);
      ObservationReports(Run(init, length, laps), Counting(init, length, laps), x, length, laps);
    }
  }

  lemma NothingReported()
    ensures Reports(FRESH, [])
  {
    assert Rises([]) == {};
    assert Collisions([]) == [] && Saturations([]) == [] && Errors([]) == [];
  }
}
