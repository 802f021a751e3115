/**
 Pairing truth samples with estimates: what one aligner call does to its lists,
 and the offline answer it is measured against.
 */
module Alignment {
  import opened Options

  datatype Pose = Pose(stamp: real, x: real, y: real, yaw: real)

  datatype Pair = Pair(truth: Pose, estimate: Option<Pose>)

  const TAU: real := 6.283185307179586

  /** The nearest integer, ties to even, as IEEE remainder rounds. */
  function RoundHalfEven(q: real): int {
    var below := q.Floor;
    var excess := q - below as real;
    if excess < 0.5 || (excess == 0.5 && below % 2 == 0) then below else below + 1
  }

  function WrapAngle(angle: real): (r: real)
    ensures -TAU / 2.0 <= r <= TAU / 2.0
  {
    var q := angle / TAU;
    var n := RoundHalfEven(q);
    assert -0.5 <= q - n as real <= 0.5;
    assert angle - n as real * TAU == (q - n as real) * TAU;
    angle - n as real * TAU
  }

  function Interpolate(before: Pose, after: Pose, stamp: real): Pose {
    var span := after.stamp - before.stamp;
    var fraction := if span <= 0.0 then 0.0 else (stamp - before.stamp) / span;
    Pose(stamp,
         before.x + fraction * (after.x - before.x),
         before.y + fraction * (after.y - before.y),
         before.yaw + fraction * WrapAngle(after.yaw - before.yaw))
  }

  ghost predicate Sorted(poses: seq<Pose>) {
    forall i, j :: 0 <= i < j < |poses| ==> poses[i].stamp <= poses[j].stamp
  }

  /** bisect_left: how many poses, from the front, are before the stamp. */
  function Left(poses: seq<Pose>, stamp: real): (n: nat)
    ensures n <= |poses|
    ensures forall i :: 0 <= i < n ==> poses[i].stamp < stamp
    ensures n < |poses| ==> poses[n].stamp >= stamp
  {
    if poses == [] || poses[0].stamp >= stamp then 0
    else
      var rest := Left(poses[1..], stamp);
      assert forall i :: 1 <= i < rest + 1 ==> poses[i] == poses[1..][i - 1];
      rest + 1
  }

  /** bisect_right: how many poses, from the front, are not after the stamp. */
  function Right(poses: seq<Pose>, stamp: real): (n: nat)
    ensures n <= |poses|
    ensures forall i :: 0 <= i < n ==> poses[i].stamp <= stamp
    ensures n < |poses| ==> poses[n].stamp > stamp
  {
    if poses == [] || poses[0].stamp > stamp then 0
    else
      var rest := Right(poses[1..], stamp);
      assert forall i :: 1 <= i < rest + 1 ==> poses[i] == poses[1..][i - 1];
      rest + 1
  }

  function Insert(poses: seq<Pose>, pose: Pose): seq<Pose> {
    var n := Right(poses, pose.stamp);
    poses[..n] + [pose] + poses[n..]
  }

  /** The estimate a truth stamp is scored against when all estimates are known:
      one at the stamp, else its two neighbours' interpolation if they are no
      further apart than the window. */
  function EstimateOf(estimates: seq<Pose>, window: real, stamp: real): Option<Pose> {
    var n := Left(estimates, stamp);
    if n == |estimates| then None
    else if estimates[n].stamp == stamp then Some(estimates[n])
    else if n == 0 || estimates[n].stamp - estimates[n - 1].stamp > window then None
    else Some(Interpolate(estimates[n - 1], estimates[n], stamp))
  }

  datatype Decision = Undecided | Decided(estimate: Option<Pose>)

  datatype State = State(window: real, estimates: seq<Pose>, pending: seq<Pose>, latest: Option<real>)

  function Decide(s: State, stamp: real, final: bool): Decision {
    var n := Left(s.estimates, stamp);
    if n < |s.estimates| && s.estimates[n].stamp == stamp then Decided(Some(s.estimates[n]))
    else if n < |s.estimates| then
      if n == 0 then Decided(None)
      else if s.estimates[n].stamp - s.estimates[n - 1].stamp > s.window then Decided(None)
      else Decided(Some(Interpolate(s.estimates[n - 1], s.estimates[n], stamp)))
    else if final || (s.latest.Some? && s.latest.value - stamp > s.window) then Decided(None)
    else Undecided
  }

  datatype Result = Result(state: State, pairs: seq<Pair>)

  /** Waiting truth samples leave from the front while they can be decided. */
  function Resolve(s: State, final: bool): Result
    decreases |s.pending|
  {
    if s.pending == [] then Result(s, [])
    else
      var d := Decide(s, s.pending[0].stamp, final);
      if d == Undecided then Result(s, [])
      else
        var rest := Resolve(s.(pending := s.pending[1..]), final);
        Result(rest.state, [Pair(s.pending[0], d.estimate)] + rest.pairs)
  }

  /** The poses from the last one before the horizon on. */
  function View(poses: seq<Pose>, horizon: real): seq<Pose> {
    var n := Left(poses, horizon);
    if n > 1 then poses[n - 1..] else poses
  }

  function Discard(s: State): State {
    var horizon := if s.pending != [] then Some(s.pending[0].stamp) else s.latest;
    if horizon == None then s else s.(estimates := View(s.estimates, horizon.value))
  }

  datatype Event = Estimate(pose: Pose) | Truth(pose: Pose)

  function Later(latest: Option<real>, stamp: real): Option<real> {
    if latest.Some? && latest.value >= stamp then latest else Some(stamp)
  }

  function Accept(s: State, e: Event): State {
    match e
    case Estimate(pose) => s.(estimates := Insert(s.estimates, pose))
    case Truth(pose) => s.(pending := s.pending + [pose], latest := Later(s.latest, pose.stamp))
  }

  /** One call of the aligner. */
  function Step(s: State, e: Event): Result {
    var r := Resolve(Accept(s, e), false);
    Result(Discard(r.state), r.pairs)
  }

  function Flush(s: State): Result {
    var r := Resolve(s, true);
    Result(Discard(r.state), r.pairs)
  }

  function Start(window: real): State {
    State(window, [], [], None)
  }

  /** A stream of calls, then flush: all the pairs handed out. */
  function Live(s: State, events: seq<Event>): seq<Pair>
    decreases |events|
  {
    if events == [] then Flush(s).pairs
    else
      var r := Step(s, events[0]);
      r.pairs + Live(r.state, events[1..])
  }

  /** Python's stable sort by stamp. */
  function SortByStamp(poses: seq<Pose>): seq<Pose> {
    if poses == [] then [] else Insert(SortByStamp(poses[..|poses| - 1]), poses[|poses| - 1])
  }

  function Estimates(poses: seq<Pose>): (r: seq<Event>)
    ensures |r| == |poses| && forall i :: 0 <= i < |r| ==> r[i] == Estimate(poses[i])
  {
    seq(|poses|, i requires 0 <= i < |poses| => Estimate(poses[i]))
  }

  function Truths(poses: seq<Pose>): (r: seq<Event>)
    ensures |r| == |poses| && forall i :: 0 <= i < |r| ==> r[i] == Truth(poses[i])
  {
    seq(|poses|, i requires 0 <= i < |poses| => Truth(poses[i]))
  }

  /** Aligns two recorded streams, each in stamp order, the estimates fed first. */
  function Align(estimates: seq<Pose>, truth: seq<Pose>, window: real): seq<Pair> {
    Live(Start(window), Estimates(SortByStamp(estimates)) + Truths(SortByStamp(truth)))
  }
}
