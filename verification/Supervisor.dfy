/**
 The safety supervisor: what each decision passes, clamps or stops, and the
 latch over every run of decisions, stop requests and clears.
 */
module Supervisor {
  import opened Geometry
  import opened Options
  import opened Reals
  import opened TrackWalls
  import opened Tracks

  // --- one decision

  type Mask = bv32

  const TRACK_LIMIT: Mask := 1
  const SPEED: Mask := 2
  const STEERING: Mask := 4
  const ACCELERATION: Mask := 8
  const STEERING_RATE: Mask := 16
  const STALE_INPUT: Mask := 32
  const ESTOP: Mask := 64

  datatype Motion = Motion(speed: real, steering: real, acceleration: real, steeringRate: real)

  const STOPPED := Motion(0.0, 0.0, 0.0, 0.0)

  datatype Command = Command(motion: Motion, receivedAt: int, hasCommand: bool)

  datatype Reason = NoReason | TrackLimit | CommandLimit | StaleInput | EstopLatched

  datatype Decision = Decision(command: Command, clamps: Mask, reason: Reason)

  datatype Params = Params(limits: Motion, halfWidth: real, timeout: int)

  predicate Acceptable(p: Params) {
    && p.limits.speed >= 0.0 && p.limits.steering >= 0.0 && p.limits.acceleration >= 0.0 && p.limits.steeringRate >= 0.0
    && p.halfWidth >= 0.0 && p.timeout >= 0
  }

  predicate Stale(p: Params, c: Command, now: int) {
    c.hasCommand && now - c.receivedAt > p.timeout
  }

  function Clamped(m: Motion, limits: Motion): Motion {
    Motion(Clamp(m.speed, limits.speed), Clamp(m.steering, limits.steering),
           Clamp(m.acceleration, limits.acceleration), Clamp(m.steeringRate, limits.steeringRate))
  }

  predicate WithinLimit(value: real, limit: real) {
    -limit <= value <= limit
  }

  predicate WithinLimits(m: Motion, limits: Motion) {
    && WithinLimit(m.speed, limits.speed) && WithinLimit(m.steering, limits.steering)
    && WithinLimit(m.acceleration, limits.acceleration) && WithinLimit(m.steeringRate, limits.steeringRate)
  }

  predicate Has(clamps: Mask, bit: Mask) {
    clamps & bit != 0
  }

  function Bit(on: bool, bit: Mask): Mask {
    if on then bit else 0
  }

  function ClampBits(m: Motion, limits: Motion): Mask {
    ((Bit(!WithinLimit(m.speed, limits.speed), SPEED) | Bit(!WithinLimit(m.steering, limits.steering), STEERING)) |
     Bit(!WithinLimit(m.acceleration, limits.acceleration), ACCELERATION)) |
    Bit(!WithinLimit(m.steeringRate, limits.steeringRate), STEERING_RATE)
  }

  datatype Outcome = Outcome(latched: bool, decision: Decision)

  /** The decision and the latch after it. */
  function Decide(p: Params, latched: bool, c: Command, inside: bool, now: int): Outcome {
    var stopped := c.(motion := STOPPED);
    if Stale(p, c, now) then Outcome(true, Decision(stopped, STALE_INPUT | ESTOP, StaleInput))
    else if latched then Outcome(true, Decision(stopped, ESTOP, EstopLatched))
    else if !inside then Outcome(false, Decision(stopped, TRACK_LIMIT, TrackLimit))
    else
      var bits := ClampBits(c.motion, p.limits);
      var reason := if bits != 0 then CommandLimit else NoReason;
      Outcome(false, Decision(c.(motion := Clamped(c.motion, p.limits)), bits, reason))
  }

  /** The constructor's refusal of negative limits. */
  method Create(params: Params) returns (s: Option<Supervisor>)
    ensures s.Some? <==> Acceptable(params)
    ensures s.Some? ==> fresh(s.value) && s.value.params == params && !s.value.latched
  {
    if || params.limits.speed < 0.0 || params.limits.steering < 0.0 || params.limits.acceleration < 0.0
       || params.limits.steeringRate < 0.0 || params.halfWidth < 0.0 || params.timeout < 0 {
      return None;
    }
    var made := new Supervisor(params);
    s := Some(made);
  }

  class Supervisor {
    const params: Params
    var latched: bool

    constructor (params: Params)
      requires Acceptable(params)
      ensures this.params == params && !latched
    {
      this.params := params;
      latched := false;
    }

    method ClampField(value: real, limit: real, bit: Mask, clamps: Mask) returns (field: real, after: Mask)
      requires limit >= 0.0
      ensures field == Clamp(value, limit) && after == clamps | Bit(!WithinLimit(value, limit), bit)
    {
      field, after := Clamp(value, limit), clamps;
      if field != value {
        after := clamps | bit;
      }
    }

    method Evaluate(c: Command, pose: Point, t: Track, now: int) returns (decision: Decision)
      requires Acceptable(params) && Valid(t)
      modifies `latched
      ensures Outcome(latched, decision) ==
        Decide(params, old(latched), c, IsInside(t, ToFrenet(t, pose), params.halfWidth), now)
    {
      hide Valid, IsInside, ToFrenet;
      var stopped := c.(motion := STOPPED);
      if c.hasCommand && now - c.receivedAt > params.timeout {
        latched := true;
        return Decision(stopped, STALE_INPUT | ESTOP, StaleInput);
      }
      if latched {
        return Decision(stopped, ESTOP, EstopLatched);
      }
      var frenet := FindFrenet(t, pose);
      if !IsInside(t, frenet, params.halfWidth) {
        return Decision(stopped, TRACK_LIMIT, TrackLimit);
      }
      var m, clamps := c.motion, 0;
      var speed, steering, acceleration, rate;
      speed, clamps := ClampField(m.speed, params.limits.speed, SPEED, clamps);
      steering, clamps := ClampField(m.steering, params.limits.steering, STEERING, clamps);
      acceleration, clamps := ClampField(m.acceleration, params.limits.acceleration, ACCELERATION, clamps);
      rate, clamps := ClampField(m.steeringRate, params.limits.steeringRate, STEERING_RATE, clamps);
      decision := Decision(c.(motion := Motion(speed, steering, acceleration, rate)), clamps,
                           if clamps != 0 then CommandLimit else NoReason);
    }

    method RequestEmergencyStop()
      modifies `latched
      ensures latched
    {
      latched := true;
    }

    method ClearEmergencyStop()
      modifies `latched
      ensures !latched
    {
      latched := false;
    }
  }

  // --- what a decision promises

  lemma BitsApart(a: bool, b: bool, c: bool, d: bool)
    ensures var m := ((Bit(a, SPEED) | Bit(b, STEERING)) | Bit(c, ACCELERATION)) | Bit(d, STEERING_RATE);
      && (Has(m, SPEED) <==> a) && (Has(m, STEERING) <==> b) && (Has(m, ACCELERATION) <==> c)
      && (Has(m, STEERING_RATE) <==> d) && (m == 0 <==> !a && !b && !c && !d)
      && !Has(m, ESTOP) && !Has(m, STALE_INPUT) && !Has(m, TRACK_LIMIT)
  {
  }

  /** Every decision is within the limits, whatever was asked; its bits say exactly
      what was done (1 track limit, 2 speed, 4 steering, 8 acceleration, 16 steering
      rate, 32 stale input, 64 stop), and no bit at all exactly that the command
      passed as it came. */
  lemma DecisionExact(p: Params, latched: bool, c: Command, inside: bool, now: int)
    requires Acceptable(p)
    ensures var o := Decide(p, latched, c, inside, now); var d := o.decision;
      && WithinLimits(d.command.motion, p.limits)
      && d.command.receivedAt == c.receivedAt && d.command.hasCommand == c.hasCommand
      && (o.latched <==> latched || Stale(p, c, now)) && (Has(d.clamps, 64) <==> o.latched)
      && (Has(d.clamps, 32) <==> Stale(p, c, now))
      && (Has(d.clamps, 1) <==> !o.latched && !inside)
      && (!o.latched && inside ==>
            && (Has(d.clamps, 2) <==> !WithinLimit(c.motion.speed, p.limits.speed))
            && (Has(d.clamps, 4) <==> !WithinLimit(c.motion.steering, p.limits.steering))
            && (Has(d.clamps, 8) <==> !WithinLimit(c.motion.acceleration, p.limits.acceleration))
            && (Has(d.clamps, 16) <==> !WithinLimit(c.motion.steeringRate, p.limits.steeringRate)))
      && (d.clamps == 0 <==> d.reason == NoReason)
      && (d.clamps == 0 <==> !o.latched && inside && WithinLimits(c.motion, p.limits))
      && (d.clamps == 0 ==> d.command == c)
  {
    hide Has, Bit;
    StopBits();
    ClampWithin(0.0, p.limits.speed);
    ClampWithin(0.0, p.limits.steering);
    ClampWithin(0.0, p.limits.acceleration);
    ClampWithin(0.0, p.limits.steeringRate);
    ClampWithin(c.motion.speed, p.limits.speed);
    ClampWithin(c.motion.steering, p.limits.steering);
    ClampWithin(c.motion.acceleration, p.limits.acceleration);
    ClampWithin(c.motion.steeringRate, p.limits.steeringRate);
    BitsApart(!WithinLimit(c.motion.speed, p.limits.speed), !WithinLimit(c.motion.steering, p.limits.steering),
              !WithinLimit(c.motion.acceleration, p.limits.acceleration),
              !WithinLimit(c.motion.steeringRate, p.limits.steeringRate));
  }

  lemma StopBits()
    ensures Has(STALE_INPUT | ESTOP, ESTOP) && Has(STALE_INPUT | ESTOP, STALE_INPUT)
    ensures !Has(STALE_INPUT | ESTOP, TRACK_LIMIT)
    ensures Has(ESTOP, ESTOP) && !Has(ESTOP, STALE_INPUT) && !Has(ESTOP, TRACK_LIMIT)
    ensures Has(TRACK_LIMIT, TRACK_LIMIT) && !Has(TRACK_LIMIT, ESTOP) && !Has(TRACK_LIMIT, STALE_INPUT)
    ensures STALE_INPUT | ESTOP != 0 && ESTOP != 0 && TRACK_LIMIT != 0
  {
  }

  /** The car moves only when fresh, unlatched and inside, and then by no more
      than it was asked. */
  lemma MovesOnly(p: Params, latched: bool, c: Command, inside: bool, now: int)
    requires Acceptable(p) && Decide(p, latched, c, inside, now).decision.command.motion != STOPPED
    ensures !Stale(p, c, now) && !latched && inside && c.motion != STOPPED
    ensures Decide(p, latched, c, inside, now).decision.command.motion == Clamped(c.motion, p.limits)
  {
  }

  /** A command older than the timeout is stopped in every state exactly when it is
      marked as received, or the limits leave it no motion anyway. */
  lemma OldStoppedExact(p: Params, c: Command, now: int)
    requires Acceptable(p) && now - c.receivedAt > p.timeout
    ensures (forall latched, inside :: Decide(p, latched, c, inside, now).decision.command.motion == STOPPED) <==>
            c.hasCommand || Clamped(c.motion, p.limits) == STOPPED
  {
    hide Clamped, ClampBits;
    assert !c.hasCommand ==> Decide(p, false, c, true, now).decision.command.motion == Clamped(c.motion, p.limits);
  }

  /** A command never received, however old, passes as it came from a car inside. */
  lemma UnreceivedPasses(p: Params, c: Command, now: int)
    requires Acceptable(p) && !c.hasCommand && WithinLimits(c.motion, p.limits)
    ensures Decide(p, false, c, true, now) == Outcome(false, Decision(c, 0, NoReason))
  {
    assert ClampBits(c.motion, p.limits) == 0;
  }

  // --- runs

  datatype Event = Request | Clear | Ask(command: Command, inside: bool, now: int)

  function After(p: Params, events: seq<Event>): bool {
    if events == [] then false
    else
      match events[|events| - 1]
      case Request => true
      case Clear => false
      case Ask(c, inside, now) => Decide(p, After(p, events[..|events| - 1]), c, inside, now).latched
  }

  /** The decision event k gets in the run. */
  function DecisionAt(p: Params, events: seq<Event>, k: nat): Decision
    requires k < |events| && events[k].Ask?
  {
    Decide(p, After(p, events[..k]), events[k].command, events[k].inside, events[k].now).decision
  }

  predicate Stops(p: Params, e: Event) {
    e.Request? || (e.Ask? && Stale(p, e.command, e.now))
  }

  /** A stop came after the last clear. */
  ghost predicate Latching(p: Params, events: seq<Event>) {
    exists k :: 0 <= k < |events| && Stops(p, events[k]) && forall j :: k < j < |events| ==> events[j] != Clear
  }

  /** The latch is up exactly when a request or a stale input came since the last clear. */
  lemma {:induction false} LatchExact(p: Params, events: seq<Event>)
    ensures After(p, events) <==> Latching(p, events)
    decreases |events|
  {
    if events != [] {
      var init, last := events[..|events| - 1], events[|events| - 1];
      LatchExact(p, init);
      LatchingStep(p, events);
    }
  }

  lemma LatchingStep(p: Params, events: seq<Event>)
    requires events != []
    ensures var init, last := events[..|events| - 1], events[|events| - 1];
      Latching(p, events) <==> Stops(p, last) || (last != Clear && Latching(p, init))
  {
    var init, last := events[..|events| - 1], events[|events| - 1];
    if Stops(p, last) {
      assert Stops(p, events[|events| - 1]);
    }
    if last != Clear && Latching(p, init) {
      var k :| 0 <= k < |init| && Stops(p, init[k]) && forall j :: k < j < |init| ==> init[j] != Clear;
      assert Stops(p, events[k]);
      assert forall j :: k < j < |events| ==> events[j] == if j < |init| then init[j] else last;
    }
    if Latching(p, events) && !Stops(p, last) {
      var k :| 0 <= k < |events| && Stops(p, events[k]) && forall j :: k < j < |events| ==> events[j] != Clear;
      assert Stops(p, init[k]);
      assert forall j :: k < j < |init| ==> init[j] == events[j];
    }
  }

  /** From any request or stale input until the next clear, every decision in
      between is zero and carries the stop bit; the stale one included. */
  lemma LatchedStop(p: Params, events: seq<Event>, k: nat, j: nat)
    requires Acceptable(p) && k <= j < |events| && Stops(p, events[k]) && events[j].Ask?
    requires forall i :: k < i < j ==> events[i] != Clear
    ensures var d := DecisionAt(p, events, j);
      d.command.motion == Motion(0.0, 0.0, 0.0, 0.0) && Has(d.clamps, 64)
  {
    hide Has;
    StopBits();
    if k < j {
      var before := events[..j];
      assert Stops(p, before[k]) && forall i :: k < i < |before| ==> before[i] != Clear;
      LatchExact(p, before);
    }
  }

  /** Over any run on any track: a decision moves the car only when no stop came
      since the last clear, the input is fresh, the motion is within the limits,
      and both sides of the car lie within the widths at its nearest centreline point. */
  lemma PassedOnly(p: Params, t: Track, events: seq<Event>, k: nat, pose: Point)
    requires Acceptable(p) && Valid(t) && k < |events| && events[k].Ask?
    requires events[k].inside == IsInside(t, ToFrenet(t, pose), p.halfWidth)
    requires DecisionAt(p, events, k).command.motion != Motion(0.0, 0.0, 0.0, 0.0)
    ensures !Latching(p, events[..k]) && !Stale(p, events[k].command, events[k].now)
    ensures WithinLimits(DecisionAt(p, events, k).command.motion, p.limits)
    ensures exists s :: NearestAt(t, pose, s) && 0.0 <= s <= t.length && Clears(t, s, ToFrenet(t, pose).d, p.halfWidth)
  {
    hide Valid, IsInside, ToFrenet, NearestAt, Clears, Has, WithinLimits;
    var e := events[k];
    LatchExact(p, events[..k]);
    MovesOnly(p, After(p, events[..k]), e.command, e.inside, e.now);
    DecisionExact(p, After(p, events[..k]), e.command, e.inside, e.now);
    InsideAtNearest(t, pose, p.halfWidth);
  }
}
