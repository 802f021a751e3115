/**
 One simulator session: the throttle loop, the reset handshake, dead reckoning,
 and the commands the second front end publishes. Trigonometry enters through two
 given functions, `locate` and `advance`.
 */
module Session {
  import opened Options
  import opened Products
  import opened Reals

  // --- the throttle loop

  datatype Gains = Gains(gain: real, kp: real, ki: real, limit: real)

  function Over(a: real, b: real): real
    requires b != 0.0
  {
    a / b
  }

  datatype Throttled = Throttled(integral: real, throttle: real)

  /** One update of the loop: its new integral and its output. */
  function Throttle(g: Gains, integral: real, vCmd: real, vMeas: Option<real>, dt: Option<real>): Throttled
    requires g.gain > 0.0
  {
    if vCmd == 0.0 then Throttled(0.0, 0.0)
    else
      var feedforward := Over(vCmd, g.gain);
      if vMeas == None then Throttled(integral, Clamp(feedforward + integral, g.limit))
      else
        var error := vCmd - vMeas.value;
        var unclamped := feedforward + Times(g.kp, error) + integral;
        var intoLimit := (unclamped >= g.limit && error > 0.0) || (unclamped <= -g.limit && error < 0.0);
        var next :=
          if dt.Some? && dt.value > 0.0 && !intoLimit then integral + Times(Times(g.ki, error), dt.value) else integral;
        Throttled(next, Clamp(feedforward + Times(g.kp, error) + next, g.limit))
  }

  /** A gain or limit that is not positive is refused. */
  method CreateLoop(gains: Gains) returns (l: Option<ThrottleLoop>)
    ensures l.Some? <==> gains.gain > 0.0 && gains.limit > 0.0
    ensures l.Some? ==> fresh(l.value) && l.value.gains == gains && l.value.integral == 0.0
  {
    if gains.gain <= 0.0 || gains.limit <= 0.0 {
      return None;
    }
    var made := new ThrottleLoop(gains);
    l := Some(made);
  }

  class ThrottleLoop {
    const gains: Gains
    var integral: real

    constructor (gains: Gains)
      requires gains.gain > 0.0 && gains.limit > 0.0
      ensures this.gains == gains && integral == 0.0
    {
      this.gains, integral := gains, 0.0;
    }

    method Reset()
      modifies this
      ensures integral == 0.0
    {
      integral := 0.0;
    }

    method Update(vCmd: real, vMeas: Option<real>, dt: Option<real>) returns (throttle: real)
      requires gains.gain > 0.0
      modifies this
      ensures Throttled(integral, throttle) == Throttle(gains, old(integral), vCmd, vMeas, dt)
    {
      hide Times, Over, Clamp;
      if vCmd == 0.0 {
        integral := 0.0;
        return 0.0;
      }
      var feedforward := Over(vCmd, gains.gain);
      if vMeas == None {
        return Clamp(feedforward + integral, gains.limit);
      }
      var error := vCmd - vMeas.value;
      var unclamped := feedforward + Times(gains.kp, error) + integral;
      if dt.Some? && dt.value > 0.0 {
        var intoLimit := (unclamped >= gains.limit && error > 0.0) || (unclamped <= -gains.limit && error < 0.0);
        if !intoLimit {
          integral := integral + Times(Times(gains.ki, error), dt.value);
        }
      }
      return Clamp(feedforward + Times(gains.kp, error) + integral, gains.limit);
    }
  }

  /** Fires when the level goes up, and not again until it has been down. */
  class ResetLatch {
    var previous: bool

    constructor ()
      ensures !previous
    {
      previous := false;
    }

    method Next(requested: bool) returns (fire: bool)
      modifies this
      ensures fire == (requested && !old(previous)) && previous == requested
    {
      fire := requested && !previous;
      previous := requested;
    }
  }

  // --- frames

  datatype Cog = Cog(x: real, y: real, z: real, yaw: real, vx: real, vy: real, wz: real)

  /** What of a simulator frame the session reads; the rest goes through `locate`. */
  datatype Frame = Frame(left: real, right: real, lapTime: real, body: seq<real>)

  datatype Drive = Drive(speed: real, steering: real)

  datatype DtSource = LapTime | Receipt

  datatype Vehicle = Vehicle(h: real, wheelRadius: real, maxSteering: real, gains: Gains)

  const RESET_WAIT_FRAMES := 120

  /** Sim time between two frames; None when it does not advance. */
  function SimDt(prev: Frame, cur: Frame): Option<real> {
    if cur.lapTime - prev.lapTime > 0.0 then Some(cur.lapTime - prev.lapTime) else None
  }

  predicate EncodersFell(prev: Frame, cur: Frame) {
    cur.left < prev.left || cur.right < prev.right
  }

  /** Mean wheel speed; None without a step or when a wheel went backwards. */
  function EncoderSpeed(prev: Frame, cur: Frame, wheelRadius: real, dt: Option<real>): Option<real> {
    if dt == None || dt.value <= 0.0 then None
    else if EncodersFell(prev, cur) then None
    else Some(((cur.left - prev.left) + (cur.right - prev.right)) / 2.0 * wheelRadius / dt.value)
  }

  /** A frame that shows no reset: the clock ran and no encoder fell. */
  predicate Normal(prev: Frame, cur: Frame) {
    SimDt(prev, cur).Some? && !EncodersFell(prev, cur)
  }

  function Anchored(truth: Cog, h: real): Cog {
    Cog(truth.x, truth.y, h, truth.yaw, 0.0, 0.0, 0.0)
  }

  datatype State = State(
    integral: real, latchPrevious: bool, resetLevel: bool, awaiting: bool, effectSeen: bool, waited: nat,
    prev: Option<Frame>, prevReceived: Option<real>, odometry: Option<Cog>)

  const OPENED := State(0.0, false, false, false, false, 0, None, None, None)

  datatype Reply = Reply(
    throttle: real, steering: real, reset: bool, odometry: Cog, speed: Option<real>, dt: Option<real>)

  datatype Stepped = Stepped(state: State, reply: Reply)

  function Requested(s: State): State {
    s.(resetLevel := true)
  }

  function StepDt(source: DtSource, prev: Option<Frame>, prevReceived: Option<real>, f: Frame, receivedAt: Option<real>)
    : Option<real>
  {
    if source == LapTime then (if prev == None then None else SimDt(prev.value, f))
    else if receivedAt == None || prevReceived == None then None
    else if receivedAt.value - prevReceived.value > 0.0 then Some(receivedAt.value - prevReceived.value)
    else None
  }

  /** What a session is made with: the car, its clock, and the two given functions. */
  datatype Setup = Setup(
    vehicle: Vehicle, source: DtSource, locate: Frame -> Cog, advance: (Cog, real, real, real) -> Cog)
  {
    predicate Sound() {
      vehicle.gains.gain > 0.0 && vehicle.gains.limit > 0.0 && vehicle.wheelRadius > 0.0 && vehicle.maxSteering > 0.0
    }
  }

  /** The wait for the simulator to show the reset, one frame on. */
  function Awaited(s: State, f: Frame): State
    requires s.prev.Some?
  {
    if !s.awaiting then s
    else
      var normal := Normal(s.prev.value, f);
      s.(waited := s.waited + 1, effectSeen := s.effectSeen || !normal,
         awaiting := !normal || !(s.effectSeen || s.waited + 1 >= RESET_WAIT_FRAMES))
  }

  function Fired(s: State): State {
    s.(integral := 0.0, awaiting := true, effectSeen := false, waited := 0)
  }

  /** One frame: the reply, and the session's next state. */
  function OnFrame(s: State, u: Setup, f: Frame, drive: Option<Drive>, receivedAt: Option<real>): Stepped
    requires u.Sound() && (s.prev.Some? ==> s.odometry.Some?)
  {
    var v := u.vehicle;
    var dt := StepDt(u.source, s.prev, s.prevReceived, f, receivedAt);
    var truth := u.locate(f);
    var reanchor := s.prev == None || s.awaiting;
    var measured := if s.prev == None then None else EncoderSpeed(s.prev.value, f, v.wheelRadius, dt);
    var speed := if reanchor then None else measured;
    var odometry :=
      if reanchor then Anchored(truth, v.h)
      else if speed.Some? && dt.Some? then u.advance(s.odometry.value, speed.value, truth.wz, dt.value)
      else Cog(s.odometry.value.x, s.odometry.value.y, v.h, s.odometry.value.yaw,
               if speed.Some? then speed.value else 0.0, 0.0, truth.wz);
    var waited := if s.prev == None then s else Awaited(s, f);
    var t := Throttle(v.gains, if reanchor then 0.0 else s.integral,
                      if drive == None then 0.0 else drive.value.speed, speed, dt);
    var steering := if drive == None then 0.0 else Clamp(drive.value.steering / v.maxSteering, 1.0);
    var fire := s.resetLevel && !s.latchPrevious;
    var next := waited.(integral := t.integral, odometry := Some(odometry), resetLevel := false,
                        latchPrevious := if fire then false else s.resetLevel,
                        prev := Some(f), prevReceived := receivedAt);
    Stepped(if fire then Fired(next) else next, Reply(t.throttle, steering, fire, odometry, speed, dt))
  }

  class BridgeSession {
    const setup: Setup
    const loop: ThrottleLoop
    const latch: ResetLatch
    var resetLevel: bool
    var awaitingReset: bool
    var effectSeen: bool
    var waited: nat
    var prev: Option<Frame>
    var prevReceived: Option<real>
    var odometry: Option<Cog>

    ghost function Abs(): State
      reads this, loop, latch
    {
      State(loop.integral, latch.previous, resetLevel, awaitingReset, effectSeen, waited, prev, prevReceived, odometry)
    }

    ghost predicate Valid()
      reads this, loop
    {
      loop.gains == setup.vehicle.gains && setup.Sound() && (prev.Some? ==> odometry.Some?)
    }

    constructor (setup: Setup)
      requires setup.Sound()
      ensures Valid() && Abs() == OPENED && fresh(loop) && fresh(latch) && this.setup == setup
    {
      this.setup := setup;
      loop := new ThrottleLoop(setup.vehicle.gains);
      latch := new ResetLatch();
      resetLevel, awaitingReset, effectSeen, waited := false, false, false, 0;
      prev, prevReceived, odometry := None, None, None;
    }

    /** The next reply carries Reset True. */
    method RequestReset()
      requires Valid()
      modifies this`resetLevel
      ensures Valid() && Abs() == Requested(old(Abs()))
    {
      resetLevel := true;
    }

    /** The wait for the simulator to show the reset. */
    method Await(f: Frame)
      requires Valid() && prev.Some?
      modifies this`waited, this`effectSeen, this`awaitingReset
      ensures Valid() && Abs() == Awaited(old(Abs()), f)
    {
      if awaitingReset {
        waited := waited + 1;
        if SimDt(prev.value, f) == None || EncodersFell(prev.value, f) {
          effectSeen := true;
        } else if effectSeen {
          awaitingReset := false;
        } else if waited >= RESET_WAIT_FRAMES {
          awaitingReset := false;
        }
      }
    }

    method OnSimFrame(f: Frame, drive: Option<Drive>, receivedAt: Option<real>) returns (reply: Reply)
      requires Valid()
      modifies this, loop, latch
      ensures Valid()
      ensures Stepped(Abs(), reply) == OnFrame(old(Abs()), setup, f, drive, receivedAt)
    {
      hide Throttle, Awaited, Clamp, EncoderSpeed, StepDt, Anchored;
      var vehicle := setup.vehicle;
      var dt := StepDt(setup.source, prev, prevReceived, f, receivedAt);
      var speed := if prev == None then None else EncoderSpeed(prev.value, f, vehicle.wheelRadius, dt);
      var truth := setup.locate(f);
      var reanchor := prev == None || awaitingReset;
      if prev.Some? {
        Await(f);
      }
      if reanchor {
        loop.Reset();
        speed := None;
        odometry := Some(Anchored(truth, vehicle.h));
      } else if speed.Some? && dt.Some? {
        odometry := Some(setup.advance(odometry.value, speed.value, truth.wz, dt.value));
      } else {
        odometry := Some(Cog(odometry.value.x, odometry.value.y, vehicle.h, odometry.value.yaw,
                             if speed.Some? then speed.value else 0.0, 0.0, truth.wz));
      }
      var command := if drive == None then 0.0 else drive.value.speed;
      var throttle := loop.Update(command, speed, dt);
      var steering := if drive == None then 0.0 else Clamp(drive.value.steering / vehicle.maxSteering, 1.0);
      var level := resetLevel;
      resetLevel := false;
      var fire := latch.Next(level);
      if fire {
        var _ := latch.Next(false);
        loop.Reset();
        awaitingReset, effectSeen, waited := true, false, 0;
      }
      prev, prevReceived := Some(f), receivedAt;
      reply := Reply(throttle, steering, fire, odometry.value, speed, dt);
    }
  }

  // --- the commands front end B publishes

  datatype Published = Published(pending: bool, reset: Option<bool>)

  function Publish(pending: bool, fired: bool, awaiting: bool): Published {
    if fired && !pending then Published(true, Some(true))
    else if pending && !awaiting then Published(false, Some(false))
    else Published(pending, None)
  }

  class DevkitCommands {
    var pendingReset: bool

    constructor ()
      ensures !pendingReset
    {
      pendingReset := false;
    }

    method FromStep(reply: Reply, awaitingReset: bool) returns (throttle: real, steering: real, reset: Option<bool>)
      modifies this
      ensures throttle == reply.throttle && steering == reply.steering
      ensures Published(pendingReset, reset) == Publish(old(pendingReset), reply.reset, awaitingReset)
    {
      reset := None;
      if reply.reset && !pendingReset {
        pendingReset := true;
        reset := Some(true);
      } else if pendingReset && !awaitingReset {
        pendingReset := false;
        reset := Some(false);
      }
      throttle, steering := reply.throttle, reply.steering;
    }
  }
}
