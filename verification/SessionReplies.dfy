/**
 What a frame's reply says of the car: the steering and throttle asked for, and the
 speed the wheels were measured at.
 */
module SessionReplies {
  import opened Options
  import opened Products
  import opened Reals
  import opened Session
  import opened SessionProofs

  /** A value held within [-limit, limit], the nearest of it. */
  ghost predicate Held(value: real, limit: real, held: real) {
    if value > limit then held == limit else if value < -limit then held == -limit else held == value
  }

  lemma ClampHolds(value: real, limit: real)
    requires limit >= 0.0
    ensures Held(value, limit, Clamp(value, limit))
  {
  }

  lemma Quotient(a: real, b: real)
    requires b > 0.0
    ensures a / b * b == a && (a / b > 1.0 <==> a > b) && (a / b < -1.0 <==> a < -b)
  {
    var q := a / b;
    assert q * b == a;
    if q > 1.0 {
      ProductPositive(q - 1.0, b);
    } else if q < -1.0 {
      ProductPositive(-1.0 - q, b);
    } else {
      ProductNonNegative(1.0 - q, b);
      ProductNonNegative(q + 1.0, b);
    }
  }

  /** Steering is the share of the greatest angle that was asked for, sign and all,
      held at the full angle beyond it; straight ahead with nothing to drive. */
  lemma SteeringExact(s: State, u: Setup, f: Frame, drive: Option<Drive>, receivedAt: Option<real>)
    requires u.Sound() && (s.prev.Some? ==> s.odometry.Some?)
    ensures var steering, most := OnFrame(s, u, f, drive, receivedAt).reply.steering, u.vehicle.maxSteering;
      && Held(if drive == None then 0.0 else drive.value.steering, most, steering * most)
      && -1.0 <= steering <= 1.0
  {
    hide Throttle, Awaited, EncoderSpeed, StepDt, Clamp;
    var most := u.vehicle.maxSteering;
    if drive.Some? {
      var asked := drive.value.steering;
      Quotient(asked, most);
      ClampHolds(asked / most, 1.0);
    }
  }

  lemma OverIs(a: real, b: real, q: real)
    requires b > 0.0 && q * b == a
    ensures Over(a, b) == q
  {
    assert (a / b - q) * b == 0.0;
  }

  lemma NoPart(kp: real)
    ensures Times(kp, 0.0) == 0.0
  {
  }

  /** What the loop puts out, the integral being what it is after the update: nothing
      at no speed asked for, else feedforward, proportional part and integral. */
  lemma ThrottleExact(g: Gains, integral: real, vCmd: real, vMeas: Option<real>, dt: Option<real>, feedforward: real)
    requires g.gain > 0.0 && g.limit > 0.0 && feedforward * g.gain == vCmd
    ensures var t := Throttle(g, integral, vCmd, vMeas, dt);
      if vCmd == 0.0 then t.throttle == 0.0 && t.integral == 0.0
      else
        var error := if vMeas.Some? then vCmd - vMeas.value else 0.0;
        Held(feedforward + Times(g.kp, error) + t.integral, g.limit, t.throttle)
  {
    hide Clamp, Held, Over, Times;
    if vCmd != 0.0 {
      OverIs(vCmd, g.gain, feedforward);
      var error := if vMeas.Some? then vCmd - vMeas.value else 0.0;
      var t, part := Throttle(g, integral, vCmd, vMeas, dt), Times(g.kp, error);
      ClampHolds(feedforward + part + t.integral, g.limit);
      NoPart(g.kp);
      assert t.throttle == Clamp(feedforward + part + t.integral, g.limit);
    }
  }

  /** The integral takes in the error over the step, but for an error that pushes
      further into the limit the output is at. */
  lemma IntegralExact(g: Gains, integral: real, vCmd: real, vMeas: real, dt: real, feedforward: real)
    requires g.gain > 0.0 && g.limit > 0.0 && vCmd != 0.0 && dt > 0.0 && feedforward * g.gain == vCmd
    ensures var t, error := Throttle(g, integral, vCmd, Some(vMeas), Some(dt)), vCmd - vMeas;
      var before := feedforward + g.kp * error + integral;
      t.integral == if (before >= g.limit && error > 0.0) || (before <= -g.limit && error < 0.0) then integral
                    else integral + g.ki * error * dt
  {
    hide Clamp, Over, Times;
    OverIs(vCmd, g.gain, feedforward);
    TimesIs(g.kp, vCmd - vMeas);
    TimesIs(g.ki, vCmd - vMeas);
    TimesIs(Times(g.ki, vCmd - vMeas), dt);
  }

  /** Without a measurement or a step the integral stays. */
  lemma IntegralStays(g: Gains, integral: real, vCmd: real, vMeas: Option<real>, dt: Option<real>)
    requires g.gain > 0.0 && vCmd != 0.0 && (vMeas == None || dt == None || dt.value <= 0.0)
    ensures Throttle(g, integral, vCmd, vMeas, dt).integral == integral
  {
  }

  /** The speed measured, over the step, is how far the wheels rolled on average; none
      without a step or when a wheel ran backwards, whoever drives. */
  lemma SpeedExact(s: State, u: Setup, f: Frame, drive: Option<Drive>, receivedAt: Option<real>)
    requires u.Sound() && s.prev.Some? && s.odometry.Some?
    ensures var r, before := OnFrame(s, u, f, drive, receivedAt).reply, s.prev.value;
      && (r.speed.Some? <==>
            !s.awaiting && r.dt.Some? && r.dt.value > 0.0 && f.left >= before.left && f.right >= before.right)
      && (r.speed.Some? ==>
            2.0 * (r.speed.value * r.dt.value) ==
              (f.left - before.left) * u.vehicle.wheelRadius + (f.right - before.right) * u.vehicle.wheelRadius)
  {
    hide Throttle, Awaited, StepDt, Clamp;
    var dt := StepDt(u.source, s.prev, s.prevReceived, f, receivedAt);
    if dt.Some? && dt.value > 0.0 {
      var a, b := f.left - s.prev.value.left, f.right - s.prev.value.right;
      Quotient((a + b) / 2.0 * u.vehicle.wheelRadius, dt.value);
    }
  }

  /** The odometry sent: the ground truth at rest, at first and while a reset is
      awaited; then advanced by a speed and a step; without a speed or a step it
      stays where it was, turning as the truth does. */
  lemma OdometryExact(s: State, u: Setup, f: Frame, drive: Option<Drive>, receivedAt: Option<real>)
    requires u.Sound() && (s.prev.Some? ==> s.odometry.Some?)
    ensures var r, truth := OnFrame(s, u, f, drive, receivedAt).reply, u.locate(f);
      if s.prev == None || s.awaiting then AtRest(r.odometry, truth, u.vehicle.h) && r.speed == None
      else
        var was := s.odometry.value;
        if r.speed.Some? && r.dt.Some? then r.odometry == u.advance(was, r.speed.value, truth.wz, r.dt.value)
        else
          && r.odometry.x == was.x && r.odometry.y == was.y && r.odometry.yaw == was.yaw
          && r.odometry.z == u.vehicle.h && r.odometry.wz == truth.wz && r.odometry.vy == 0.0
          && r.odometry.vx == (if r.speed.Some? then r.speed.value else 0.0)
  {
    hide Throttle, Awaited, StepDt, Clamp, EncoderSpeed;
  }

  /** The step is positive, and the time between the frames by the clock in use. */
  lemma StepExact(u: Setup, prev: Option<Frame>, prevReceived: Option<real>, f: Frame, receivedAt: Option<real>)
    ensures var dt := StepDt(u.source, prev, prevReceived, f, receivedAt);
      match u.source
      case LapTime =>
        (dt.Some? <==> prev.Some? && f.lapTime > prev.value.lapTime) &&
        (dt.Some? ==> prev.value.lapTime + dt.value == f.lapTime)
      case Receipt =>
        (dt.Some? <==> prevReceived.Some? && receivedAt.Some? && receivedAt.value > prevReceived.value) &&
        (dt.Some? ==> prevReceived.value + dt.value == receivedAt.value)
  {
  }
}
