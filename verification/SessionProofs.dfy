/**
 The reset handshake over every interleaving of requests and frames, and the
 bound on the integral over every run.
 */
module SessionProofs {
  import opened Options
  import opened Products
  import opened Reals
  import opened Session

  // --- the throttle loop

  lemma TimesSigns(a: real, b: real)
    ensures Times(a, -b) == -Times(a, b) && Times(-a, b) == -Times(a, b)
  {
  }

  lemma TimesRises(a: real, b: real, c: real, d: real)
    requires 0.0 <= a <= c && 0.0 <= b <= d
    ensures Times(a, b) <= Times(c, d)
  {
    assert a * b <= c * b by { TimesNonNegative(c - a, b); }
    assert c * b <= c * d by { TimesNonNegative(c, d - b); }
  }

  lemma OverWithin(v: real, bound: real, gain: real)
    requires gain > 0.0 && -bound <= v <= bound
    ensures -Over(bound, gain) <= Over(v, gain) <= Over(bound, gain)
  {
    OverRises(v, bound, gain);
    OverRises(-bound, v, gain);
    assert Over(-bound, gain) == -Over(bound, gain);
  }

  lemma OverRises(a: real, b: real, gain: real)
    requires gain > 0.0 && a <= b
    ensures Over(a, gain) <= Over(b, gain)
  {
  }

  /** How far the integral can go: the limit, the largest feedforward and one step. */
  function Bound(g: Gains, speed: real, error: real, step: real): real
    requires g.gain > 0.0
  {
    g.limit + Over(speed, g.gain) + Times(Times(g.ki, error), step)
  }

  ghost predicate Bounded(g: Gains, vCmd: real, vMeas: Option<real>, dt: Option<real>, speed: real, error: real,
                          step: real)
  {
    && -speed <= vCmd <= speed && error >= 0.0 && step >= 0.0
    && (vMeas.Some? ==> -error <= vCmd - vMeas.value <= error)
    && (dt.Some? ==> dt.value <= step)
  }

  lemma OneStep(g: Gains, e: real, dt: real, error: real, step: real)
    requires g.ki >= 0.0 && 0.0 <= e <= error && 0.0 <= dt <= step
    ensures 0.0 <= Times(Times(g.ki, e), dt) <= Times(Times(g.ki, error), step)
  {
    hide Times;
    TimesNonNegative(g.ki, e);
    TimesRises(g.ki, e, g.ki, error);
    TimesNonNegative(Times(g.ki, e), dt);
    TimesRises(Times(g.ki, e), dt, Times(g.ki, error), step);
  }

  /** One update keeps the integral within the bound, and the output within the limit. */
  lemma ThrottleKeepsBound(g: Gains, integral: real, vCmd: real, vMeas: Option<real>, dt: Option<real>,
                           speed: real, error: real, step: real)
    requires g.gain > 0.0 && g.limit > 0.0 && g.kp >= 0.0 && g.ki >= 0.0
    requires Bounded(g, vCmd, vMeas, dt, speed, error, step)
    requires -Bound(g, speed, error, step) <= integral <= Bound(g, speed, error, step)
    ensures var t := Throttle(g, integral, vCmd, vMeas, dt);
      && -Bound(g, speed, error, step) <= t.integral <= Bound(g, speed, error, step)
      && -g.limit <= t.throttle <= g.limit
  {
    hide Times, Over, Clamp;
    OverWithin(vCmd, speed, g.gain);
    OverWithin(0.0, speed, g.gain);
    OneStep(g, error, step, error, step);
    var f := Over(vCmd, g.gain);
    if vMeas == None {
      ClampWithin(f + integral, g.limit);
    } else {
      var e := vCmd - vMeas.value;
      var t := Throttle(g, integral, vCmd, vMeas, dt);
      ClampWithin(f + Times(g.kp, e) + t.integral, g.limit);
      var m := if e >= 0.0 then e else -e;
      TimesNonNegative(g.kp, m);
      TimesSigns(g.kp, e);
      if dt.Some? && dt.value > 0.0 {
        OneStep(g, m, dt.value, error, step);
        TimesSigns(g.ki, e);
        TimesSigns(Times(g.ki, e), dt.value);
      }
    }
    ClampWithin(0.0, g.limit);
  }

  datatype Input = Reset | Update(vCmd: real, vMeas: Option<real>, dt: Option<real>)

  function Integral(g: Gains, inputs: seq<Input>): real
    requires g.gain > 0.0
  {
    if inputs == [] then 0.0
    else
      match inputs[|inputs| - 1]
      case Reset => 0.0
      case Update(vCmd, vMeas, dt) => Throttle(g, Integral(g, inputs[..|inputs| - 1]), vCmd, vMeas, dt).integral
  }

  /** In every reachable state the integral is bounded: the loop does not wind up. */
  lemma {:induction false} IntegralBounded(g: Gains, inputs: seq<Input>, speed: real, error: real, step: real)
    requires g.gain > 0.0 && g.limit > 0.0 && g.kp >= 0.0 && g.ki >= 0.0 && speed >= 0.0 && error >= 0.0 && step >= 0.0
    requires forall i :: 0 <= i < |inputs| && inputs[i].Update? ==>
      Bounded(g, inputs[i].vCmd, inputs[i].vMeas, inputs[i].dt, speed, error, step)
    ensures -Bound(g, speed, error, step) <= Integral(g, inputs) <= Bound(g, speed, error, step)
    decreases |inputs|
  {
    hide Times, Over, Throttle;
    OverWithin(0.0, speed, g.gain);
    OneStep(g, error, step, error, step);
    if inputs != [] && inputs[|inputs| - 1].Update? {
      var init, x := inputs[..|inputs| - 1], inputs[|inputs| - 1];
      IntegralBounded(g, init, speed, error, step);
      ThrottleKeepsBound(g, Integral(g, init), x.vCmd, x.vMeas, x.dt, speed, error, step);
    }
  }

  // --- requests and frames, in any interleaving

  datatype Event = Request | FrameIn(f: Frame, drive: Option<Drive>, receivedAt: Option<real>)

  /** The session beside the commands it publishes: `published` lists every reset
      value sent, in order. */
  datatype System = System(session: State, pending: bool, published: seq<bool>)

  const START := System(OPENED, false, [])

  ghost predicate Invariant(sys: System) {
    var s := sys.session;
    && !s.latchPrevious
    && (s.prev.Some? ==> s.odometry.Some?)
    && (s.awaiting ==> s.prev.Some?)
    && sys.pending == s.awaiting
    && Alternates(sys.published)
    && sys.pending == (|sys.published| % 2 == 1)
  }

  /** True, False, True, False, ... */
  ghost predicate Alternates(published: seq<bool>) {
    forall i :: 0 <= i < |published| ==> published[i] == (i % 2 == 0)
  }

  function OnEvent(sys: System, u: Setup, e: Event): System
    requires u.Sound() && (sys.session.prev.Some? ==> sys.session.odometry.Some?)
  {
    match e
    case Request => sys.(session := Requested(sys.session))
    case FrameIn(f, drive, receivedAt) =>
      var step := OnFrame(sys.session, u, f, drive, receivedAt);
      var out := Publish(sys.pending, step.reply.reset, step.state.awaiting);
      System(step.state, out.pending, if out.reset == None then sys.published else sys.published + [out.reset.value])
  }

  lemma OnFrameShape(s: State, u: Setup, f: Frame, drive: Option<Drive>, receivedAt: Option<real>)
    requires u.Sound() && (s.prev.Some? ==> s.odometry.Some?) && !s.latchPrevious
    ensures var r := OnFrame(s, u, f, drive, receivedAt);
      && r.reply.reset == s.resetLevel && !r.state.resetLevel && !r.state.latchPrevious
      && r.state.prev == Some(f) && r.state.odometry == Some(r.reply.odometry)
      && (s.resetLevel ==> r.state.awaiting && !r.state.effectSeen && r.state.waited == 0 && r.state.integral == 0.0)
      && (!s.resetLevel && s.prev.Some? ==>
            r.state.awaiting == Awaited(s, f).awaiting && r.state.effectSeen == Awaited(s, f).effectSeen
            && r.state.waited == Awaited(s, f).waited)
      && (!s.resetLevel && s.prev == None ==> r.state.awaiting == s.awaiting)
  {
    hide Throttle, Clamp, EncoderSpeed, StepDt, Awaited, Anchored;
  }

  /** Every event keeps it: the command held is True exactly while the session
      waits for the reset to show, and the values sent strictly alternate. */
  lemma EventKeeps(sys: System, u: Setup, e: Event)
    requires u.Sound() && Invariant(sys)
    ensures Invariant(OnEvent(sys, u, e))
  {
    hide OnFrame;
    if e.FrameIn? {
      OnFrameShape(sys.session, u, e.f, e.drive, e.receivedAt);
    }
  }

  /** The states a list of events passes through, the last one first reached. */
  ghost function Run(u: Setup, events: seq<Event>): (r: System)
    requires u.Sound()
    ensures Invariant(r)
    decreases |events|
  {
    if events == [] then START
    else
      var before := Run(u, events[..|events| - 1]);
      EventKeeps(before, u, events[|events| - 1]);
      OnEvent(before, u, events[|events| - 1])
  }

  lemma LevelIsLastRequest(u: Setup, events: seq<Event>)
    requires u.Sound()
    ensures Run(u, events).session.resetLevel == (events != [] && events[|events| - 1].Request?)
  {
    hide OnFrame;
    if events != [] && events[|events| - 1].FrameIn? {
      var e := events[|events| - 1];
      OnFrameShape(Run(u, events[..|events| - 1]).session, u, e.f, e.drive, e.receivedAt);
    }
  }

  /** A reply carries Reset True exactly on the first frame after one or more
      requests: no request is lost and none is answered twice. */
  lemma ResetExact(u: Setup, events: seq<Event>, f: Frame, drive: Option<Drive>, receivedAt: Option<real>)
    requires u.Sound()
    ensures OnFrame(Run(u, events).session, u, f, drive, receivedAt).reply.reset <==>
      events != [] && events[|events| - 1].Request?
  {
    hide OnFrame, Invariant;
    LevelIsLastRequest(u, events);
    assert Invariant(Run(u, events));
    SessionReady(Run(u, events));
    OnFrameShape(Run(u, events).session, u, f, drive, receivedAt);
  }

  lemma SessionReady(sys: System)
    requires Invariant(sys)
    ensures !sys.session.latchPrevious && (sys.session.prev.Some? ==> sys.session.odometry.Some?)
  {
  }

  /** The pose is the ground truth's, at the vehicle's height, and nothing moves. */
  predicate AtRest(c: Cog, truth: Cog, h: real) {
    c.x == truth.x && c.y == truth.y && c.z == h && c.yaw == truth.yaw && c.vx == 0.0 && c.vy == 0.0 && c.wz == 0.0
  }

  /** While a reset is awaited, every frame leaves the integral at zero and the
      odometry at the ground truth, at rest. */
  lemma ReanchoredWhileAwaiting(s: State, u: Setup, f: Frame, drive: Option<Drive>, receivedAt: Option<real>)
    requires u.Sound() && s.awaiting && s.prev.Some? && s.odometry.Some?
    ensures var r := OnFrame(s, u, f, drive, receivedAt);
      r.state.integral == 0.0 && r.reply.speed == None && AtRest(r.reply.odometry, u.locate(f), u.vehicle.h)
  {
    hide Clamp, EncoderSpeed, StepDt, Awaited, Over, Times;
  }

  /** In every run, from the frame after a reset fired through the one that releases
      it, whatever is asked in between: the integral is zero and the odometry is the
      ground truth, at rest. */
  lemma AnchoredUntilReleased(u: Setup, events: seq<Event>, f: Frame, drive: Option<Drive>, receivedAt: Option<real>)
    requires u.Sound() && Run(u, events).session.awaiting
    ensures var after := OnEvent(Run(u, events), u, FrameIn(f, drive, receivedAt)).session;
      after.integral == 0.0 && after.odometry.Some? &&
      AtRest(after.odometry.value, u.locate(f), u.vehicle.h)
  {
    hide OnFrame, Run, AtRest;
    var s := Run(u, events).session;
    assert Invariant(Run(u, events));
    OnFrameShape(s, u, f, drive, receivedAt);
    ReanchoredWhileAwaiting(s, u, f, drive, receivedAt);
  }

  // --- how long the session waits

  predicate NormalAt(before: Frame, frames: seq<Frame>, k: nat)
    requires k < |frames|
  {
    Normal(if k == 0 then before else frames[k - 1], frames[k])
  }

  /** Frame k, counted from the reply that fired, ends the wait: it is normal, and
      an effect was seen before it or the wait of 120 frames has run out. */
  ghost predicate Releases(before: Frame, frames: seq<Frame>, k: nat)
    requires k < |frames|
  {
    NormalAt(before, frames, k) && (EffectBefore(before, frames, k) || k + 1 >= 120)
  }

  ghost predicate EffectBefore(before: Frame, frames: seq<Frame>, k: nat)
    requires k <= |frames|
  {
    exists j: nat :: j < k && !NormalAt(before, frames, j)
  }

  function FramesOf(events: seq<Event>): (r: seq<Frame>)
    requires forall i :: 0 <= i < |events| ==> events[i].FrameIn?
    ensures |r| == |events| && forall i :: 0 <= i < |r| ==> r[i] == events[i].f
  {
    seq(|events|, i requires 0 <= i < |events| => events[i].f)
  }

  lemma RunNext(u: Setup, events: seq<Event>, e: Event)
    requires u.Sound()
    ensures Run(u, events + [e]) == OnEvent(Run(u, events), u, e)
  {
    assert (events + [e])[..|events|] == events;
  }

  /** A request changes nothing but the level, whatever is awaited; the next frame
      starts the wait, and its count, afresh. */
  lemma RequestRestarts(u: Setup, events: seq<Event>, fired: Event)
    requires u.Sound() && fired.FrameIn?
    ensures Run(u, events + [Request]).session == Run(u, events).session.(resetLevel := true)
    ensures var s := Run(u, events + [Request] + [fired]).session;
      s.awaiting && !s.effectSeen && s.waited == 0 && !s.resetLevel && s.prev == Some(fired.f)
  {
    hide OnFrame, Run;
    RunNext(u, events, Request);
    RunNext(u, events + [Request], fired);
    assert Invariant(Run(u, events + [Request]));
    OnFrameShape(Run(u, events + [Request]).session, u, fired.f, fired.drive, fired.receivedAt);
  }

  /** Releasing is about the frames up to it alone. */
  lemma ReleasesPrefix(before: Frame, init: seq<Frame>, frames: seq<Frame>, k: nat)
    requires k < |init| <= |frames| && init == frames[..|init|]
    ensures Releases(before, init, k) == Releases(before, frames, k)
  {
    EffectPrefix(before, init, frames, k);
  }

  lemma EffectPrefix(before: Frame, init: seq<Frame>, frames: seq<Frame>, k: nat)
    requires k <= |init| <= |frames| && init == frames[..|init|]
    ensures EffectBefore(before, init, k) == EffectBefore(before, frames, k)
  {
    assert forall j: nat :: j < k ==> NormalAt(before, init, j) == NormalAt(before, frames, j);
  }

  lemma EffectNext(before: Frame, frames: seq<Frame>, k: nat)
    requires k < |frames|
    ensures EffectBefore(before, frames, k + 1) == (EffectBefore(before, frames, k) || !NormalAt(before, frames, k))
  {
    hide Normal;
  }

  /** In every run, after a frame that fired and frames alone since: the session still
      waits exactly when none of them releases it. */
  lemma {:induction false} AwaitExact(u: Setup, events: seq<Event>, fired: Event, since: seq<Event>)
    requires u.Sound() && fired.FrameIn? && forall i :: 0 <= i < |since| ==> since[i].FrameIn?
    ensures var s, frames := Run(u, events + [Request] + [fired] + since).session, FramesOf(since);
      && (s.awaiting <==> forall k: nat :: k < |since| ==> !Releases(fired.f, frames, k))
      && (s.awaiting ==> s.waited == |since| && s.effectSeen == EffectBefore(fired.f, frames, |since|))
      && s.prev == Some(if since == [] then fired.f else since[|since| - 1].f) && !s.resetLevel
    decreases |since|
  {
    hide OnFrame, Run, Releases, EffectBefore, Awaited, Normal;
    var start := events + [Request] + [fired];
    if since == [] {
      assert start + since == start;
      RequestRestarts(u, events, fired);
      NoEffectYet(fired.f, FramesOf(since));
    } else {
      var n := |since| - 1;
      var init, last := since[..n], since[n];
      var frames, before := FramesOf(since), Run(u, start + init);
      AwaitExact(u, events, fired, init);
      assert start + since == (start + init) + [last];
      RunNext(u, start + init, last);
      assert Invariant(before);
      OnFrameShape(before.session, u, last.f, last.drive, last.receivedAt);
      assert FramesOf(init) == frames[..n];
      forall k: nat | k < n
        ensures Releases(fired.f, FramesOf(init), k) == Releases(fired.f, frames, k)
      {
        ReleasesPrefix(fired.f, FramesOf(init), frames, k);
      }
      EffectPrefix(fired.f, FramesOf(init), frames, n);
      EffectNext(fired.f, frames, n);
      AwaitedIs(before.session, fired.f, frames, n);
      assert (forall k: nat :: k < |since| ==> !Releases(fired.f, frames, k)) <==>
        (forall k: nat :: k < n ==> !Releases(fired.f, FramesOf(init), k)) && !Releases(fired.f, frames, n);
    }
  }

  lemma NoEffectYet(before: Frame, frames: seq<Frame>)
    ensures !EffectBefore(before, frames, 0)
  {
  }

  /** One frame of the wait, as the rule says it. */
  lemma AwaitedIs(s: State, before: Frame, frames: seq<Frame>, k: nat)
    requires k < |frames| && s.prev == Some(if k == 0 then before else frames[k - 1])
    requires s.awaiting ==> s.waited == k && s.effectSeen == EffectBefore(before, frames, k)
    ensures var r := Awaited(s, frames[k]);
      && r.awaiting == (s.awaiting && !Releases(before, frames, k))
      && (s.awaiting ==> r.waited == k + 1 && r.effectSeen == (s.effectSeen || !NormalAt(before, frames, k)))
  {
    hide Normal, EffectBefore;
  }
}
