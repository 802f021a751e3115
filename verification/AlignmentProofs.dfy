/**
 Pruning the estimates is invisible, and the live stream is the offline alignment
 but for the samples whose next estimate came too late.
 */
module AlignmentProofs {
  import opened Options
  import opened Alignment

  // --- lists and their views

  lemma {:induction false} LeftOfJoin(a: seq<Pose>, b: seq<Pose>, stamp: real)
    requires forall i :: 0 <= i < |a| ==> a[i].stamp < stamp
    ensures Left(a + b, stamp) == |a| + Left(b, stamp)
  {
    if a == [] {
      assert a + b == b;
    } else {
      assert (a + b)[1..] == a[1..] + b;
      LeftOfJoin(a[1..], b, stamp);
    }
  }

  lemma {:induction false} RightOfJoin(a: seq<Pose>, b: seq<Pose>, stamp: real)
    requires forall i :: 0 <= i < |a| ==> a[i].stamp <= stamp
    ensures Right(a + b, stamp) == |a| + Right(b, stamp)
  {
    if a == [] {
      assert a + b == b;
    } else {
      assert (a + b)[1..] == a[1..] + b;
      RightOfJoin(a[1..], b, stamp);
    }
  }

  /** What lies wholly before a pose before the horizon is out of view. */
  lemma PrefixOutOfView(a: seq<Pose>, b: seq<Pose>, horizon: real)
    requires forall i :: 0 <= i < |a| ==> a[i].stamp < horizon
    requires b != [] && b[0].stamp < horizon
    ensures View(a + b, horizon) == View(b, horizon)
  {
    LeftOfJoin(a, b, horizon);
    var n := Left(b, horizon);
    assert n >= 1;
    assert (a + b)[|a| + n - 1..] == b[n - 1..];
  }

  lemma ViewOfView(poses: seq<Pose>, near: real, far: real)
    requires near <= far
    ensures View(View(poses, near), far) == View(poses, far)
  {
    var n := Left(poses, near);
    if n > 1 {
      assert poses == poses[..n - 1] + poses[n - 1..];
      PrefixOutOfView(poses[..n - 1], poses[n - 1..], far);
    }
  }

  lemma InsertAfterPrefix(a: seq<Pose>, b: seq<Pose>, pose: Pose)
    requires Sorted(a + b) && b != [] && pose.stamp >= b[0].stamp
    ensures Insert(a + b, pose) == a + Insert(b, pose) && Insert(b, pose) != [] && Insert(b, pose)[0] == b[0]
  {
    hide Right;
    forall i | 0 <= i < |a|
      ensures a[i].stamp <= pose.stamp
    {
      assert (a + b)[i] == a[i] && (a + b)[|a|] == b[0];
    }
    RightOfJoin(a, b, pose.stamp);
    var k := Right(b, pose.stamp);
    assert k >= 1;
    assert (a + b)[..|a| + k] == a + b[..k];
    assert (a + b)[|a| + k..] == b[k..];
    assert (a + b[..k]) + [pose] + b[k..] == a + (b[..k] + [pose] + b[k..]);
  }

  lemma InsertInPrefix(a: seq<Pose>, b: seq<Pose>, pose: Pose) returns (a': seq<Pose>)
    requires Sorted(a + b) && b != [] && pose.stamp < b[0].stamp
    ensures Insert(a + b, pose) == a' + b && Insert(b, pose) == [pose] + b
    ensures forall i :: 0 <= i < |a'| ==> a'[i] == pose || a'[i] in a
  {
    var k := Right(a + b, pose.stamp);
    assert (a + b)[|a|] == b[0];
    assert k <= |a|;
    a' := a[..k] + [pose] + a[k..];
    assert (a + b)[..k] == a[..k] && (a + b)[k..] == a[k..] + b;
  }

  lemma ViewOfInsert(poses: seq<Pose>, pose: Pose, horizon: real)
    requires Sorted(poses)
    ensures View(Insert(poses, pose), horizon) == View(Insert(View(poses, horizon), pose), horizon)
  {
    hide Insert;
    var n := Left(poses, horizon);
    if n > 1 {
      var a, b := poses[..n - 1], poses[n - 1..];
      assert poses == a + b;
      if pose.stamp >= b[0].stamp {
        InsertAfterPrefix(a, b, pose);
        PrefixOutOfView(a, Insert(b, pose), horizon);
      } else {
        var a' := InsertInPrefix(a, b, pose);
        PrefixOutOfView(a', b, horizon);
        PrefixOutOfView([pose], b, horizon);
      }
    }
  }

  lemma InsertSorted(poses: seq<Pose>, pose: Pose)
    requires Sorted(poses)
    ensures Sorted(Insert(poses, pose))
  {
  }

  /** A decision at or past the horizon reads the view alone. */
  lemma DecideOnView(s: State, horizon: real, stamp: real, final: bool)
    requires horizon <= stamp
    ensures Decide(s, stamp, final) == Decide(s.(estimates := View(s.estimates, horizon)), stamp, final)
  {
    var n := Left(s.estimates, horizon);
    if n > 1 {
      var a, b := s.estimates[..n - 1], s.estimates[n - 1..];
      assert s.estimates == a + b;
      LeftOfJoin(a, b, stamp);
    }
  }

  // --- pruning is invisible

  /** The call an aligner that never discards would make. */
  function StepKept(s: State, e: Event): Result {
    Resolve(Accept(s, e), false)
  }

  function LiveKept(s: State, events: seq<Event>): seq<Pair>
    decreases |events|
  {
    if events == [] then Resolve(s, true).pairs
    else
      var r := StepKept(s, events[0]);
      r.pairs + LiveKept(r.state, events[1..])
  }

  /** Two aligners that differ only in estimates out of every future view. */
  ghost predicate Alike(a: State, b: State) {
    && a.window == b.window && a.pending == b.pending && a.latest == b.latest
    && Sorted(a.estimates) && Sorted(b.estimates)
    && (a.latest == None ==> a.pending == [] && a.estimates == b.estimates)
    && TruthsInOrder(a)
    && (a.latest.Some? ==> View(a.estimates, Horizon(a)) == View(b.estimates, Horizon(b)))
  }

  ghost predicate TruthsInOrder(s: State) {
    && Sorted(s.pending)
    && (s.pending != [] ==> s.latest == Some(s.pending[|s.pending| - 1].stamp))
  }

  function Horizon(s: State): real
    requires s.latest.Some?
  {
    if s.pending != [] then s.pending[0].stamp else s.latest.value
  }

  lemma DecideAlike(a: State, b: State, stamp: real, final: bool)
    requires Alike(a, b) && a.latest.Some? && Horizon(a) <= stamp
    ensures Decide(a, stamp, final) == Decide(b, stamp, final)
  {
    DecideOnView(a, Horizon(a), stamp, final);
    DecideOnView(b, Horizon(b), stamp, final);
  }

  lemma {:induction false} ResolveAlike(a: State, b: State, final: bool)
    requires Alike(a, b)
    ensures Alike(Resolve(a, final).state, Resolve(b, final).state)
    ensures Resolve(a, final).pairs == Resolve(b, final).pairs
    ensures Resolve(a, final).state.latest == a.latest
    decreases |a.pending|
  {
    if a.pending != [] {
      DecideAlike(a, b, a.pending[0].stamp, final);
      if Decide(a, a.pending[0].stamp, final) != Undecided {
        var a', b' := a.(pending := a.pending[1..]), b.(pending := b.pending[1..]);
        ViewOfView(a.estimates, Horizon(a), Horizon(a'));
        ViewOfView(b.estimates, Horizon(b), Horizon(b'));
        ResolveAlike(a', b', final);
      }
    }
  }

  lemma ViewSorted(poses: seq<Pose>, horizon: real)
    requires Sorted(poses)
    ensures Sorted(View(poses, horizon))
  {
  }

  lemma DiscardAlike(a: State, b: State)
    requires Alike(a, b)
    ensures Alike(Discard(a), b)
  {
    if a.latest.Some? {
      ViewOfView(a.estimates, Horizon(a), Horizon(a));
      ViewSorted(a.estimates, Horizon(a));
    }
  }

  lemma AcceptEstimateAlike(a: State, b: State, pose: Pose)
    requires Alike(a, b)
    ensures Alike(Accept(a, Estimate(pose)), Accept(b, Estimate(pose)))
  {
    hide Insert, View, Left;
    InsertSorted(a.estimates, pose);
    InsertSorted(b.estimates, pose);
    if a.latest.Some? {
      ViewOfInsert(a.estimates, pose, Horizon(a));
      ViewOfInsert(b.estimates, pose, Horizon(b));
    }
  }

  lemma AcceptTruthAlike(a: State, b: State, pose: Pose)
    requires Alike(a, b)
    requires a.latest.Some? ==> pose.stamp >= a.latest.value
    ensures Alike(Accept(a, Truth(pose)), Accept(b, Truth(pose)))
  {
    hide View, Left;
    var a', b' := Accept(a, Truth(pose)), Accept(b, Truth(pose));
    assert Sorted(a'.pending);
    if a.latest.Some? {
      ViewOfView(a.estimates, Horizon(a), Horizon(a'));
      ViewOfView(b.estimates, Horizon(b), Horizon(b'));
    }
  }

  /** Truth comes in stamp order; estimates may come late and in any order. */
  ghost predicate TruthOrdered(latest: Option<real>, events: seq<Event>)
    decreases |events|
  {
    events != [] ==>
      if events[0].Truth?
      then (latest.Some? ==> events[0].pose.stamp >= latest.value) &&
           TruthOrdered(Some(events[0].pose.stamp), events[1..])
      else TruthOrdered(latest, events[1..])
  }

  lemma {:induction false} AlikeForever(a: State, b: State, events: seq<Event>)
    requires Alike(a, b) && TruthOrdered(a.latest, events)
    ensures Live(a, events) == LiveKept(b, events)
    decreases |events|
  {
    hide Resolve, Alike, View, Insert;
    if events == [] {
      ResolveAlike(a, b, true);
    } else {
      if events[0].Truth? {
        AcceptTruthAlike(a, b, events[0].pose);
      } else {
        AcceptEstimateAlike(a, b, events[0].pose);
      }
      var a', b' := Accept(a, events[0]), Accept(b, events[0]);
      ResolveAlike(a', b', false);
      DiscardAlike(Resolve(a', false).state, Resolve(b', false).state);
      AlikeForever(Step(a, events[0]).state, StepKept(b, events[0]).state, events[1..]);
    }
  }

  /** An aligner that discards hands out just what one that keeps everything does. */
  lemma PruningInvisible(window: real, events: seq<Event>)
    requires TruthOrdered(None, events)
    ensures Live(Start(window), events) == LiveKept(Start(window), events)
  {
    AlikeForever(Start(window), Start(window), events);
  }

  // --- the live stream against the offline answer

  /** Truth moved more than the window past the stamp while every estimate that
      had come was still before it. */
  ghost predicate OvertakenAt(events: seq<Event>, k: nat, stamp: real, window: real)
    requires k < |events|
  {
    && events[k].Truth? && events[k].pose.stamp - stamp > window
    && NoneFrom(events[..k], stamp)
  }

  ghost predicate Overtaken(events: seq<Event>, stamp: real, window: real) {
    exists k: nat :: k < |events| && OvertakenAt(events, k, stamp, window)
  }

  ghost predicate NoneFrom(events: seq<Event>, stamp: real) {
    forall i :: 0 <= i < |events| && events[i].Estimate? ==> events[i].pose.stamp < stamp
  }

  /** All the estimates of the stream, in the order they came. */
  function EstimatesIn(events: seq<Event>): seq<Pose> {
    if events == [] then []
    else if events[|events| - 1].Estimate? then EstimatesIn(events[..|events| - 1]) + [events[|events| - 1].pose]
    else EstimatesIn(events[..|events| - 1])
  }

  function TruthsIn(events: seq<Event>): seq<Pose> {
    if events == [] then []
    else if events[0].Truth? then [events[0].pose] + TruthsIn(events[1..])
    else TruthsIn(events[1..])
  }

  /** The pair every truth sample ends up in. */
  ghost function Scored(events: seq<Event>, window: real, truth: Pose): Pair {
    Pair(truth, if Overtaken(events, truth.stamp, window) then None
                else EstimateOf(EstimatesIn(events), window, truth.stamp))
  }

  ghost function AllScored(events: seq<Event>, window: real, truths: seq<Pose>): seq<Pair> {
    seq(|truths|, i requires 0 <= i < |truths| => Scored(events, window, truths[i]))
  }

  lemma {:induction false} EstimatesInJoin(a: seq<Event>, b: seq<Event>)
    ensures EstimatesIn(a + b) == EstimatesIn(a) + EstimatesIn(b)
    decreases |b|
  {
    if b == [] {
      assert a + b == a;
    } else {
      assert (a + b)[..|a + b| - 1] == a + b[..|b| - 1];
      EstimatesInJoin(a, b[..|b| - 1]);
    }
  }

  lemma {:induction false} NoneFromEstimates(events: seq<Event>, stamp: real)
    ensures NoneFrom(events, stamp) <==> Left(EstimatesIn(events), stamp) == |EstimatesIn(events)|
    decreases |events|
  {
    if events != [] {
      var init, e := events[..|events| - 1], events[|events| - 1];
      NoneFromEstimates(init, stamp);
      assert NoneFrom(events, stamp) <==> NoneFrom(init, stamp) && (e.Estimate? ==> e.pose.stamp < stamp);
      if e.Estimate? {
        if Left(EstimatesIn(init), stamp) == |EstimatesIn(init)| {
          LeftOfJoin(EstimatesIn(init), [e.pose], stamp);
        } else {
          LeftOfStart(EstimatesIn(init), [e.pose], stamp);
        }
      }
    }
  }

  /** A list that reaches the stamp answers for every longer one. */
  lemma {:induction false} LeftOfStart(a: seq<Pose>, b: seq<Pose>, stamp: real)
    requires Left(a, stamp) < |a|
    ensures Left(a + b, stamp) == Left(a, stamp)
    decreases |a|
  {
    if a[0].stamp < stamp {
      assert (a + b)[1..] == a[1..] + b;
      LeftOfStart(a[1..], b, stamp);
    }
  }

  lemma EstimateOfStart(a: seq<Pose>, b: seq<Pose>, window: real, stamp: real)
    requires Left(a, stamp) < |a|
    ensures EstimateOf(a + b, window, stamp) == EstimateOf(a, window, stamp)
  {
    LeftOfStart(a, b, stamp);
  }

  lemma InsertLast(poses: seq<Pose>, pose: Pose)
    requires Sorted(poses + [pose])
    ensures Insert(poses, pose) == poses + [pose]
  {
    var all := poses + [pose];
    assert forall i :: 0 <= i < |poses| ==> poses[i] == all[i] && all[i].stamp <= all[|poses|].stamp;
  }

  // What a longer stream changes of Overtaken.

  lemma OvertakenEarlier(done: seq<Event>, rest: seq<Event>, k: nat, stamp: real, window: real)
    requires k < |done|
    ensures OvertakenAt(done + rest, k, stamp, window) <==> OvertakenAt(done, k, stamp, window)
  {
    assert (done + rest)[..k] == done[..k];
  }

  lemma OvertakenMore(done: seq<Event>, rest: seq<Event>, stamp: real, window: real)
    ensures Overtaken(done, stamp, window) ==> Overtaken(done + rest, stamp, window)
    ensures !NoneFrom(done, stamp) && Overtaken(done + rest, stamp, window) ==> Overtaken(done, stamp, window)
  {
    hide OvertakenAt, NoneFrom;
    forall k: nat | k < |done|
      ensures OvertakenAt(done + rest, k, stamp, window) <==> OvertakenAt(done, k, stamp, window)
    {
      OvertakenEarlier(done, rest, k, stamp, window);
    }
    forall k: nat | |done| <= k < |done + rest| && OvertakenAt(done + rest, k, stamp, window)
      ensures NoneFrom(done, stamp)
    {
      ReachedBefore(done, rest, k, stamp, window);
    }
  }

  lemma ReachedBefore(done: seq<Event>, rest: seq<Event>, k: nat, stamp: real, window: real)
    requires |done| <= k < |done + rest| && OvertakenAt(done + rest, k, stamp, window)
    ensures NoneFrom(done, stamp)
  {
    assert forall i :: 0 <= i < |done| ==> (done + rest)[..k][i] == done[i];
  }

  lemma OvertakenNext(done: seq<Event>, e: Event, stamp: real, window: real)
    ensures Overtaken(done + [e], stamp, window) <==>
      Overtaken(done, stamp, window) || (e.Truth? && e.pose.stamp - stamp > window && NoneFrom(done, stamp))
  {
    hide NoneFrom;
    var events := done + [e];
    forall k: nat | k < |done|
      ensures OvertakenAt(events, k, stamp, window) <==> OvertakenAt(done, k, stamp, window)
    {
      OvertakenEarlier(done, [e], k, stamp, window);
    }
    assert events[..|done|] == done;
    assert OvertakenAt(events, |done|, stamp, window) <==>
      (e.Truth? && e.pose.stamp - stamp > window && NoneFrom(done, stamp));
  }

  // The stream so far, and what waits.

  /** No estimate has reached the sample, and truth is still within the window of it. */
  ghost predicate Waits(done: seq<Event>, latest: Option<real>, window: real, stamp: real) {
    && NoneFrom(done, stamp) && !Overtaken(done, stamp, window)
    && latest.Some? && latest.value - stamp <= window
  }

  /** A sample a call is about to decide: truth has left it behind just now or not at all. */
  ghost predicate Due(done: seq<Event>, latest: Option<real>, window: real, stamp: real) {
    && latest.Some?
    && (Overtaken(done, stamp, window) <==> NoneFrom(done, stamp) && latest.value - stamp > window)
  }

  ghost predicate Follows(s: State, done: seq<Event>) {
    && s.window > 0.0
    && s.estimates == EstimatesIn(done)
    && TruthsInOrder(s)
    && (forall k :: 0 <= k < |done| && done[k].Truth? ==> s.latest.Some? && done[k].pose.stamp <= s.latest.value)
  }

  ghost predicate AllWait(s: State, done: seq<Event>) {
    forall i :: 0 <= i < |s.pending| ==> Waits(done, s.latest, s.window, s.pending[i].stamp)
  }

  ghost predicate AllDue(s: State, done: seq<Event>) {
    forall i :: 0 <= i < |s.pending| ==> Due(done, s.latest, s.window, s.pending[i].stamp)
  }

  lemma AcceptFollows(s: State, done: seq<Event>, e: Event)
    requires Follows(s, done) && Sorted(EstimatesIn(done + [e]))
    requires e.Truth? && s.latest.Some? ==> e.pose.stamp >= s.latest.value
    ensures Follows(Accept(s, e), done + [e])
  {
    hide Insert;
    assert (done + [e])[..|done|] == done;
    if e.Estimate? {
      InsertLast(s.estimates, e.pose);
    }
  }

  lemma AcceptDue(s: State, done: seq<Event>, e: Event)
    requires Follows(s, done) && AllWait(s, done)
    requires e.Truth? && s.latest.Some? ==> e.pose.stamp >= s.latest.value
    ensures AllDue(Accept(s, e), done + [e])
  {
    hide Follows, Waits, Due;
    var s' := Accept(s, e);
    forall i | 0 <= i < |s'.pending|
      ensures Due(done + [e], s'.latest, s'.window, s'.pending[i].stamp)
    {
      if i < |s.pending| {
        WaitsThenDue(s, done, e, s.pending[i].stamp);
      } else {
        NewTruthDue(s, done, e.pose);
      }
    }
  }

  lemma WaitsThenDue(s: State, done: seq<Event>, e: Event, stamp: real)
    requires Follows(s, done) && Waits(done, s.latest, s.window, stamp)
    requires e.Truth? && s.latest.Some? ==> e.pose.stamp >= s.latest.value
    ensures Due(done + [e], Accept(s, e).latest, s.window, stamp)
  {
    hide Overtaken, Insert;
    OvertakenNext(done, e, stamp, s.window);
    assert e.Truth? ==> (NoneFrom(done + [e], stamp) <==> NoneFrom(done, stamp));
  }

  lemma NewTruthDue(s: State, done: seq<Event>, pose: Pose)
    requires Follows(s, done)
    requires s.latest.Some? ==> pose.stamp >= s.latest.value
    ensures Due(done + [Truth(pose)], Accept(s, Truth(pose)).latest, s.window, pose.stamp)
  {
    hide NoneFrom;
    OvertakenNext(done, Truth(pose), pose.stamp, s.window);
    assert !Overtaken(done, pose.stamp, s.window);
  }

  /** A due sample is decided as the whole stream scores it, or waits. */
  lemma DecideScored(s: State, done: seq<Event>, rest: seq<Event>, truth: Pose)
    requires Follows(s, done) && Due(done, s.latest, s.window, truth.stamp)
    ensures match Decide(s, truth.stamp, false)
      case Undecided => Waits(done, s.latest, s.window, truth.stamp)
      case Decided(estimate) => Scored(done + rest, s.window, truth) == Pair(truth, estimate)
  {
    hide Overtaken, NoneFrom;
    NoneFromEstimates(done, truth.stamp);
    OvertakenMore(done, rest, truth.stamp, s.window);
    EstimatesInJoin(done, rest);
    if Left(s.estimates, truth.stamp) < |s.estimates| {
      EstimateOfStart(s.estimates, EstimatesIn(rest), s.window, truth.stamp);
    }
  }

  lemma AllScoredNext(events: seq<Event>, window: real, truths: seq<Pose>)
    requires truths != []
    ensures AllScored(events, window, truths) ==
      [Scored(events, window, truths[0])] + AllScored(events, window, truths[1..])
  {
  }

  lemma WaitsLater(done: seq<Event>, latest: Option<real>, window: real, stamp: real, later: real)
    requires Waits(done, latest, window, stamp) && Due(done, latest, window, later) && stamp <= later
    ensures Waits(done, latest, window, later)
  {
  }

  lemma {:induction false} ResolveScored(s: State, done: seq<Event>, rest: seq<Event>, truths: seq<Pose>)
    requires Follows(s, done) && AllDue(s, done)
    ensures var r := Resolve(s, false);
      && Follows(r.state, done) && AllWait(r.state, done)
      && r.state.latest == s.latest && r.state.window == s.window
      && r.pairs + AllScored(done + rest, s.window, r.state.pending + truths)
         == AllScored(done + rest, s.window, s.pending + truths)
    decreases |s.pending|
  {
    hide Due, Waits, Scored, AllScored, Decide;
    if s.pending != [] {
      var truth := s.pending[0];
      DecideScored(s, done, rest, truth);
      if Decide(s, truth.stamp, false) == Undecided {
        forall i | 0 <= i < |s.pending|
          ensures Waits(done, s.latest, s.window, s.pending[i].stamp)
        {
          assert truth.stamp <= s.pending[i].stamp;
          WaitsLater(done, s.latest, s.window, truth.stamp, s.pending[i].stamp);
        }
      } else {
        var s' := s.(pending := s.pending[1..]);
        ResolveScored(s', done, rest, truths);
        AllScoredNext(done + rest, s.window, s.pending + truths);
        assert (s.pending + truths)[1..] == s'.pending + truths;
      }
    }
  }

  lemma {:induction false} FlushScored(s: State, done: seq<Event>)
    requires Follows(s, done) && AllWait(s, done)
    ensures Resolve(s, true).pairs == AllScored(done, s.window, s.pending)
    decreases |s.pending|
  {
    hide Overtaken, NoneFrom, AllScored;
    if s.pending == [] {
      AllScoredNone(done, s.window);
    } else {
      NoneFromEstimates(done, s.pending[0].stamp);
      FlushScored(s.(pending := s.pending[1..]), done);
      AllScoredNext(done, s.window, s.pending);
    }
  }

  lemma AllScoredNone(events: seq<Event>, window: real)
    ensures AllScored(events, window, []) == []
  {
  }

  lemma LiveKeptTurn(s: State, events: seq<Event>)
    requires events != []
    ensures var r := Resolve(Accept(s, events[0]), false);
      LiveKept(s, events) == r.pairs + LiveKept(r.state, events[1..])
  {
    hide Resolve, Accept;
  }

  lemma TruthsTurn(s: State, events: seq<Event>)
    requires events != [] && TruthOrdered(s.latest, events)
    ensures s.pending + TruthsIn(events) == Accept(s, events[0]).pending + TruthsIn(events[1..])
    ensures TruthOrdered(Accept(s, events[0]).latest, events[1..])
    ensures events[0].Truth? && s.latest.Some? ==> events[0].pose.stamp >= s.latest.value
  {
    hide Insert;
    if events[0].Truth? {
      assert Later(s.latest, events[0].pose.stamp) == Some(events[0].pose.stamp);
    }
  }

  lemma {:induction false} LiveScored(s: State, done: seq<Event>, rest: seq<Event>)
    requires Follows(s, done) && AllWait(s, done)
    requires TruthOrdered(s.latest, rest) && Sorted(EstimatesIn(done + rest))
    ensures LiveKept(s, rest) == AllScored(done + rest, s.window, s.pending + TruthsIn(rest))
    decreases |rest|
  {
    if rest == [] {
      FlushScored(s, done);
      assert s.pending + TruthsIn(rest) == s.pending && done + rest == done;
    } else {
      LiveScoredTurn(s, done, rest);
    }
  }

  lemma {:induction false} LiveScoredTurn(s: State, done: seq<Event>, rest: seq<Event>)
    requires rest != [] && Follows(s, done) && AllWait(s, done)
    requires TruthOrdered(s.latest, rest) && Sorted(EstimatesIn(done + rest))
    ensures LiveKept(s, rest) == AllScored(done + rest, s.window, s.pending + TruthsIn(rest))
    decreases |rest|, 0
  {
    hide *;
    var e, s' := rest[0], Accept(s, rest[0]);
    var r := Resolve(s', false);
    assert done + rest == (done + [e]) + rest[1..];
    LiveKeptTurn(s, rest);
    TruthsTurn(s, rest);
    SortedStart(done + [e], rest[1..]);
    AcceptFollows(s, done, e);
    AcceptDue(s, done, e);
    AcceptKeeps(s, e);
    ResolveScored(s', done + [e], rest[1..], TruthsIn(rest[1..]));
    LiveScored(r.state, done + [e], rest[1..]);
  }

  lemma AcceptKeeps(s: State, e: Event)
    ensures Accept(s, e).window == s.window
  {
  }

  lemma SortedStart(a: seq<Event>, b: seq<Event>)
    requires Sorted(EstimatesIn(a + b))
    ensures Sorted(EstimatesIn(a))
  {
    EstimatesInJoin(a, b);
    assert forall i :: 0 <= i < |EstimatesIn(a)| ==> EstimatesIn(a + b)[i] == EstimatesIn(a)[i];
  }

  // --- the results

  /** What the live stream hands out, sample by sample: the offline estimate, or
      None when truth had moved past the window before any estimate caught up. */
  lemma LiveExact(window: real, events: seq<Event>)
    requires window > 0.0 && TruthOrdered(None, events) && Sorted(EstimatesIn(events))
    ensures Live(Start(window), events) == AllScored(events, window, TruthsIn(events))
  {
    PruningInvisible(window, events);
    assert [] + events == events && [] + TruthsIn(events) == TruthsIn(events);
    LiveScored(Start(window), [], events);
  }

  lemma InsertAdds(poses: seq<Pose>, pose: Pose)
    ensures multiset(Insert(poses, pose)) == multiset(poses) + multiset{pose}
  {
    var n := Right(poses, pose.stamp);
    assert poses == poses[..n] + poses[n..];
  }

  lemma {:induction false} SortSorts(poses: seq<Pose>)
    ensures Sorted(SortByStamp(poses))
    ensures multiset(SortByStamp(poses)) == multiset(poses)
    decreases |poses|
  {
    hide Insert;
    if poses != [] {
      var init, last := poses[..|poses| - 1], poses[|poses| - 1];
      SortSorts(init);
      InsertSorted(SortByStamp(init), last);
      InsertAdds(SortByStamp(init), last);
      assert poses == init + [last];
    }
  }

  lemma {:induction false} SortKeeps(poses: seq<Pose>)
    requires Sorted(poses)
    ensures SortByStamp(poses) == poses
    decreases |poses|
  {
    if poses != [] {
      var init, last := poses[..|poses| - 1], poses[|poses| - 1];
      assert poses == init + [last];
      SortKeeps(init);
      InsertLast(init, last);
    }
  }

  lemma {:induction false} OfEstimates(poses: seq<Pose>)
    ensures EstimatesIn(Estimates(poses)) == poses && TruthsIn(Estimates(poses)) == []
    decreases |poses|
  {
    if poses != [] {
      var events := Estimates(poses);
      assert events[..|events| - 1] == Estimates(poses[..|poses| - 1]);
      assert poses == poses[..|poses| - 1] + [poses[|poses| - 1]];
      OfEstimates(poses[..|poses| - 1]);
      TruthsInJoin(events[..|events| - 1], [events[|events| - 1]]);
      assert events == events[..|events| - 1] + [events[|events| - 1]];
    }
  }

  lemma {:induction false} TruthsInJoin(a: seq<Event>, b: seq<Event>)
    ensures TruthsIn(a + b) == TruthsIn(a) + TruthsIn(b)
    decreases |a|
  {
    if a == [] {
      assert a + b == b;
    } else {
      assert (a + b)[1..] == a[1..] + b;
      TruthsInJoin(a[1..], b);
    }
  }

  lemma {:induction false} NoEstimates(events: seq<Event>)
    requires forall i :: 0 <= i < |events| ==> events[i].Truth?
    ensures EstimatesIn(events) == []
    decreases |events|
  {
    if events != [] {
      NoEstimates(events[..|events| - 1]);
    }
  }

  lemma {:induction false} OfTruths(poses: seq<Pose>, latest: Option<real>)
    requires Sorted(poses) && (latest.Some? && poses != [] ==> poses[0].stamp >= latest.value)
    ensures TruthsIn(Truths(poses)) == poses
    ensures TruthOrdered(latest, Truths(poses))
    decreases |poses|
  {
    if poses != [] {
      var events := Truths(poses);
      assert events[1..] == Truths(poses[1..]);
      assert Sorted(poses[1..]);
      OfTruths(poses[1..], Some(poses[0].stamp));
    }
  }

  lemma {:induction false} TruthsSorted(latest: Option<real>, events: seq<Event>)
    requires TruthOrdered(latest, events)
    ensures Sorted(TruthsIn(events))
    ensures latest.Some? ==> forall i :: 0 <= i < |TruthsIn(events)| ==> TruthsIn(events)[i].stamp >= latest.value
    decreases |events|
  {
    if events != [] {
      TruthsSorted(if events[0].Truth? then Some(events[0].pose.stamp) else latest, events[1..]);
    }
  }

  lemma {:induction false} EstimatesThenTruths(estimates: seq<Pose>, truths: seq<Event>)
    requires TruthOrdered(None, truths)
    ensures TruthOrdered(None, Estimates(estimates) + truths)
    decreases |estimates|
  {
    if estimates == [] {
      assert Estimates(estimates) + truths == truths;
    } else {
      assert (Estimates(estimates) + truths)[1..] == Estimates(estimates[1..]) + truths;
      EstimatesThenTruths(estimates[1..], truths);
    }
  }

  ghost function OfflinePairs(estimates: seq<Pose>, window: real, truths: seq<Pose>): seq<Pair> {
    seq(|truths|, i requires 0 <= i < |truths| => Pair(truths[i], EstimateOf(estimates, window, truths[i].stamp)))
  }

  /** When every estimate came first, a sample no estimate reaches has no estimate anyway. */
  lemma OfflineNeverOvertaken(estimates: seq<Pose>, truths: seq<Event>, window: real, truth: Pose)
    requires forall i :: 0 <= i < |truths| ==> truths[i].Truth?
    requires EstimatesIn(Estimates(estimates) + truths) == estimates
    ensures Scored(Estimates(estimates) + truths, window, truth) ==
      Pair(truth, EstimateOf(estimates, window, truth.stamp))
  {
    var events := Estimates(estimates) + truths;
    if Overtaken(events, truth.stamp, window) {
      var k: nat :| k < |events| && OvertakenAt(events, k, truth.stamp, window);
      assert k >= |estimates|;
      assert forall i :: 0 <= i < |estimates| ==> events[..k][i] == Estimate(estimates[i]);
    }
  }

  lemma AlignStream(es: seq<Pose>, ts: seq<Pose>)
    requires Sorted(es) && Sorted(ts)
    ensures var events := Estimates(es) + Truths(ts);
      EstimatesIn(events) == es && TruthsIn(events) == ts && TruthOrdered(None, events)
  {
    hide Estimates, Truths, EstimatesIn, TruthsIn, TruthOrdered;
    OfEstimates(es);
    OfTruths(ts, None);
    NoEstimates(Truths(ts));
    EstimatesThenTruths(es, Truths(ts));
    EstimatesInJoin(Estimates(es), Truths(ts));
    TruthsInJoin(Estimates(es), Truths(ts));
  }

  /** Offline alignment of any two lists is the declarative answer, truth by truth. */
  lemma AlignExact(estimates: seq<Pose>, truth: seq<Pose>, window: real)
    requires window > 0.0
    ensures Align(estimates, truth, window) == OfflinePairs(SortByStamp(estimates), window, SortByStamp(truth))
  {
    hide SortByStamp, Scored, EstimateOf, Live, EstimatesIn, TruthsIn, TruthOrdered, Sorted;
    var es, ts := SortByStamp(estimates), SortByStamp(truth);
    var events := Estimates(es) + Truths(ts);
    SortSorts(estimates);
    SortSorts(truth);
    AlignStream(es, ts);
    LiveExact(window, events);
    forall i | 0 <= i < |ts|
      ensures AllScored(events, window, ts)[i] == OfflinePairs(es, window, ts)[i]
    {
      OfflineNeverOvertaken(es, Truths(ts), window, ts[i]);
    }
  }

  /** Live is offline exactly when no sample the estimates do cover was overtaken. */
  lemma LiveIsOffline(window: real, events: seq<Event>)
    requires window > 0.0 && TruthOrdered(None, events) && Sorted(EstimatesIn(events))
    ensures Live(Start(window), events) == Align(EstimatesIn(events), TruthsIn(events), window) <==>
      forall i :: 0 <= i < |TruthsIn(events)| ==>
        (Overtaken(events, TruthsIn(events)[i].stamp, window) ==>
          EstimateOf(EstimatesIn(events), window, TruthsIn(events)[i].stamp) == None)
  {
    hide Overtaken, Live, Align, EstimateOf, Sorted;
    var es, ts := EstimatesIn(events), TruthsIn(events);
    TruthsSorted(None, events);
    LiveExact(window, events);
    AlignExact(es, ts, window);
    SortKeeps(es);
    SortKeeps(ts);
    var live, offline := AllScored(events, window, ts), OfflinePairs(es, window, ts);
    assert live == offline <==> forall i :: 0 <= i < |ts| ==> live[i] == offline[i];
    assert forall i :: 0 <= i < |ts| ==>
      (live[i] == offline[i] <==>
        (Overtaken(events, ts[i].stamp, window) ==> EstimateOf(es, window, ts[i].stamp) == None));
  }

  // --- where live and offline differ

  function At(stamp: real): Pose {
    Pose(stamp, 0.0, 0.0, 0.0)
  }

  /** Truth overtakes the first sample by two windows; only then come estimates, in
      order, half a window apart on either side of it. */
  function LateEvents(window: real): seq<Event> {
    [Truth(At(0.0)), Truth(At(2.0 * window)), Estimate(At(-window / 4.0)), Estimate(At(window / 4.0))]
  }

  lemma LateLists(window: real)
    requires window > 0.0
    ensures EstimatesIn(LateEvents(window)) == [At(-window / 4.0), At(window / 4.0)]
    ensures TruthsIn(LateEvents(window)) == [At(0.0), At(2.0 * window)]
  {
    hide EstimatesIn, TruthsIn;
    var ts, es := [At(0.0), At(2.0 * window)], [At(-window / 4.0), At(window / 4.0)];
    assert LateEvents(window) == Truths(ts) + Estimates(es);
    EstimatesInJoin(Truths(ts), Estimates(es));
    TruthsInJoin(Truths(ts), Estimates(es));
    NoEstimates(Truths(ts));
    OfEstimates(es);
    OfTruths(ts, None);
  }

  lemma LateOrdered(window: real)
    requires window > 0.0
    ensures TruthOrdered(None, LateEvents(window))
  {
    var events := LateEvents(window);
    var latest := Some(2.0 * window);
    assert events[2..][1..] == events[3..] && events[3..][1..] == [];
    assert TruthOrdered(latest, events[3..]) && TruthOrdered(latest, events[2..]);
    assert events[1..][1..] == events[2..];
    assert TruthOrdered(Some(0.0), events[1..]);
  }

  lemma LeftIsOne(poses: seq<Pose>, stamp: real)
    requires |poses| == 2 && poses[0].stamp < stamp <= poses[1].stamp
    ensures Left(poses, stamp) == 1
  {
    assert Left(poses[1..], stamp) == 0;
  }

  /** Late estimates would have scored a sample the stream had given up: for every
      window a stream whose live pairs are not the offline ones. */
  lemma LiveDiffers(window: real)
    requires window > 0.0
    ensures var events := LateEvents(window);
      && TruthOrdered(None, events) && Sorted(EstimatesIn(events))
      && Live(Start(window), events) != Align(EstimatesIn(events), TruthsIn(events), window)
  {
    hide Live, Align, EstimatesIn, TruthsIn, TruthOrdered, Left, Interpolate;
    var events := LateEvents(window);
    LateLists(window);
    LateOrdered(window);
    LiveIsOffline(window, events);
    assert NoneFrom(events[..1], 0.0);
    assert OvertakenAt(events, 1, 0.0, window);
    var es := EstimatesIn(events);
    LeftIsOne(es, 0.0);
    assert EstimateOf(es, window, 0.0).Some?;
    assert TruthsIn(events)[0].stamp == 0.0;
  }
}
