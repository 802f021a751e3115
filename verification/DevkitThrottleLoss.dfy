/**
 Why throttle must not be lost while learning: whatever the throttles delivered, a
 burst skipped among them is enough for a run, every other topic in order, that is
 handed a frame made of two bursts.
 */
module DevkitThrottleLoss {
  import opened Options
  import opened DevkitSpec
  import opened DevkitPairing

  const STEERING: Topic := 1
  const PERIOD: int := 20_000_000

  function Payload(t: Topic, k: nat): Value {
    if t == IPS then Ips((0.0, 0.0, 0.0))
    else if t == ODOM then Odom((0.0, 0.0, 0.0), (0.0, 0.0, 0.0))
    else if t == IMU then Imu((0.0, 0.0, 0.0, 1.0), (0.0, 0.0, 0.0), (0.0, 0.0, 0.0))
    else if t == LIDAR then Lidar([], 0.0)
    else Scalar(k as real)
  }

  function Message(t: Topic, k: nat): Item {
    Item(Payload(t, k), PERIOD * k, k, PERIOD * k)
  }

  lemma MessageIs(t: Topic, k: nat)
    ensures Message(t, k).sequence == k && Message(t, k).source == PERIOD * k
  {
  }

  /** A burst every 20 ms, every message of it stamped alike. */
  function Steady(): (p: Publisher)
    ensures |p.base| == TOPICS
  {
    Publisher(Zeros(), (t: Topic, k: nat) => Message(t, k))
  }

  lemma SteadyPublishes()
    ensures Publishes(Steady()) && SendsTyped(Steady())
  {
  }

  /** Throttle skips from burst a to burst b; the bursts between that the other topics
      deliver, steering aside, are at the run's choice. */
  datatype Skip = Skip(a: nat, b: nat, between: seq<nat>)
  {
    ghost predicate Valid() {
      && a + 1 < b && |between| + 2 <= MAX_FRAMES
      && (forall i :: 0 <= i < |between| ==> a < between[i] < b)
      && (forall i, j :: 0 <= i < j < |between| ==> between[i] < between[j])
    }
  }

  /** Steering's first message is of the next burst, and stands in for its own. */
  function First(t: Topic): nat {
    if t == STEERING then 1 else 0
  }

  function Arriving(l: Skip, t: Topic): seq<nat> {
    if t == STEERING then [l.a + 1, l.b + 1] else [l.a] + l.between + [l.b]
  }

  lemma ArrivingRises(l: Skip, t: Topic)
    requires l.Valid()
    ensures 2 <= |Arriving(l, t)| <= MAX_FRAMES
    ensures Arriving(l, t)[0] == l.a + First(t) && Arriving(l, t)[|Arriving(l, t)| - 1] == l.b + First(t)
    ensures forall i, j :: 0 <= i < j < |Arriving(l, t)| ==> Arriving(l, t)[i] < Arriving(l, t)[j]
    ensures forall i :: 0 <= i < |Arriving(l, t)| ==> l.a <= Arriving(l, t)[i]
    ensures forall i :: 0 < i < |Arriving(l, t)| - 1 ==> Arriving(l, t)[i] < l.b
  {
  }

  function Messages(l: Skip, t: Topic): (r: seq<Item>)
    ensures |r| == |Arriving(l, t)| && forall i :: 0 <= i < |r| ==> r[i] == Message(t, Arriving(l, t)[i])
  {
    seq(|Arriving(l, t)|, i requires 0 <= i < |Arriving(l, t)| => Message(t, Arriving(l, t)[i]))
  }

  lemma RunOne(s: State, a: (Topic, nat), rest: seq<(Topic, nat)>)
    requires WellFormed(s)
    ensures var one := Offer(s, a.0, Message(a.0, a.1));
      Run(s, Offers(Steady(), [a] + rest)).out == one.out + Run(one.state, Offers(Steady(), rest)).out
  {
    hide Offer;
    var offers := Offers(Steady(), [a] + rest);
    assert offers[0] == (a.0, Message(a.0, a.1));
    assert offers[1..] == Offers(Steady(), rest);
  }

  // --- throttle alone

  ghost predicate ThrottlesUpTo(queue: seq<Item>, a: nat) {
    && queue != [] && queue[|queue| - 1] == Message(THROTTLE, a)
    && forall i :: 0 <= i < |queue| ==> queue[i].source <= PERIOD * a
  }

  /** Nothing but throttles has come since the start or the last restart, `prev` last. */
  ghost predicate Lone(s: State, prev: Option<nat>) {
    && WellFormed(s) && !s.synced && s.candidate == None
    && (forall t: Topic :: t != THROTTLE ==> s.pending[t] == [] && t !in s.last)
    && match prev
       case None => THROTTLE !in s.last && s.pending[THROTTLE] == []
       case Some(a) => THROTTLE in s.last && s.last[THROTTLE] == a && ThrottlesUpTo(s.pending[THROTTLE], a)
  }

  lemma QueueNext(queue: seq<Item>, a: nat, k: nat)
    requires queue == [] || (ThrottlesUpTo(queue, a) && a < k)
    ensures var next := queue + [Message(THROTTLE, k)];
      ThrottlesUpTo(next, k) && (|next| > MAX_FRAMES ==> ThrottlesUpTo(next[1..], k))
  {
    MessageIs(THROTTLE, k);
  }

  /** With the other topics silent, a throttle only waits, or restarts the wait. */
  lemma LoneNext(s: State, prev: Option<nat>, k: nat)
    requires Lone(s, prev)
    ensures Offer(s, THROTTLE, Message(THROTTLE, k)).out == []
    ensures Lone(Offer(s, THROTTLE, Message(THROTTLE, k)).state, Some(k))
  {
    hide LearnBurst, Message;
    var it := Message(THROTTLE, k);
    MessageIs(THROTTLE, k);
    var s0 := Fresh(s, THROTTLE, it);
    QueueNext(s0.pending[THROTTLE], if prev == None then 0 else prev.value, k);
    var queued := Queued(Noted(s0, THROTTLE, k), THROTTLE, it);
    assert ThrottlesUpTo(queued.pending[THROTTLE], k);
    var aligned := Aligned(queued.pending, queued.pending[THROTTLE][0].source);
    assert forall t: Topic :: t != THROTTLE ==> queued.pending[t] == [] && aligned[t] == [];
    assert aligned[LIDAR] == [];
    LearnTurn(queued);
  }

  function Throttles(ts: seq<nat>): (r: seq<(Topic, nat)>)
    ensures |r| == |ts| && forall i :: 0 <= i < |r| ==> r[i] == (THROTTLE, ts[i])
  {
    seq(|ts|, i requires 0 <= i < |ts| => (THROTTLE, ts[i]))
  }

  lemma {:induction false} LoneRun(s: State, prev: Option<nat>, ts: seq<nat>, rest: seq<(Topic, nat)>)
    returns (after: State)
    requires Lone(s, prev)
    ensures Lone(after, if ts == [] then prev else Some(ts[|ts| - 1]))
    ensures Run(s, Offers(Steady(), Throttles(ts) + rest)).out == Run(after, Offers(Steady(), rest)).out
    decreases |ts|
  {
    hide Lone, Offer, Offers, Run, Message;
    if ts == [] {
      assert Throttles(ts) + rest == rest;
      after := s;
    } else {
      var tail := Throttles(ts[1..]) + rest;
      assert Throttles(ts) + rest == [(THROTTLE, ts[0])] + tail;
      LoneFormed(s, prev);
      RunOne(s, (THROTTLE, ts[0]), tail);
      LoneNext(s, prev, ts[0]);
      after := LoneRun(Offer(s, THROTTLE, Message(THROTTLE, ts[0])).state, Some(ts[0]), ts[1..], rest);
    }
  }

  lemma LoneFormed(s: State, prev: Option<nat>)
    requires Lone(s, prev)
    ensures WellFormed(s)
  {
  }

  // --- the other topics, held back until now

  /** Throttle waits at burst a, and n[t] messages of each other topic beside it. */
  ghost predicate Holding(l: Skip, s: State, n: seq<nat>) {
    && |n| == TOPICS && WellFormed(s) && !s.synced && s.candidate == None
    && THROTTLE in s.last && s.last[THROTTLE] == l.a && ThrottlesUpTo(s.pending[THROTTLE], l.a)
    && (forall t: Topic :: t != THROTTLE ==> HoldingTopic(l, s, n, t))
  }

  ghost predicate HoldingTopic(l: Skip, s: State, n: seq<nat>, t: Topic)
    requires |n| == TOPICS && WellFormed(s)
  {
    && n[t] <= |Arriving(l, t)| && s.pending[t] == Messages(l, t)[..n[t]]
    && if n[t] == 0 then t !in s.last else t in s.last && s.last[t] == Arriving(l, t)[n[t] - 1]
  }

  ghost predicate AllCame(n: seq<nat>)
    requires |n| == TOPICS
  {
    forall t: Topic :: t != THROTTLE ==> n[t] > 0
  }

  lemma KeptByAlign(queue: seq<Item>, t0: int)
    requires forall i :: 0 <= i < |queue| ==> queue[i].source >= t0
    ensures DropEarlier(queue, t0) == queue
  {
  }

  lemma HoldingAligned(l: Skip, s: State, n: seq<nat>)
    requires l.Valid() && Holding(l, s, n)
    ensures Aligned(s.pending, s.pending[THROTTLE][0].source) == s.pending
    ensures AllQueued(s.pending) <==> AllCame(n)
    ensures forall t: Topic, i :: t != THROTTLE && 0 <= i < |s.pending[t]| ==> s.pending[t][i].source >= PERIOD * l.a
  {
    hide Message, Arriving, DropEarlier;
    var t0 := s.pending[THROTTLE][0].source;
    assert t0 <= PERIOD * l.a;
    forall t: Topic
      ensures t != THROTTLE ==> forall i :: 0 <= i < |s.pending[t]| ==> s.pending[t][i].source >= PERIOD * l.a
      ensures Aligned(s.pending, t0)[t] == s.pending[t]
      ensures t != THROTTLE ==> (s.pending[t] != [] <==> n[t] > 0)
    {
      if t != THROTTLE {
        assert HoldingTopic(l, s, n, t);
        ArrivingRises(l, t);
        forall i | 0 <= i < |s.pending[t]|
          ensures s.pending[t][i].source >= PERIOD * l.a
        {
          MessageIs(t, Arriving(l, t)[i]);
        }
        KeptByAlign(s.pending[t], t0);
      }
    }
  }

  lemma HoldingSame(l: Skip, s: State, r: State, n: seq<nat>, t: Topic)
    requires |n| == TOPICS && WellFormed(s) && WellFormed(r) && HoldingTopic(l, s, n, t)
    requires r.pending[t] == s.pending[t] && (t in r.last <==> t in s.last) && (t in s.last ==> r.last[t] == s.last[t])
    ensures HoldingTopic(l, r, n, t)
  {
    hide Messages, Arriving;
  }

  /** Learning hands out nothing: throttles before burst a are given up for want of
      messages, and burst a itself may not have ended. */
  lemma {:induction false} LearnHolds(l: Skip, s: State, n: seq<nat>)
    requires l.Valid() && Holding(l, s, n)
    ensures Learn(s).out == [] && Holding(l, Learn(s).state, n)
    ensures AllCame(n) ==> |Learn(s).state.pending[THROTTLE]| == 1
    decreases |s.pending[THROTTLE]|
  {
    hide LearnBurst, Learn, Aligned, Message, Arriving, HeadOffsets;
    HoldingAligned(l, s, n);
    LearnTurn(s);
    assert s.(pending := s.pending) == s;
    var queue := s.pending[THROTTLE];
    if AllQueued(s.pending) && Closed(s.pending) {
      assert s.pending[LIDAR][0].source >= PERIOD * l.a >= queue[1].source;
      var next := GivenUp(s);
      forall t: Topic | t != THROTTLE
        ensures HoldingTopic(l, next, n, t)
      {
        HoldingSame(l, s, next, n, t);
      }
      LearnHolds(l, next, n);
    }
  }

  /** One more message of a topic waits. */
  lemma HoldingQueued(l: Skip, s: State, n: seq<nat>, t: Topic)
    requires l.Valid() && Holding(l, s, n) && t != THROTTLE && n[t] < |Arriving(l, t)|
    ensures var k := Arriving(l, t)[n[t]];
      Fresh(s, t, Message(t, k)) == s && Holding(l, Queued(Noted(s, t, k), t, Message(t, k)), n[t := n[t] + 1])
  {
    hide Message, Arriving, ThrottlesUpTo;
    var k := Arriving(l, t)[n[t]];
    var it, next := Message(t, k), n[t := n[t] + 1];
    assert HoldingTopic(l, s, n, t);
    ArrivingRises(l, t);
    MessageIs(t, k);
    var queued := Queued(Noted(s, t, k), t, it);
    assert queued.pending[t] == Messages(l, t)[..next[t]];
    forall u: Topic | u != THROTTLE
      ensures HoldingTopic(l, queued, next, u)
    {
      assert HoldingTopic(l, s, n, u);
      if u != t {
        HoldingSame(l, s, queued, n, u);
        assert next[u] == n[u];
      }
    }
  }

  lemma HoldNext(l: Skip, s: State, n: seq<nat>, t: Topic)
    requires l.Valid() && Holding(l, s, n) && t != THROTTLE && n[t] < |Arriving(l, t)|
    ensures var r, next := Offer(s, t, Message(t, Arriving(l, t)[n[t]])), n[t := n[t] + 1];
      && r.out == [] && Holding(l, r.state, next)
      && (AllCame(next) ==> |r.state.pending[THROTTLE]| == 1)
  {
    hide Learn, Message, Arriving, HoldingTopic, ThrottlesUpTo, AllCame;
    var k := Arriving(l, t)[n[t]];
    MessageIs(t, k);
    HoldingQueued(l, s, n, t);
    LearnHolds(l, Queued(Noted(s, t, k), t, Message(t, k)), n[t := n[t] + 1]);
  }

  /** All the messages of a topic, and of the topics from t on. */
  function Deliveries(l: Skip, t: Topic): (r: seq<(Topic, nat)>)
    ensures |r| == |Arriving(l, t)| && forall i :: 0 <= i < |r| ==> r[i] == (t, Arriving(l, t)[i])
  {
    seq(|Arriving(l, t)|, i requires 0 <= i < |Arriving(l, t)| => (t, Arriving(l, t)[i]))
  }

  function OthersFrom(l: Skip, t: nat): seq<(Topic, nat)>
    requires 1 <= t <= TOPICS
    decreases TOPICS - t
  {
    if t == TOPICS then [] else Deliveries(l, t) + OthersFrom(l, t + 1)
  }

  /** The counts when the topics before t have come, and i messages of t. */
  function Counts(l: Skip, t: nat, i: nat): (n: seq<nat>)
    ensures |n| == TOPICS
  {
    seq(TOPICS, u requires 0 <= u < TOPICS =>
      if u == THROTTLE then 0 else if u < t then |Arriving(l, u)| else if u == t then i else 0)
  }

  lemma CountsNext(l: Skip, t: Topic, i: nat)
    requires t != THROTTLE
    ensures Counts(l, t, i)[t := i + 1] == Counts(l, t, i + 1)
    ensures Counts(l, t, |Arriving(l, t)|) == Counts(l, t + 1, 0)
    ensures l.Valid() && t == 12 && i > 0 ==> AllCame(Counts(l, t, i))
  {
    hide Arriving;
    if l.Valid() {
      forall u: Topic
        ensures |Arriving(l, u)| >= 2
      {
        ArrivingRises(l, u);
      }
    }
  }

  lemma {:induction false} Load(l: Skip, s: State, t: nat, i: nat, rest: seq<(Topic, nat)>) returns (after: State)
    requires l.Valid() && 1 <= t <= TOPICS && Holding(l, s, Counts(l, t, i))
    requires if t == TOPICS then i == 0 else i <= |Arriving(l, t)|
    requires t == TOPICS || (t == 12 && i > 0) ==> |s.pending[THROTTLE]| == 1
    ensures Holding(l, after, Counts(l, TOPICS, 0)) && |after.pending[THROTTLE]| == 1
    ensures var deliveries := if t == TOPICS then [] else Deliveries(l, t)[i..] + OthersFrom(l, t + 1);
      Run(s, Offers(Steady(), deliveries + rest)).out == Run(after, Offers(Steady(), rest)).out
    decreases TOPICS - t, if t == TOPICS then 0 else |Arriving(l, t)| - i
  {
    hide Offer, Offers, Run, Message, Arriving, Counts, HoldingTopic, ThrottlesUpTo;
    if t == TOPICS {
      assert [] + rest == rest;
      after := s;
    } else {
      var u: Topic := t;
      CountsNext(l, u, i);
      ArrivingRises(l, u);
      if i == |Arriving(l, u)| {
        NoneLeft(l, u, rest);
        after := Load(l, s, t + 1, 0, rest);
      } else {
        var k := Arriving(l, u)[i];
        var tail := Deliveries(l, u)[i + 1..] + OthersFrom(l, t + 1) + rest;
        OneLeft(l, u, i, rest);
        RunOne(s, (u, k), tail);
        CountAt(l, u, i);
        HoldNext(l, s, Counts(l, t, i), u);
        CountsNext(l, u, i + 1);
        after := Load(l, Offer(s, u, Message(u, k)).state, t, i + 1, rest);
      }
    }
  }

  lemma CountAt(l: Skip, t: Topic, i: nat)
    requires t != THROTTLE
    ensures Counts(l, t, i)[t] == i
  {
  }

  lemma NoneLeft(l: Skip, t: Topic, rest: seq<(Topic, nat)>)
    requires t != THROTTLE
    ensures Deliveries(l, t)[|Arriving(l, t)|..] + OthersFrom(l, t + 1) + rest ==
      (if t + 1 == TOPICS then [] else Deliveries(l, t + 1)[0..] + OthersFrom(l, t + 2)) + rest
  {
    hide Arriving;
    assert Deliveries(l, t)[|Arriving(l, t)|..] == [];
  }

  lemma OneLeft(l: Skip, t: Topic, i: nat, rest: seq<(Topic, nat)>)
    requires t != THROTTLE && i < |Arriving(l, t)|
    ensures Deliveries(l, t)[i..] + OthersFrom(l, t + 1) + rest ==
      [(t, Arriving(l, t)[i])] + (Deliveries(l, t)[i + 1..] + OthersFrom(l, t + 1) + rest)
  {
    hide Arriving;
  }

  // --- the throttle that skipped

  function HeadsAt(k: nat): (r: Parts)
    ensures Complete(r)
  {
    map t: Topic | 0 <= t < TOPICS :: Message(t, k + First(t))
  }

  lemma HeadFacts(k: nat, t: Topic)
    ensures var it := HeadsAt(k)[t];
      PERIOD * k <= it.source <= PERIOD * k + PERIOD && (t != STEERING ==> it.header == PERIOD * k)
  {
  }

  lemma HeadsClose(k: nat)
    ensures !SourcesApart(HeadsAt(k)) && !HeadersApart(HeadsAt(k))
  {
    hide HeadsAt;
    forall t: Topic
      ensures PERIOD * k <= HeadsAt(k)[t].source <= PERIOD * k + PERIOD
      ensures t != STEERING ==> HeadsAt(k)[t].header == PERIOD * k
    {
      HeadFacts(k, t);
    }
  }

  /** Burst k of every topic with steering's burst k + 1 passes every check. */
  lemma MixedBuilds(k: nat)
    ensures Build(HeadsAt(k)) == Whole(FrameOf(HeadsAt(k)))
  {
    hide SourcesApart, HeadersApart, FrameOf;
    HeadsClose(k);
  }

  /** The wrong offsets either burst shows: steering's one too many. */
  function Wrong(): (r: Offsets)
    ensures |r| == TOPICS
  {
    seq(TOPICS, u => if u == STEERING then 1 else 0)
  }

  /** Every queue is headed by burst k's message, steering's by the next one's. */
  ghost predicate HeadedBy(pending: seq<seq<Item>>, k: nat) {
    |pending| == TOPICS && forall t: Topic :: pending[t] != [] && pending[t][0] == Message(t, k + First(t))
  }

  lemma HeadsShow(pending: seq<seq<Item>>, k: nat)
    requires HeadedBy(pending, k)
    ensures AllQueued(pending) && HeadOffsets(pending) == Wrong() && Heads(pending) == HeadsAt(k)
    ensures pending[LIDAR][0].sequence == k
  {
    hide Message;
    forall t: Topic
      ensures pending[t] != [] && pending[t][0] == Message(t, k + First(t))
      ensures Message(t, k + First(t)).sequence == k + First(t)
    {
      MessageIs(t, k + First(t));
    }
  }

  /** The queues with all the other topics' messages, and these throttles. */
  function Queues(l: Skip, throttles: seq<Item>): (r: seq<seq<Item>>)
    ensures |r| == TOPICS
  {
    seq(TOPICS, t requires 0 <= t < TOPICS => if t == THROTTLE then throttles else Messages(l, t))
  }

  lemma HoldingQueues(l: Skip, s: State)
    requires l.Valid() && Holding(l, s, Counts(l, TOPICS, 0)) && |s.pending[THROTTLE]| == 1
    ensures s.pending == Queues(l, [Message(THROTTLE, l.a)])
  {
    hide Message, Arriving, Messages;
    forall t: Topic
      ensures s.pending[t] == Queues(l, [Message(THROTTLE, l.a)])[t]
    {
      if t != THROTTLE {
        assert HoldingTopic(l, s, Counts(l, TOPICS, 0), t);
        AllMessages(l, t);
      }
    }
  }

  lemma AllMessages(l: Skip, t: Topic)
    requires t != THROTTLE
    ensures Messages(l, t)[..Counts(l, TOPICS, 0)[t]] == Messages(l, t)
  {
    hide Arriving, Message;
  }

  lemma TopicHead(l: Skip, t: Topic)
    requires l.Valid() && t != THROTTLE
    ensures |Messages(l, t)| >= 2 && Messages(l, t)[0] == Message(t, l.a + First(t))
    ensures Messages(l, t)[0].source < PERIOD * l.b
  {
    hide Message, Arriving;
    ArrivingRises(l, t);
    MessageIs(t, l.a + First(t));
  }

  /** Between the throttles all else arrived, so burst a is taken to run up to b. */
  lemma FirstBurst(l: Skip)
    requires l.Valid()
    ensures var pending := Queues(l, [Message(THROTTLE, l.a), Message(THROTTLE, l.b)]);
      && HeadedBy(pending, l.a) && Aligned(pending, PERIOD * l.a) == pending && Closed(pending)
      && AllQueued(pending) && !Missed(pending)
  {
    hide Message, Messages, DropEarlier;
    var pending := Queues(l, [Message(THROTTLE, l.a), Message(THROTTLE, l.b)]);
    MessageIs(THROTTLE, l.b);
    forall t: Topic
      ensures pending[t] != [] && pending[t][0] == Message(t, l.a + First(t))
      ensures t != THROTTLE ==> var head: Item := pending[t][0]; head.source < PERIOD * l.b
      ensures Aligned(pending, PERIOD * l.a)[t] == pending[t]
    {
      if t != THROTTLE {
        TopicHead(l, t);
        TopicAligned(l, t);
      }
    }
  }

  /** Behind it burst b is next, once what is left of the bursts between is gone. */
  lemma SecondBurst(l: Skip)
    requires l.Valid()
    ensures var pending := Queues(l, [Message(THROTTLE, l.a), Message(THROTTLE, l.b)]);
      && AllQueued(pending) && Tails(pending)[THROTTLE] == [Message(THROTTLE, l.b)]
      && HeadedBy(Aligned(Tails(pending), PERIOD * l.b), l.b)
      && Aligned(Tails(pending), PERIOD * l.b)[THROTTLE] == [Message(THROTTLE, l.b)]
  {
    hide Message, Messages, DropEarlier;
    var pending := Queues(l, [Message(THROTTLE, l.a), Message(THROTTLE, l.b)]);
    forall t: Topic
      ensures pending[t] != []
      ensures t != THROTTLE ==>
        var tail := DropEarlier(pending[t][1..], PERIOD * l.b); tail != [] && tail[0] == Message(t, l.b + First(t))
    {
      if t != THROTTLE {
        TopicTail(l, t);
      }
    }
    assert pending[THROTTLE][1..] == [Message(THROTTLE, l.b)];
  }

  lemma TopicAligned(l: Skip, t: Topic)
    requires l.Valid() && t != THROTTLE
    ensures DropEarlier(Messages(l, t), PERIOD * l.a) == Messages(l, t)
  {
    hide Message, Arriving, DropEarlier;
    ArrivingRises(l, t);
    forall i | 0 <= i < |Messages(l, t)|
      ensures Messages(l, t)[i].source >= PERIOD * l.a
    {
      MessageIs(t, Arriving(l, t)[i]);
    }
    KeptByAlign(Messages(l, t), PERIOD * l.a);
  }

  /** What is left of a topic goes, up to burst b's message. */
  lemma TopicTail(l: Skip, t: Topic)
    requires l.Valid() && t != THROTTLE
    ensures |Messages(l, t)| >= 2
    ensures var tail := DropEarlier(Messages(l, t)[1..], PERIOD * l.b);
      tail != [] && tail[0] == Message(t, l.b + First(t))
  {
    hide Message, Arriving, DropEarlier;
    ArrivingRises(l, t);
    var queue := Messages(l, t)[1..];
    forall i | 0 <= i < |queue|
      ensures i < |queue| - 1 ==> queue[i].source < PERIOD * l.b
      ensures i == |queue| - 1 ==> queue[i] == Message(t, l.b + First(t)) && queue[i].source >= PERIOD * l.b
    {
      MessageIs(t, Arriving(l, t)[i + 1]);
    }
    DropsToLast(queue, PERIOD * l.b);
  }

  lemma {:induction false} DropsToLast(queue: seq<Item>, t0: int)
    requires queue != [] && queue[|queue| - 1].source >= t0
    requires forall i :: 0 <= i < |queue| - 1 ==> queue[i].source < t0
    ensures DropEarlier(queue, t0) == [queue[|queue| - 1]]
    decreases |queue|
  {
    if |queue| > 1 {
      DropsToLast(queue[1..], t0);
    }
  }

  /** The throttle of burst b ends burst a: the wrong offsets are learnt from it, then
      confirmed by burst b itself. */
  lemma SkipTeaches(l: Skip, s: State) returns (out: seq<Emission>)
    requires l.Valid() && Holding(l, s, Counts(l, TOPICS, 0)) && |s.pending[THROTTLE]| == 1
    ensures Offer(s, THROTTLE, Message(THROTTLE, l.b)).out == [Emission(l.b, FrameOf(HeadsAt(l.b)))] + out
  {
    hide Build, Learn, LearnBurst, Aligned, HeadOffsets, Heads, Message, FrameOf, Drain, Sync, Tails, HeadedBy, Counts,
      HoldingTopic, Messages, Missed;
    var a, b := Message(THROTTLE, l.a), Message(THROTTLE, l.b);
    MessageIs(THROTTLE, l.a);
    MessageIs(THROTTLE, l.b);
    HoldingQueues(l, s);
    var s1 := Queued(Noted(s, THROTTLE, l.b), THROTTLE, b);
    QueuesNext(l, a, b);
    assert [a] + [b] == [a, b];
    FirstBurst(l);
    SecondBurst(l);
    assert s1.pending == Queues(l, [a, b]);
    HeadsShow(s1.pending, l.a);
    LearnTurn(s1);
    assert s1.(pending := s1.pending) == s1;
    LearnBurstTurn(s1);
    MixedBuilds(l.a);
    var s2 := Taught(s1, Build(Heads(s1.pending))).(candidate := Some(Wrong()));
    var rest := Aligned(s2.pending, PERIOD * l.b);
    HeadsShow(rest, l.b);
    LearnTurn(s2);
    var s3 := s2.(pending := rest);
    LearnBurstTurn(s3);
    MixedBuilds(l.b);
    out := Drain(Sync(Taught(s3, Build(Heads(s3.pending))), Wrong(), l.b, Build(Heads(s3.pending)))).out;
  }

  lemma QueuesNext(l: Skip, a: Item, b: Item)
    ensures Queues(l, [a])[THROTTLE] == [a]
    ensures Queues(l, [a])[THROTTLE := [a, b]] == Queues(l, [a, b])
  {
    hide Messages;
    var next := Queues(l, [a])[THROTTLE := [a, b]];
    assert forall t: nat :: t < TOPICS ==> next[t] == Queues(l, [a, b])[t];
  }

  lemma SteeringOf(parts: Parts)
    requires Complete(parts)
    ensures FrameOf(parts).values[STEERING] == parts[STEERING].value
  {
  }

  /** The frame handed out is burst k with the next burst's steering. */
  lemma NotOneBurst(k: nat)
    ensures !OneBurst(Steady(), Emission(k, FrameOf(HeadsAt(k))))
  {
    hide FrameOf;
    assert Steady().msg(STEERING, k).value != HeadsAt(k)[STEERING].value;
    SteeringOf(HeadsAt(k));
  }

  // --- the whole run

  /** The other topics come between the two throttles, all else is throttle. */
  function SkipRun(ts: seq<nat>, i: nat, between: seq<nat>): seq<(Topic, nat)>
    requires i + 1 < |ts|
  {
    Throttles(ts[..i + 1]) + (OthersFrom(Skip(ts[i], ts[i + 1], between), 1) + Throttles(ts[i + 1..]))
  }

  lemma LoneHolds(l: Skip, s: State)
    requires Lone(s, Some(l.a))
    ensures Holding(l, s, Counts(l, 1, 0))
  {
    hide Arriving, Message;
    forall t: Topic | t != THROTTLE
      ensures HoldingTopic(l, s, Counts(l, 1, 0), t)
    {
      assert Counts(l, 1, 0)[t] == 0;
    }
  }

  /** A burst skipped among the throttles, at whatever place, mixes bursts in some run:
      from the start, and with every other topic delivered in order. */
  lemma SkipMixes(ts: seq<nat>, i: nat, between: seq<nat>)
    requires i + 1 < |ts| && Skip(ts[i], ts[i + 1], between).Valid()
    ensures !AllOneBurst(Steady(), Run(Initial(), Offers(Steady(), SkipRun(ts, i, between))).out)
  {
    hide Lone, Holding, Offer, Offers, Run, Message, OneBurst, FrameOf, Arriving, HeadsAt, Counts, Steady;
    var l := Skip(ts[i], ts[i + 1], between);
    var last := Throttles(ts[i + 1..]);
    InitialLone();
    var s := LoneRun(Initial(), None, ts[..i + 1], OthersFrom(l, 1) + last);
    LoneHolds(l, s);
    assert Deliveries(l, 1)[0..] == Deliveries(l, 1);
    var loaded := Load(l, s, 1, 0, last);
    HoldingFormed(l, loaded, Counts(l, TOPICS, 0));
    assert last == [(THROTTLE, l.b)] + Throttles(ts[i + 2..]);
    RunOne(loaded, (THROTTLE, l.b), Throttles(ts[i + 2..]));
    var more := SkipTeaches(l, loaded);
    NotOneBurst(l.b);
    var out := Run(Initial(), Offers(Steady(), SkipRun(ts, i, between))).out;
    assert out[0] == Emission(l.b, FrameOf(HeadsAt(l.b)));
  }

  lemma InitialLone()
    ensures Lone(Initial(), None)
  {
  }

  lemma HoldingFormed(l: Skip, s: State, n: seq<nat>)
    requires Holding(l, s, n)
    ensures WellFormed(s)
  {
  }

  /** So throttle's burst 1 lost alone, and steering's on either side of it. */
  lemma ThrottleLossMixes()
    ensures Publishes(Steady()) && SendsTyped(Steady()) && Faithful(Steady(), Initial())
    ensures !AllOneBurst(Steady(), Run(Initial(), Offers(Steady(), SkipRun([0, 2], 0, [1]))).out)
  {
    hide Publishes, Faithful, AllOneBurst, SkipRun;
    SteadyPublishes();
    StartsFaithful(Steady());
    SkipMixes([0, 2], 0, [1]);
  }
}
