/**
 Which throttle deliveries keep every run whole: exactly those that never skip a
 burst forward, whatever the publisher and whatever the other topics lose.
 */
module DevkitThrottleHistory {
  import opened Options
  import opened DevkitSpec
  import opened DevkitPairing
  import opened DevkitThrottleLoss
  import Sets

  /** The throttle bursts of a run, in the order they arrive. */
  function ThrottleBursts(deliveries: seq<(Topic, nat)>): seq<nat> {
    if deliveries == [] then []
    else if deliveries[0].0 == THROTTLE then [deliveries[0].1] + ThrottleBursts(deliveries[1..])
    else ThrottleBursts(deliveries[1..])
  }

  /** Each throttle is the next burst's, or goes back and restarts the assembler. */
  ghost predicate NoSkip(ts: seq<nat>) {
    forall i, j :: 0 <= i && j == i + 1 && j < |ts| ==> ts[j] <= ts[i] + 1
  }

  /** Every run with these throttles, of a publisher whose values can be unpacked, hands
      out whole bursts only. */
  ghost predicate AlwaysWhole(ts: seq<nat>) {
    forall p: Publisher, deliveries ::
      |p.base| == TOPICS && Publishes(p) && SendsTyped(p) && ThrottleBursts(deliveries) == ts ==>
        AllOneBurst(p, Run(Initial(), Offers(p, deliveries)).out)
  }

  // --- no skip is enough

  /** What waits on throttle ends with the last one delivered. */
  ghost predicate Tail(p: Publisher, s: State, prev: Option<nat>)
    requires |p.base| == TOPICS
  {
    && WellFormed(s)
    && (s.synced ==> s.pending[THROTTLE] == [])
    && (s.pending[THROTTLE] != [] ==>
          && prev.Some? && s.pending[THROTTLE][|s.pending[THROTTLE]| - 1].sequence == p.base[THROTTLE] + prev.value
          && THROTTLE in s.last && s.last[THROTTLE] == p.base[THROTTLE] + prev.value)
  }

  lemma {:induction false} DrainTail(s: State)
    requires WellFormed(s) && s.pending[THROTTLE] == []
    ensures Drain(s).state.pending[THROTTLE] == []
    decreases s.frames.Keys
  {
    hide Build;
    if s.synced && s.frames != map[] {
      var fid := Sets.Least(s.frames.Keys);
      DrainTurn(s, fid);
      if fid in s.dead {
        DrainTail(s.(frames := s.frames - {fid}));
      } else if |s.frames[fid]| >= TOPICS {
        FullParts(s.frames[fid]);
        match Build(s.frames[fid])
        case Stamps => DrainTail(Taken(s, fid, true));
        case Data =>
        case Whole(frame) => DrainTail(Taken(s, fid, false));
      }
    }
  }

  lemma {:induction false} KillRangePending(s: State, offset: int, first: int, sequence: int)
    ensures KillRange(s, offset, first, sequence).pending == s.pending
    decreases sequence - first
  {
    if first < sequence {
      KillRangePending(Kill(s, first - offset), offset, first + 1, sequence);
    }
  }

  /** Learning takes throttles from the front, or ends with none waiting. */
  ghost predicate Shrunk(s: State, r: State)
    requires WellFormed(s) && WellFormed(r)
  {
    r.pending[THROTTLE] == [] ||
    (s.pending[THROTTLE] != [] && !r.synced && r.last == s.last &&
     r.pending[THROTTLE][|r.pending[THROTTLE]| - 1] == s.pending[THROTTLE][|s.pending[THROTTLE]| - 1])
  }

  lemma {:induction false} LearnTail(s: State)
    requires WellFormed(s) && !s.synced
    ensures Shrunk(s, Learn(s).state)
    decreases |s.pending[THROTTLE]|, 1
  {
    hide LearnBurst, AllQueued, Missed, HeadOffsets, Learn;
    LearnTurn(s);
    if s.pending[THROTTLE] != [] {
      var s1 := s.(pending := Aligned(s.pending, s.pending[THROTTLE][0].source));
      if AllQueued(s1.pending) {
        QueuedSome(s1.pending);
        if Closed(s1.pending) && Missed(s1.pending) {
          LearnTail(GivenUp(s1));
        } else if Closed(s1.pending) || s1.candidate == Some(HeadOffsets(s1.pending)) {
          LearnBurstTail(s1);
        }
      }
    }
  }

  lemma QueuedSome(pending: seq<seq<Item>>)
    requires |pending| == TOPICS && AllQueued(pending)
    ensures pending[THROTTLE] != []
  {
  }

  lemma {:induction false} LearnBurstTail(s: State)
    requires WellFormed(s) && !s.synced && AllQueued(s.pending)
    ensures Shrunk(s, LearnBurst(s).state)
    decreases |s.pending[THROTTLE]|, 0
  {
    hide LearnBurst, HeadOffsets, Build, Heads, PlaceQueues;
    var offsets := HeadOffsets(s.pending);
    var base := s.pending[LIDAR][0].sequence;
    var built := Build(Heads(s.pending));
    LearnBurstTurn(s);
    if built == Data {
      LearnTail(Unclean(s));
    } else if s.candidate != Some(offsets) {
      LearnTail(Taught(s, built).(candidate := Some(offsets)));
    } else {
      DrainTail(Sync(Taught(s, built), offsets, base, built));
    }
  }

  /** One message keeps it, throttle's own moving the end on. */
  lemma OfferTail(p: Publisher, s: State, prev: Option<nat>, topic: Topic, k: nat)
    requires |p.base| == TOPICS && Publishes(p) && Tail(p, s, prev)
    ensures Tail(p, Offer(s, topic, p.msg(topic, k)).state, if topic == THROTTLE then Some(k) else prev)
  {
    hide Learn, Drain, KillRange;
    var it := p.msg(topic, k);
    var s0 := Fresh(s, topic, it);
    var s1 := Noted(s0, topic, it.sequence);
    if !s1.synced {
      var queued := Queued(s1, topic, it);
      assert Tail(p, queued, if topic == THROTTLE then Some(k) else prev);
      LearnTail(queued);
    } else {
      OfferSyncedTail(p, s0, s1, topic, it);
    }
  }

  lemma OfferSyncedTail(p: Publisher, s0: State, s1: State, topic: Topic, it: Item)
    requires WellFormed(s0) && s0.synced && s0.pending[THROTTLE] == [] && s1 == Noted(s0, topic, it.sequence)
    ensures OfferNext(s0, topic, it).state.pending[THROTTLE] == []
  {
    hide Drain, KillRange, Place;
    var s2 := s1;
    if topic in s0.last && it.sequence > s0.last[topic] + 1 {
      var first := s0.last[topic] + 1;
      var lost := s1.lost[topic := s1.lost[topic] + (it.sequence - first)];
      KillRangePending(s1.(lost := lost), s1.offsets[topic], first, it.sequence);
      s2 := Lose(s1, topic, first, it.sequence);
    }
    var fid := it.sequence - s2.offsets[topic];
    DrainTail(Seen(s2, fid));
    DrainTail(Placed(Seen(s2, fid), fid, topic, it));
  }

  function After(prev: Option<nat>, ts: seq<nat>): seq<nat> {
    if prev == None then ts else [prev.value] + ts
  }

  lemma {:induction false} NoSkipKept(p: Publisher, s: State, prev: Option<nat>, deliveries: seq<(Topic, nat)>)
    requires |p.base| == TOPICS && Publishes(p) && Tail(p, s, prev) && NoSkip(After(prev, ThrottleBursts(deliveries)))
    ensures ThrottleKept(p, s, deliveries)
    decreases |deliveries|
  {
    hide Offer, Publishes;
    if deliveries != [] {
      var (topic, k) := deliveries[0];
      var rest := ThrottleBursts(deliveries[1..]);
      var next := if topic == THROTTLE then Some(k) else prev;
      FollowsNext(p, s, prev, topic, k, rest);
      OfferTail(p, s, prev, topic, k);
      NoSkipKept(p, Offer(s, topic, p.msg(topic, k)).state, next, deliveries[1..]);
    }
  }

  lemma FollowsNext(p: Publisher, s: State, prev: Option<nat>, topic: Topic, k: nat, rest: seq<nat>)
    requires |p.base| == TOPICS && Publishes(p) && Tail(p, s, prev)
    requires NoSkip(After(prev, if topic == THROTTLE then [k] + rest else rest))
    ensures ThrottleFollows(p, Fresh(s, topic, p.msg(topic, k)), topic, k)
    ensures topic == THROTTLE ==> NoSkip(After(Some(k), rest))
  {
    if topic == THROTTLE {
      var ts := After(prev, [k] + rest);
      if prev.Some? {
        assert ts[0] == prev.value && ts[1] == k;
        assert ts[1..] == [k] + rest;
      }
      assert forall i, j :: 0 <= i && j == i + 1 && j < |[k] + rest| ==> ([k] + rest)[j] <= ([k] + rest)[i] + 1 by {
        SkipOfTail(ts, [k] + rest);
      }
    }
  }

  lemma SkipOfTail(ts: seq<nat>, tail: seq<nat>)
    requires NoSkip(ts) && |tail| <= |ts| && tail == ts[|ts| - |tail|..]
    ensures NoSkip(tail)
  {
    var d := |ts| - |tail|;
    forall i, j | 0 <= i && j == i + 1 && j < |tail|
      ensures tail[j] <= tail[i] + 1
    {
      assert ts[j + d] <= ts[i + d] + 1;
    }
  }

  lemma NoSkipWhole(ts: seq<nat>)
    requires NoSkip(ts)
    ensures forall p: Publisher, deliveries ::
      |p.base| == TOPICS && Publishes(p) && ThrottleBursts(deliveries) == ts ==>
        AllOneBurst(p, Run(Initial(), Offers(p, deliveries)).out)
  {
    hide Publishes, AllOneBurst, Run, Faithful, Tail, ThrottleKept, ThrottleBursts, Offers;
    forall p: Publisher, deliveries | |p.base| == TOPICS && Publishes(p) && ThrottleBursts(deliveries) == ts
      ensures AllOneBurst(p, Run(Initial(), Offers(p, deliveries)).out)
    {
      StartsFaithful(p);
      StartsTail(p);
      NoSkipKept(p, Initial(), None, deliveries);
      NoCrossFramePairing(p, Initial(), deliveries);
    }
  }

  lemma StartsTail(p: Publisher)
    requires |p.base| == TOPICS
    ensures Tail(p, Initial(), None)
  {
  }

  // --- and nothing less

  lemma {:induction false} BurstsJoin(a: seq<(Topic, nat)>, b: seq<(Topic, nat)>)
    ensures ThrottleBursts(a + b) == ThrottleBursts(a) + ThrottleBursts(b)
    decreases |a|
  {
    if a == [] {
      assert a + b == b;
    } else {
      assert (a + b)[1..] == a[1..] + b;
      BurstsJoin(a[1..], b);
    }
  }

  lemma {:induction false} BurstsOfThrottles(ts: seq<nat>)
    ensures ThrottleBursts(Throttles(ts)) == ts
    decreases |ts|
  {
    if ts != [] {
      assert Throttles(ts)[1..] == Throttles(ts[1..]);
      BurstsOfThrottles(ts[1..]);
    }
  }

  lemma {:induction false} BurstsOfOthers(deliveries: seq<(Topic, nat)>)
    requires forall i :: 0 <= i < |deliveries| ==> deliveries[i].0 != THROTTLE
    ensures ThrottleBursts(deliveries) == []
    decreases |deliveries|
  {
    if deliveries != [] {
      BurstsOfOthers(deliveries[1..]);
    }
  }

  lemma {:induction false} OthersAreOthers(l: Skip, t: nat)
    requires 1 <= t <= TOPICS
    ensures forall i :: 0 <= i < |OthersFrom(l, t)| ==> OthersFrom(l, t)[i].0 != THROTTLE
    decreases TOPICS - t
  {
    hide Arriving;
    if t < TOPICS {
      OthersAreOthers(l, t + 1);
    }
  }

  lemma SkipRunBursts(ts: seq<nat>, i: nat, between: seq<nat>)
    requires i + 1 < |ts|
    ensures ThrottleBursts(SkipRun(ts, i, between)) == ts
  {
    hide ThrottleBursts, Throttles, OthersFrom;
    var others := OthersFrom(Skip(ts[i], ts[i + 1], between), 1);
    OthersAreOthers(Skip(ts[i], ts[i + 1], between), 1);
    BurstsOfOthers(others);
    BurstsOfThrottles(ts[..i + 1]);
    BurstsOfThrottles(ts[i + 1..]);
    BurstsJoin(others, Throttles(ts[i + 1..]));
    BurstsJoin(Throttles(ts[..i + 1]), others + Throttles(ts[i + 1..]));
    assert ts[..i + 1] + ([] + ts[i + 1..]) == ts;
  }

  /** For every history of throttle deliveries: all runs with it, of every publisher
      and whatever the other topics deliver, hand out whole bursts only, if and only if
      it never skips a burst forward. */
  lemma HistoryExact(ts: seq<nat>)
    ensures AlwaysWhole(ts) <==> NoSkip(ts)
  {
    hide Publishes, SendsTyped, AllOneBurst, Run, ThrottleBursts, Offers, SkipRun, Steady;
    if NoSkip(ts) {
      NoSkipWhole(ts);
    } else {
      var i, j :| 0 <= i && j == i + 1 && j < |ts| && ts[j] > ts[i] + 1;
      SkipRunBursts(ts, i, []);
      SteadyPublishes();
      SkipMixes(ts, i, []);
      assert !AllOneBurst(Steady(), Run(Initial(), Offers(Steady(), SkipRun(ts, i, []))).out);
    }
  }

  /** Two throttles keep every run whole exactly when they are of neighbouring bursts. */
  lemma PairExact(a: nat, b: nat)
    requires a < b
    ensures AlwaysWhole([a, b]) <==> b == a + 1
  {
    hide AlwaysWhole;
    HistoryExact([a, b]);
    assert [a, b][0] == a && [a, b][1] == b;
  }
}
