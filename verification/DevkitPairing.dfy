/**
 Nothing is ever paired across frames: against a publisher that sends burst after
 burst, every frame the assembler hands out is one burst, whole.
 */
module DevkitPairing {
  import opened Options
  import opened Sets
  import opened DevkitSpec

  /** Burst k carries `msg(t, k)` on topic t, under sequence `base[t] + k`. */
  datatype Publisher = Publisher(base: seq<int>, msg: (Topic, nat) -> Item)

  /** Source stamps order the bursts: the throttle message opens its burst, and
      every message of an earlier burst precedes it. */
  ghost predicate Publishes(p: Publisher) {
    && |p.base| == TOPICS
    && (forall t: Topic, k: nat :: p.msg(t, k).sequence == p.base[t] + k)
    && (forall t: Topic, k: nat :: p.msg(THROTTLE, k).source <= p.msg(t, k).source)
    && (forall t: Topic, j: nat, k: nat :: j < k ==> p.msg(t, j).source < p.msg(THROTTLE, k).source)
  }

  /** Every message carries a value of its topic's shape. */
  ghost predicate SendsTyped(p: Publisher) {
    forall t: Topic, k: nat :: Typed(t, p.msg(t, k).value)
  }

  function Burst(p: Publisher, k: nat): (r: Parts)
    ensures Complete(r)
  {
    map t: Topic | 0 <= t < TOPICS :: p.msg(t, k)
  }

  function TrueOffsets(p: Publisher): (r: Offsets)
    requires |p.base| == TOPICS
    ensures |r| == TOPICS
  {
    seq(TOPICS, t requires 0 <= t < TOPICS => p.base[t] - p.base[LIDAR])
  }

  ghost predicate Sent(p: Publisher, t: Topic, it: Item)
    requires |p.base| == TOPICS
  {
    it.sequence >= p.base[t] && it == p.msg(t, it.sequence - p.base[t])
  }

  ghost predicate QueueSent(p: Publisher, t: Topic, queue: seq<Item>)
    requires |p.base| == TOPICS
  {
    forall i :: 0 <= i < |queue| ==> Sent(p, t, queue[i])
  }

  ghost predicate Contiguous(queue: seq<Item>) {
    forall i, j :: 0 <= i < j < |queue| ==> queue[j].sequence - queue[i].sequence == j - i
  }

  ghost predicate QueuesSent(p: Publisher, pending: seq<seq<Item>>)
    requires |p.base| == TOPICS && |pending| == TOPICS
  {
    && (forall t: nat :: t < TOPICS ==> QueueSent(p, t, pending[t]))
    && Contiguous(pending[THROTTLE])
  }

  /** All the parts buffered under an id are messages of that id's burst. */
  ghost predicate PartsOf(p: Publisher, f: int, parts: Parts)
    requires |p.base| == TOPICS
  {
    f >= p.base[LIDAR] && forall t: Topic :: t in parts ==> parts[t] == p.msg(t, f - p.base[LIDAR])
  }

  ghost predicate FramesOf(p: Publisher, frames: Frames)
    requires |p.base| == TOPICS
  {
    forall f :: f in frames ==> PartsOf(p, f, frames[f])
  }

  ghost predicate Faithful(p: Publisher, s: State)
    requires |p.base| == TOPICS
  {
    && WellFormed(s)
    && QueuesSent(p, s.pending)
    && (s.candidate.Some? ==> s.candidate.value == TrueOffsets(p))
    && (s.synced ==> s.offsets == TrueOffsets(p))
    && FramesOf(p, s.frames)
  }

  /** Slot by slot the frame holds what its burst sent on each topic, and the stamp
      its lidar message carried. */
  ghost predicate OneBurst(p: Publisher, e: Emission)
    requires |p.base| == TOPICS
  {
    && e.id >= p.base[LIDAR] && |e.frame.values| == TOPICS
    && var k := e.id - p.base[LIDAR];
       && (forall t: Topic :: e.frame.values[t] == p.msg(t, k).value)
       && e.frame.stamp == p.msg(LIDAR, k).header
  }

  ghost predicate AllOneBurst(p: Publisher, out: seq<Emission>)
    requires |p.base| == TOPICS
  {
    forall i :: 0 <= i < |out| ==> OneBurst(p, out[i])
  }

  /** What the sanity checks ask of a burst: source stamps, and the header stamps of
      the five topics that have one, within 75 ms; positions that agree. */
  ghost predicate Sane(p: Publisher, k: nat) {
    && (forall t: Topic, u: Topic :: p.msg(t, k).source - p.msg(u, k).source <= 75_000_000)
    && (forall t: Topic, u: Topic :: t in HEADERED && u in HEADERED ==>
          p.msg(t, k).header - p.msg(u, k).header <= 75_000_000)
    && Agree(p.msg(IPS, k).value, p.msg(ODOM, k).value)
  }

  const HEADERED: set<Topic> := {LIDAR, IMU, LEFT_ENCODER, RIGHT_ENCODER, ODOM}

  ghost predicate Agree(a: Value, b: Value) {
    if a.Ips? || a.Odom? then (b.Ips? || b.Odom?) && a.position == b.position else !b.Ips? && !b.Odom?
  }

  ghost predicate AllSane(p: Publisher, out: seq<Emission>)
    requires |p.base| == TOPICS
  {
    forall i :: 0 <= i < |out| ==> out[i].id >= p.base[LIDAR] && Sane(p, out[i].id - p.base[LIDAR])
  }

  /** The emitted frame is what its burst builds. */
  ghost predicate Handed(p: Publisher, e: Emission)
    requires |p.base| == TOPICS
  {
    e.id >= p.base[LIDAR] && Build(Burst(p, e.id - p.base[LIDAR])) == Whole(e.frame)
  }

  ghost predicate AllHanded(p: Publisher, out: seq<Emission>)
    requires |p.base| == TOPICS
  {
    forall i :: 0 <= i < |out| ==> Handed(p, out[i])
  }

  /** A burst is built just when it is sane. */
  lemma BuildExact(p: Publisher, k: nat)
    ensures Build(Burst(p, k)).Whole? <==> Sane(p, k)
    ensures Sane(p, k) ==> Build(Burst(p, k)) == Whole(FrameOf(Burst(p, k)))
  {
    hide FrameOf, SourcesApart, HeadersApart;
    SourcesExact(p, k);
    HeadersExact(p, k);
    assert Burst(p, k)[IPS] == p.msg(IPS, k) && Burst(p, k)[ODOM] == p.msg(ODOM, k);
  }

  lemma SourcesExact(p: Publisher, k: nat)
    ensures SourcesApart(Burst(p, k)) <==>
      !forall t: Topic, u: Topic :: p.msg(t, k).source - p.msg(u, k).source <= 75_000_000
  {
    if t: Topic, u: Topic :| p.msg(t, k).source - p.msg(u, k).source > 75_000_000 {
      assert Burst(p, k)[t].source - Burst(p, k)[u].source > SKEW_NS;
    }
  }

  lemma HeadersExact(p: Publisher, k: nat)
    ensures HeadersApart(Burst(p, k)) <==>
      !forall t: Topic, u: Topic :: t in HEADERED && u in HEADERED ==>
         p.msg(t, k).header - p.msg(u, k).header <= 75_000_000
  {
    if t: Topic, u: Topic :| t in HEADERED && u in HEADERED && p.msg(t, k).header - p.msg(u, k).header > 75_000_000 {
      assert Burst(p, k)[t].header - Burst(p, k)[u].header > SKEW_NS;
    }
  }

  lemma FrameSlots(p: Publisher, k: nat)
    requires |p.base| == TOPICS
    ensures OneBurst(p, Emission(p.base[LIDAR] + k, FrameOf(Burst(p, k))))
  {
  }

  /** Only what a burst holds can be handed out under its id. */
  lemma HandedExact(p: Publisher, out: seq<Emission>)
    requires |p.base| == TOPICS && AllHanded(p, out)
    ensures AllOneBurst(p, out) && AllSane(p, out)
  {
    hide Build, FrameOf, OneBurst, Sane;
    forall i | 0 <= i < |out|
      ensures OneBurst(p, out[i]) && out[i].id >= p.base[LIDAR] && Sane(p, out[i].id - p.base[LIDAR])
    {
      assert Handed(p, out[i]);
      BuildExact(p, out[i].id - p.base[LIDAR]);
      FrameSlots(p, out[i].id - p.base[LIDAR]);
    }
  }

  // --- draining

  lemma WholeBurst(p: Publisher, f: int, parts: Parts)
    requires |p.base| == TOPICS && PartsOf(p, f, parts) && Complete(parts)
    ensures parts == Burst(p, f - p.base[LIDAR])
  {
  }

  lemma {:induction false} DrainPairs(p: Publisher, s: State)
    requires |p.base| == TOPICS && Faithful(p, s)
    ensures Faithful(p, Drain(s).state) && AllHanded(p, Drain(s).out)
    decreases s.frames.Keys
  {
    hide Build, PartsOf, QueuesSent;
    if s.synced && s.frames != map[] {
      var fid := Least(s.frames.Keys);
      if fid in s.dead {
        DrainPairs(p, s.(frames := s.frames - {fid}));
      } else if |s.frames[fid]| >= TOPICS {
        FullParts(s.frames[fid]);
        WholeBurst(p, fid, s.frames[fid]);
        match Build(s.frames[fid])
        case Stamps => DrainPairs(p, Taken(s, fid, true));
        case Data => ResyncPairs(p, s.(frames := s.frames - {fid}, droppedFrames := s.droppedFrames + 1));
        case Whole(frame) =>
          DrainPairs(p, Taken(s, fid, false));
          EmittedPairs(p, s, fid, frame);
      }
    }
  }

  lemma EmittedPairs(p: Publisher, s: State, fid: int, frame: Frame)
    requires |p.base| == TOPICS && fid in s.frames && PartsOf(p, fid, s.frames[fid])
    requires Complete(s.frames[fid]) && Build(s.frames[fid]) == Whole(frame)
    ensures Handed(p, Emission(fid, frame))
  {
    hide Build;
    WholeBurst(p, fid, s.frames[fid]);
  }

  lemma ResyncPairs(p: Publisher, s: State)
    requires |p.base| == TOPICS && WellFormed(s)
    ensures Faithful(p, Resync(s))
  {
  }

  // --- learning

  /** The heads of the aligned queues are all of the throttle's own burst. */
  ghost predicate HeadsOf(p: Publisher, pending: seq<seq<Item>>, k: nat)
    requires |pending| == TOPICS && AllQueued(pending)
  {
    forall t: nat :: t < TOPICS ==> pending[t][0] == p.msg(t, k)
  }

  lemma {:induction false} AlignedSent(p: Publisher, queue: seq<Item>, t: Topic, t0: int)
    requires |p.base| == TOPICS && QueueSent(p, t, queue)
    ensures var r := DropEarlier(queue, t0); QueueSent(p, t, r) && (r != [] ==> r[0].source >= t0)
    decreases |queue|
  {
    if queue != [] && queue[0].source < t0 {
      AlignedSent(p, queue[1..], t, t0);
    }
  }

  lemma AlignedQueuesSent(p: Publisher, pending: seq<seq<Item>>, t0: int)
    requires |p.base| == TOPICS && |pending| == TOPICS && QueuesSent(p, pending)
    requires pending[THROTTLE] != [] && t0 == pending[THROTTLE][0].source
    ensures QueuesSent(p, Aligned(pending, t0))
    ensures forall t: nat :: t < TOPICS && Aligned(pending, t0)[t] != [] ==> Aligned(pending, t0)[t][0].source >= t0
  {
    forall t: nat | t < TOPICS
      ensures QueueSent(p, t, Aligned(pending, t0)[t])
      ensures Aligned(pending, t0)[t] != [] ==> Aligned(pending, t0)[t][0].source >= t0
    {
      AlignedSent(p, pending[t], t, t0);
    }
  }

  lemma ThrottleRises(p: Publisher)
    requires Publishes(p)
    ensures forall j: nat, k: nat :: j <= k ==> p.msg(THROTTLE, j).source <= p.msg(THROTTLE, k).source
  {
  }

  /** A closed burst no topic missed holds one burst, whole. */
  lemma ClosedHeads(p: Publisher, pending: seq<seq<Item>>) returns (k: nat)
    requires Publishes(p) && |pending| == TOPICS && AllQueued(pending)
    requires forall t: nat :: t < TOPICS ==> QueueSent(p, t, pending[t])
    requires forall t: nat :: t < TOPICS ==> pending[t][0].source >= pending[THROTTLE][0].source
    requires Closed(pending) && !Missed(pending)
    requires pending[THROTTLE][1].sequence == pending[THROTTLE][0].sequence + 1
    ensures HeadsOf(p, pending, k)
  {
    ThrottleRises(p);
    k := pending[THROTTLE][0].sequence - p.base[THROTTLE];
    var second := pending[THROTTLE][1];
    assert second == p.msg(THROTTLE, k + 1);
    forall t: nat | t < TOPICS
      ensures pending[t][0] == p.msg(t, k)
    {
      var j := pending[t][0].sequence - p.base[t];
      assert Sent(p, t, pending[t][0]);
      assert j >= k;
      assert t != THROTTLE ==> pending[t][0].source < second.source;
      assert p.msg(THROTTLE, j).source <= p.msg(t, j).source;
    }
  }

  lemma ContiguousHeads(p: Publisher, pending: seq<seq<Item>>)
    requires |p.base| == TOPICS && |pending| == TOPICS && QueuesSent(p, pending) && Closed(pending)
    ensures forall t: nat :: t < TOPICS ==> QueueSent(p, t, pending[t])
    ensures pending[THROTTLE][1].sequence == pending[THROTTLE][0].sequence + 1
  {
  }

  /** An open burst is trusted only for offsets already known to be true. */
  lemma TrustedHeads(p: Publisher, pending: seq<seq<Item>>) returns (k: nat)
    requires Publishes(p) && |pending| == TOPICS && QueuesSent(p, pending) && AllQueued(pending)
    requires HeadOffsets(pending) == TrueOffsets(p)
    ensures HeadsOf(p, pending, k)
  {
    k := pending[THROTTLE][0].sequence - p.base[THROTTLE];
    forall t: nat | t < TOPICS
      ensures pending[t][0] == p.msg(t, k)
    {
      assert HeadOffsets(pending)[t] == TrueOffsets(p)[t];
      assert HeadOffsets(pending)[THROTTLE] == TrueOffsets(p)[THROTTLE];
      assert Sent(p, t, pending[t][0]);
    }
  }

  lemma HeadsTeach(p: Publisher, pending: seq<seq<Item>>, k: nat)
    requires Publishes(p) && |pending| == TOPICS && AllQueued(pending) && HeadsOf(p, pending, k)
    ensures HeadOffsets(pending) == TrueOffsets(p)
    ensures Heads(pending) == Burst(p, k)
    ensures pending[LIDAR][0].sequence == p.base[LIDAR] + k
  {
    assert pending[LIDAR][0] == p.msg(LIDAR, k);
    forall t: nat | t < TOPICS
      ensures HeadOffsets(pending)[t] == TrueOffsets(p)[t]
    {
      assert pending[t][0] == p.msg(t, k);
    }
  }

  lemma PlacePairs(p: Publisher, frames: Frames, t: Topic, it: Item)
    requires Publishes(p) && FramesOf(p, frames) && Sent(p, t, it)
    ensures FramesOf(p, Place(frames, it.sequence - TrueOffsets(p)[t], t, it))
  {
    var fid := it.sequence - TrueOffsets(p)[t];
    var placed := Place(frames, fid, t, it);
    assert fid in frames ==> PartsOf(p, fid, frames[fid]);
    assert PartsOf(p, fid, placed[fid]);
  }

  lemma {:induction false} PlaceQueuePairs(p: Publisher, frames: Frames, t: Topic, queue: seq<Item>)
    requires Publishes(p) && FramesOf(p, frames) && QueueSent(p, t, queue)
    ensures FramesOf(p, PlaceQueue(frames, t, queue, TrueOffsets(p)[t]))
    decreases |queue|
  {
    if queue != [] {
      PlacePairs(p, frames, t, queue[0]);
      PlaceQueuePairs(p, Place(frames, queue[0].sequence - TrueOffsets(p)[t], t, queue[0]), t, queue[1..]);
    }
  }

  lemma {:induction false} PlaceQueuesPairs(p: Publisher, frames: Frames, pending: seq<seq<Item>>, t: nat)
    requires Publishes(p) && |pending| == TOPICS && t <= TOPICS
    requires FramesOf(p, frames) && forall u: nat :: u < TOPICS ==> QueueSent(p, u, pending[u])
    ensures FramesOf(p, PlaceQueues(frames, pending, TrueOffsets(p), t))
    decreases TOPICS - t
  {
    if t < TOPICS {
      PlaceQueuePairs(p, frames, t, pending[t]);
      PlaceQueuesPairs(p, PlaceQueue(frames, t, pending[t], TrueOffsets(p)[t]), pending, t + 1);
    }
  }

  lemma TailsSent(p: Publisher, pending: seq<seq<Item>>)
    requires |p.base| == TOPICS && |pending| == TOPICS && AllQueued(pending) && QueuesSent(p, pending)
    ensures QueuesSent(p, Tails(pending))
    ensures QueuesSent(p, pending[THROTTLE := pending[THROTTLE][1..]])
  {
    assert forall t: nat :: t < TOPICS ==> QueueSent(p, t, pending[t][1..]);
  }

  lemma SyncPairs(p: Publisher, s: State, base: int, built: Built)
    requires Publishes(p) && Faithful(p, s)
    ensures Faithful(p, Sync(s, TrueOffsets(p), base, built))
  {
    PlaceQueuesPairs(p, s.frames, s.pending, 0);
  }

  lemma {:induction false} LearnHands(p: Publisher, s: State)
    requires |p.base| == TOPICS && Publishes(p) && Faithful(p, s)
    ensures Faithful(p, Learn(s).state) && AllHanded(p, Learn(s).out)
    decreases |s.pending[THROTTLE]|, 1
  {
    hide Publishes, Sync, QueuesSent, FramesOf, LearnBurst, Build, Drain;
    if s.pending[THROTTLE] != [] {
      var s1 := s.(pending := Aligned(s.pending, s.pending[THROTTLE][0].source));
      AlignedQueuesSent(p, s.pending, s.pending[THROTTLE][0].source);
      if AllQueued(s1.pending) {
        if Closed(s1.pending) && Missed(s1.pending) {
          TailsSent(p, s1.pending);
          LearnHands(p, GivenUp(s1));
        } else if Closed(s1.pending) {
          ContiguousHeads(p, s1.pending);
          var k := ClosedHeads(p, s1.pending);
          LearnBurstPairs(p, s1, k);
        } else if s1.candidate == Some(HeadOffsets(s1.pending)) {
          var k := TrustedHeads(p, s1.pending);
          LearnBurstPairs(p, s1, k);
        }
      }
    }
  }

  lemma {:induction false} LearnBurstPairs(p: Publisher, s: State, k: nat)
    requires |p.base| == TOPICS && Publishes(p) && Faithful(p, s) && AllQueued(s.pending) && HeadsOf(p, s.pending, k)
    ensures Faithful(p, LearnBurst(s).state) && AllHanded(p, LearnBurst(s).out)
    decreases |s.pending[THROTTLE]|, 0
  {
    hide Publishes, Sync, QueuesSent, FramesOf, Build, Drain, HeadsOf;
    var built := Build(Heads(s.pending));
    HeadsTeach(p, s.pending, k);
    TailsSent(p, s.pending);
    if built == Data {
      LearnHands(p, Unclean(s));
    } else if s.candidate != Some(HeadOffsets(s.pending)) {
      LearnHands(p, Taught(s, built).(candidate := Some(HeadOffsets(s.pending))));
    } else {
      SyncPairs(p, Taught(s, built), p.base[LIDAR] + k, built);
      DrainPairs(p, Sync(Taught(s, built), TrueOffsets(p), p.base[LIDAR] + k, built));
    }
  }

  // --- one offer, and a run

  /** Throttle is not lost while learning: each new one is the burst after the
      last one queued. */
  ghost predicate ThrottleFollows(p: Publisher, s: State, topic: Topic, k: nat)
    requires |p.base| == TOPICS && WellFormed(s)
  {
    var queue := s.pending[THROTTLE];
    !s.synced && topic == THROTTLE && queue != [] ==>
      p.msg(topic, k).sequence == queue[|queue| - 1].sequence + 1
  }

  lemma QueuedPairs(p: Publisher, s: State, topic: Topic, k: nat)
    requires Publishes(p) && Faithful(p, s) && !s.synced && ThrottleFollows(p, s, topic, k)
    ensures Faithful(p, Queued(Noted(s, topic, p.msg(topic, k).sequence), topic, p.msg(topic, k)))
  {
    hide FramesOf;
    var it := p.msg(topic, k);
    var queue := s.pending[topic] + [it];
    assert Sent(p, topic, it);
    assert QueueSent(p, topic, queue) && QueueSent(p, topic, queue[1..]);
    assert topic == THROTTLE ==> Contiguous(queue) && Contiguous(queue[1..]);
  }

  lemma {:induction false} KillRangePairs(p: Publisher, s: State, offset: int, first: int, sequence: int)
    requires |p.base| == TOPICS && Faithful(p, s)
    ensures var r := KillRange(s, offset, first, sequence);
      Faithful(p, r) && r.synced == s.synced && r.offsets == s.offsets
    decreases sequence - first
  {
    hide QueuesSent, PartsOf;
    if first < sequence {
      KillRangePairs(p, Kill(s, first - offset), offset, first + 1, sequence);
    }
  }

  lemma OfferSyncedPairs(p: Publisher, s: State, topic: Topic, k: nat)
    requires Publishes(p) && Faithful(p, s) && s.synced
    ensures var r := OfferSynced(s, topic, p.msg(topic, k)); Faithful(p, r.state) && AllHanded(p, r.out)
  {
    hide QueuesSent, PartsOf, FramesOf, Drain, Place;
    var it := p.msg(topic, k);
    var fid := it.sequence - s.offsets[topic];
    if fid in s.dead {
      DrainPairs(p, Seen(s, fid));
    } else {
      var placed := Placed(Seen(s, fid), fid, topic, it);
      PlacePairs(p, s.frames, topic, it);
      if |placed.frames| > MAX_FRAMES {
        ResyncPairs(p, placed);
      } else {
        DrainPairs(p, placed);
      }
    }
  }

  lemma OfferHands(p: Publisher, s: State, topic: Topic, k: nat)
    requires |p.base| == TOPICS && Publishes(p) && Faithful(p, s)
    requires ThrottleFollows(p, Fresh(s, topic, p.msg(topic, k)), topic, k)
    ensures var r := Offer(s, topic, p.msg(topic, k)); Faithful(p, r.state) && AllHanded(p, r.out)
  {
    hide Publishes, QueuesSent, FramesOf, Drain, Learn, OfferSynced, KillRange;
    var it := p.msg(topic, k);
    ResyncPairs(p, s);
    var s0 := Fresh(s, topic, it);
    var s1 := Noted(s0, topic, it.sequence);
    if !s0.synced {
      QueuedPairs(p, s0, topic, k);
      LearnHands(p, Queued(s1, topic, it));
    } else if topic in s0.last && it.sequence > s0.last[topic] + 1 {
      var first := s0.last[topic] + 1;
      KillRangePairs(p, s1.(lost := s1.lost[topic := s1.lost[topic] + (it.sequence - first)]),
                     s1.offsets[topic], first, it.sequence);
      OfferSyncedPairs(p, Lose(s1, topic, first, it.sequence), topic, k);
    } else {
      OfferSyncedPairs(p, s1, topic, k);
    }
  }

  lemma LearnPairs(p: Publisher, s: State)
    requires |p.base| == TOPICS && Publishes(p) && Faithful(p, s)
    ensures var r := Learn(s); Faithful(p, r.state) && AllOneBurst(p, r.out) && AllSane(p, r.out)
  {
    hide Publishes, Learn, Faithful, AllHanded, AllOneBurst, AllSane;
    FaithfulFormed(p, s);
    LearnHands(p, s);
    HandedExact(p, Learn(s).out);
  }

  /** One message, whatever it is: the invariant stays, and only whole bursts come out. */
  lemma OfferPairs(p: Publisher, s: State, topic: Topic, k: nat)
    requires |p.base| == TOPICS && Publishes(p) && Faithful(p, s)
    requires ThrottleFollows(p, Fresh(s, topic, p.msg(topic, k)), topic, k)
    ensures var r := Offer(s, topic, p.msg(topic, k));
      Faithful(p, r.state) && AllOneBurst(p, r.out) && AllSane(p, r.out)
  {
    hide Publishes, Offer, Faithful, AllHanded, AllOneBurst, AllSane;
    FaithfulFormed(p, s);
    OfferHands(p, s, topic, k);
    HandedExact(p, Offer(s, topic, p.msg(topic, k)).out);
  }

  /** Deliveries (topic, burst) in the order they arrive, as offers. */
  function Offers(p: Publisher, deliveries: seq<(Topic, nat)>): (r: seq<(Topic, Item)>)
    ensures |r| == |deliveries|
  {
    seq(|deliveries|, i requires 0 <= i < |deliveries| =>
      (deliveries[i].0, p.msg(deliveries[i].0, deliveries[i].1)))
  }

  ghost predicate ThrottleKept(p: Publisher, s: State, deliveries: seq<(Topic, nat)>)
    requires |p.base| == TOPICS && WellFormed(s)
    decreases |deliveries|
  {
    deliveries != [] ==>
      var (topic, k) := deliveries[0];
      && ThrottleFollows(p, Fresh(s, topic, p.msg(topic, k)), topic, k)
      && ThrottleKept(p, Offer(s, topic, p.msg(topic, k)).state, deliveries[1..])
  }

  lemma {:induction false} RunPairs(p: Publisher, s: State, deliveries: seq<(Topic, nat)>)
    requires |p.base| == TOPICS && Publishes(p) && Faithful(p, s) && ThrottleKept(p, s, deliveries)
    ensures var r := Run(s, Offers(p, deliveries));
      && AllHanded(p, r.out)
      && (r.state.synced ==> r.state.offsets == TrueOffsets(p))
      && Faithful(p, r.state)
    decreases |deliveries|
  {
    hide Publishes, QueuesSent, FramesOf, Offer, Handed;
    if deliveries != [] {
      var (topic, k) := deliveries[0];
      OfferHands(p, s, topic, k);
      RunPairs(p, Offer(s, topic, p.msg(topic, k)).state, deliveries[1..]);
      assert Offers(p, deliveries)[1..] == Offers(p, deliveries[1..]);
    }
  }

  /** Whatever arrives, lost, late, repeated or out of order, in any interleaving:
      as long as throttle is not lost while learning, the offsets in use are the
      publisher's and every frame handed out is one whole burst. */
  lemma NoCrossFramePairing(p: Publisher, s: State, deliveries: seq<(Topic, nat)>)
    requires |p.base| == TOPICS && Publishes(p) && Faithful(p, s) && ThrottleKept(p, s, deliveries)
    ensures var r := Run(s, Offers(p, deliveries));
      && AllOneBurst(p, r.out) && AllSane(p, r.out)
      && (r.state.synced ==> r.state.offsets == TrueOffsets(p))
      && Faithful(p, r.state)
  {
    hide Publishes, Faithful, Handed, Run, Offers, AllHanded;
    FaithfulFormed(p, s);
    RunPairs(p, s, deliveries);
    HandedExact(p, Run(s, Offers(p, deliveries)).out);
  }

  lemma FaithfulFormed(p: Publisher, s: State)
    requires |p.base| == TOPICS && Faithful(p, s)
    ensures WellFormed(s)
  {
  }

  lemma StartsFaithful(p: Publisher)
    requires |p.base| == TOPICS
    ensures Faithful(p, Initial())
  {
  }

  // --- when throttle is lost while learning

  /** A burst the learner accepts as closed, its throttle heads from bursts a and b. */
  ghost predicate AcceptedBetween(p: Publisher, pending: seq<seq<Item>>, a: nat, b: nat)
    requires |p.base| == TOPICS
  {
    && |pending| == TOPICS
    && (forall t: nat :: t < TOPICS ==> QueueSent(p, t, pending[t]) && pending[t] != [])
    && (forall t: nat :: t < TOPICS ==> pending[t][0].source >= pending[THROTTLE][0].source)
    && |pending[THROTTLE]| > 1
    && pending[THROTTLE][0] == p.msg(THROTTLE, a) && pending[THROTTLE][1] == p.msg(THROTTLE, b)
    && !Missed(pending)
  }

  /** Steering's burst a was lost too, so its next message stands in for it. */
  function GapQueues(p: Publisher, a: nat, b: nat): (r: seq<seq<Item>>)
    ensures |r| == TOPICS
  {
    seq(TOPICS, t requires 0 <= t < TOPICS =>
      if t == THROTTLE then [p.msg(t, a), p.msg(t, b)] else if t == 1 then [p.msg(t, a + 1)] else [p.msg(t, a)])
  }

  lemma GapQueuesAccepted(p: Publisher, a: nat, b: nat)
    requires Publishes(p) && a + 1 < b
    ensures AcceptedBetween(p, GapQueues(p, a, b), a, b)
  {
    var pending := GapQueues(p, a, b);
    forall t: nat | t < TOPICS
      ensures QueueSent(p, t, pending[t]) && pending[t] != []
      ensures pending[t][0].source >= pending[THROTTLE][0].source
      ensures t != THROTTLE ==> pending[t][0].source < p.msg(THROTTLE, b).source
    {
      GapHead(p, t, a, b);
    }
  }

  lemma MessageSent(p: Publisher, t: Topic, k: nat)
    requires Publishes(p)
    ensures Sent(p, t, p.msg(t, k))
  {
  }

  lemma GapHead(p: Publisher, t: Topic, a: nat, b: nat)
    requires Publishes(p) && a + 1 < b
    ensures var queue := GapQueues(p, a, b)[t];
      && QueueSent(p, t, queue) && queue != []
      && queue[0].source >= p.msg(THROTTLE, a).source
      && (t != THROTTLE ==> queue[0].source < p.msg(THROTTLE, b).source)
  {
    hide Sent;
    var queue := GapQueues(p, a, b)[t];
    MessageSent(p, t, a);
    MessageSent(p, t, b);
    MessageSent(p, t, a + 1);
    if t == THROTTLE {
      assert queue == [p.msg(t, a), p.msg(t, b)];
    } else if t == 1 {
      assert queue == [p.msg(t, a + 1)];
      assert p.msg(THROTTLE, a).source <= p.msg(THROTTLE, a + 1).source <= p.msg(t, a + 1).source;
    } else {
      assert queue == [p.msg(t, a)];
    }
  }

  lemma NoGapTeaches(p: Publisher, pending: seq<seq<Item>>, a: nat)
    requires Publishes(p) && AcceptedBetween(p, pending, a, a + 1)
    ensures HeadOffsets(pending) == TrueOffsets(p)
  {
    var k := ClosedHeads(p, pending);
    HeadsTeach(p, pending, k);
  }

  lemma GapMisteaches(p: Publisher, a: nat, b: nat)
    requires Publishes(p) && a + 1 < b
    ensures HeadOffsets(GapQueues(p, a, b))[1] != TrueOffsets(p)[1]
  {
    assert p.msg(1, a + 1).sequence - p.msg(LIDAR, a).sequence != p.base[1] - p.base[LIDAR];
  }

  /** Learning from between two queued throttles is sure to teach the true offsets
      exactly when no throttle between them was lost. */
  lemma ThrottleGapExact(p: Publisher, a: nat, b: nat)
    requires Publishes(p) && a < b
    ensures (forall pending :: AcceptedBetween(p, pending, a, b) ==> HeadOffsets(pending) == TrueOffsets(p))
            <==> b == a + 1
  {
    hide QueueSent, GapQueues, Missed;
    if b == a + 1 {
      forall pending | AcceptedBetween(p, pending, a, b)
        ensures HeadOffsets(pending) == TrueOffsets(p)
      {
        NoGapTeaches(p, pending, a);
      }
    } else {
      GapQueuesAccepted(p, a, b);
      GapMisteaches(p, a, b);
    }
  }
}
