/**
 The devkit's frame assembler as a state machine over values: what one offered
 message does to the assembler, and which frames it hands out.
 */
module DevkitSpec {
  import opened Options
  import opened Sets

  /** The 13 per-frame topics, numbered in the order the devkit publishes them. */
  type Topic = t: nat | t < 13

  const TOPICS: nat := 13
  const THROTTLE: Topic := 0
  const LEFT_ENCODER: Topic := 2
  const RIGHT_ENCODER: Topic := 3
  const IPS: Topic := 4
  const IMU: Topic := 5
  const ODOM: Topic := 6
  const LIDAR: Topic := 7

  const SKEW_NS: int := 75_000_000
  const MAX_FRAMES: nat := 64

  type Point = (real, real, real)

  datatype Value =
    | Scalar(x: real)
    | Ips(position: Point)
    | Imu(orientation: (real, real, real, real), angular: Point, linear: Point)
    | Odom(position: Point, velocity: Point)
    | Lidar(ranges: seq<real>, scanTime: real)
  {
    function Position(): Option<Point> {
      match this
      case Ips(p) => Some(p)
      case Odom(p, _) => Some(p)
      case _ => None
    }
  }

  /** The value is of the shape its topic's messages have, which building a frame unpacks. */
  predicate Typed(t: Topic, value: Value) {
    if t == IPS then value.Ips?
    else if t == IMU then value.Imu?
    else if t == ODOM then value.Odom?
    else if t == LIDAR then value.Lidar?
    else value.Scalar?
  }

  /** One received message; `header` is read for the headered topics alone. */
  datatype Item = Item(value: Value, source: int, sequence: int, header: int)

  type Parts = map<Topic, Item>
  type Offsets = seq<int>
  type Frames = map<int, Parts>

  /** The 13 values of a frame in topic order, stamped by the lidar header. */
  datatype Frame = Frame(values: seq<Value>, stamp: int)

  datatype Built = Whole(frame: Frame) | Stamps | Data

  predicate Complete(parts: Parts) {
    forall t: nat :: t < TOPICS ==> t in parts
  }

  predicate Headered(t: Topic) {
    t == LIDAR || t == IMU || t == LEFT_ENCODER || t == RIGHT_ENCODER || t == ODOM
  }

  /** Some two of the stamps lie further apart than the sanity bound. */
  predicate SourcesApart(parts: Parts)
    requires Complete(parts)
  {
    exists t: nat, u: nat :: t < TOPICS && u < TOPICS && parts[t].source - parts[u].source > SKEW_NS
  }

  predicate HeadersApart(parts: Parts)
    requires Complete(parts)
  {
    exists t: nat, u: nat :: t < TOPICS && u < TOPICS && Headered(t) && Headered(u) &&
                             parts[t].header - parts[u].header > SKEW_NS
  }

  function FrameOf(parts: Parts): Frame
    requires Complete(parts)
  {
    Frame(seq(TOPICS, t requires 0 <= t < TOPICS => parts[t].value), parts[LIDAR].header)
  }

  function Build(parts: Parts): Built
    requires Complete(parts)
  {
    if SourcesApart(parts) then Stamps
    else if HeadersApart(parts) then Stamps
    else if parts[IPS].value.Position() != parts[ODOM].value.Position() then Data
    else Whole(FrameOf(parts))
  }

  /** History since the last sync, kept for the accounting theorem alone. */
  datatype History = History(
    seen: set<int>,       // ids of the messages offered
    emitted: seq<int>,    // ids handed out, in order
    dropped: set<int>,    // ids given up
    dropsBefore: nat,     // droppedFrames as it stood at the sync
    front: int)           // the last id handed out or dropped as a whole burst

  const NO_HISTORY := History({}, [], {}, 0, 0)

  datatype State = State(
    synced: bool,
    offsets: Offsets,
    candidate: Option<Offsets>,
    pending: seq<seq<Item>>,
    frames: Frames,
    dead: set<int>,
    last: map<Topic, int>,
    resyncs: nat,
    droppedFrames: nat,
    learnDropped: nat,
    learnStampDropped: nat,
    stampDropped: nat,
    lost: seq<nat>,
    syncedAt: Option<int>,
    history: History)

  /** A frame handed out, with the id (the lidar sequence) it was paired under. */
  datatype Emission = Emission(id: int, frame: Frame)

  datatype Result = Result(state: State, out: seq<Emission>)

  predicate WellFormed(s: State) {
    |s.pending| == TOPICS && |s.lost| == TOPICS && |s.offsets| == TOPICS
  }

  function NoQueues(): (r: seq<seq<Item>>)
    ensures |r| == TOPICS
  {
    seq(TOPICS, t => [])
  }

  function Zeros(): (r: seq<nat>)
    ensures |r| == TOPICS
  {
    seq(TOPICS, t => 0)
  }

  function Initial(): (r: State)
    ensures WellFormed(r)
  {
    State(false, Zeros(), None, NoQueues(), map[], {}, map[], 0, 0, 0, 0, 0, Zeros(), None, NO_HISTORY)
  }

  function Resync(s: State): (r: State)
    ensures |s.lost| == TOPICS ==> WellFormed(r)
  {
    s.(resyncs := s.resyncs + 1, synced := false, offsets := Zeros(), candidate := None,
       pending := NoQueues(), frames := map[], dead := {}, last := map[], history := NO_HISTORY)
  }

  // --- the learning phase

  function DropEarlier(queue: seq<Item>, t0: int): seq<Item> {
    if queue != [] && queue[0].source < t0 then DropEarlier(queue[1..], t0) else queue
  }

  function Aligned(pending: seq<seq<Item>>, t0: int): (r: seq<seq<Item>>)
    requires |pending| == TOPICS
    ensures |r| == TOPICS
  {
    seq(TOPICS, t requires 0 <= t < TOPICS => if t == THROTTLE then pending[t] else DropEarlier(pending[t], t0))
  }

  predicate AllQueued(pending: seq<seq<Item>>)
    requires |pending| == TOPICS
  {
    forall t :: 0 <= t < TOPICS ==> pending[t] != []
  }

  /** The next throttle is queued, so the burst at the heads has a known end. */
  predicate Closed(pending: seq<seq<Item>>)
    requires |pending| == TOPICS
  {
    |pending[THROTTLE]| > 1
  }

  /** Some topic's head belongs to a later burst. */
  predicate Missed(pending: seq<seq<Item>>)
    requires |pending| == TOPICS && AllQueued(pending) && Closed(pending)
  {
    exists t :: 0 < t < TOPICS && pending[t][0].source >= pending[THROTTLE][1].source
  }

  function HeadOffsets(pending: seq<seq<Item>>): (r: Offsets)
    requires |pending| == TOPICS && AllQueued(pending)
    ensures |r| == TOPICS
  {
    seq(TOPICS, t requires 0 <= t < TOPICS => pending[t][0].sequence - pending[LIDAR][0].sequence)
  }

  function Heads(pending: seq<seq<Item>>): (r: Parts)
    requires |pending| == TOPICS && AllQueued(pending)
    ensures Complete(r)
  {
    map t: Topic | 0 <= t < TOPICS :: pending[t][0]
  }

  function Tails(pending: seq<seq<Item>>): (r: seq<seq<Item>>)
    requires |pending| == TOPICS && AllQueued(pending)
    ensures |r| == TOPICS
  {
    seq(TOPICS, t requires 0 <= t < TOPICS => pending[t][1..])
  }

  function Place(frames: Frames, fid: int, t: Topic, it: Item): Frames {
    frames[fid := (if fid in frames then frames[fid] else map[])[t := it]]
  }

  function PlaceQueue(frames: Frames, t: Topic, queue: seq<Item>, offset: int): Frames
    decreases |queue|
  {
    if queue == [] then frames
    else PlaceQueue(Place(frames, queue[0].sequence - offset, t, queue[0]), t, queue[1..], offset)
  }

  /** The frames after everything queued on the topics from `t` on is placed. */
  function PlaceQueues(frames: Frames, pending: seq<seq<Item>>, offsets: Offsets, t: nat): Frames
    requires |pending| == TOPICS && |offsets| == TOPICS && t <= TOPICS
    decreases TOPICS - t
  {
    if t == TOPICS then frames
    else PlaceQueues(PlaceQueue(frames, t, pending[t], offsets[t]), pending, offsets, t + 1)
  }

  /** Learning ends: the queues become frames, and the confirming burst (id
      `base`) is emitted, or dropped when its stamps failed. */
  function Sync(s: State, offsets: Offsets, base: int, built: Built): (r: State)
    requires WellFormed(s) && |offsets| == TOPICS
    ensures WellFormed(r)
  {
    var frames := PlaceQueues(s.frames, s.pending, offsets, 0);
    s.(offsets := offsets, synced := true, syncedAt := Some(base), candidate := None,
       frames := frames, pending := NoQueues(),
       droppedFrames := if built == Stamps then s.droppedFrames + 1 else s.droppedFrames,
       stampDropped := if built == Stamps then s.stampDropped + 1 else s.stampDropped,
       history := if built == Stamps
                  then History(frames.Keys + {base}, [], {base}, s.droppedFrames, base)
                  else History(frames.Keys + {base}, [base], {}, s.droppedFrames, base))
  }

  /** A topic has no message in the burst at the heads: its throttle is given up. */
  function GivenUp(s: State): (r: State)
    requires WellFormed(s) && AllQueued(s.pending)
    ensures WellFormed(r)
  {
    s.(pending := s.pending[THROTTLE := s.pending[THROTTLE][1..]],
       learnDropped := s.learnDropped + 1, candidate := None)
  }

  /** The heads are taken off and rejected for their data. */
  function Unclean(s: State): (r: State)
    requires WellFormed(s) && AllQueued(s.pending)
    ensures WellFormed(r)
  {
    s.(pending := Tails(s.pending), learnDropped := s.learnDropped + 1, candidate := None)
  }

  /** The heads are taken off; their sequences are exact. */
  function Taught(s: State, built: Built): (r: State)
    requires WellFormed(s) && AllQueued(s.pending)
    ensures WellFormed(r)
  {
    s.(pending := Tails(s.pending),
       learnStampDropped := if built == Stamps then s.learnStampDropped + 1 else s.learnStampDropped)
  }

  ghost function Learn(s: State): (r: Result)
    requires WellFormed(s)
    ensures WellFormed(r.state)
    decreases |s.pending[THROTTLE]|, 1
  {
    if s.pending[THROTTLE] == [] then Result(s, [])
    else
      var s1 := s.(pending := Aligned(s.pending, s.pending[THROTTLE][0].source));
      if !AllQueued(s1.pending) then Result(s1, [])
      else if Closed(s1.pending) && Missed(s1.pending) then Learn(GivenUp(s1))
      else if !Closed(s1.pending) && s1.candidate != Some(HeadOffsets(s1.pending)) then Result(s1, [])
      else LearnBurst(s1)
  }

  /** The burst at the heads, verified whole or trusted, is taken. */
  ghost function LearnBurst(s: State): (r: Result)
    requires WellFormed(s) && AllQueued(s.pending)
    ensures WellFormed(r.state)
    decreases |s.pending[THROTTLE]|, 0
  {
    var offsets := HeadOffsets(s.pending);
    var base := s.pending[LIDAR][0].sequence;
    var built := Build(Heads(s.pending));
    if built == Data then Learn(Unclean(s))
    else if s.candidate != Some(offsets) then Learn(Taught(s, built).(candidate := Some(offsets)))
    else
      var rest := Drain(Sync(Taught(s, built), offsets, base, built));
      Result(rest.state, (if built == Stamps then [] else [Emission(base, built.frame)]) + rest.out)
  }

  /** One turn of the learning loop, up to the burst it takes. */
  lemma LearnTurn(s: State)
    requires WellFormed(s)
    ensures s.pending[THROTTLE] == [] ==> Learn(s) == Result(s, [])
    ensures s.pending[THROTTLE] != [] ==> (
      var s1 := s.(pending := Aligned(s.pending, s.pending[THROTTLE][0].source));
      Learn(s) ==
        if !AllQueued(s1.pending) then Result(s1, [])
        else if Closed(s1.pending) && Missed(s1.pending) then Learn(GivenUp(s1))
        else if !Closed(s1.pending) && s1.candidate != Some(HeadOffsets(s1.pending)) then Result(s1, [])
        else LearnBurst(s1))
  {
    hide LearnBurst, Aligned, AllQueued, Missed, HeadOffsets, GivenUp;
  }

  lemma LearnBurstTurn(s: State)
    requires WellFormed(s) && AllQueued(s.pending)
    ensures
      var offsets := HeadOffsets(s.pending);
      var base := s.pending[LIDAR][0].sequence;
      var built := Build(Heads(s.pending));
      var rest := Drain(Sync(Taught(s, built), offsets, base, built));
      LearnBurst(s) ==
        if built == Data then Learn(Unclean(s))
        else if s.candidate != Some(offsets) then Learn(Taught(s, built).(candidate := Some(offsets)))
        else Result(rest.state, (if built == Stamps then [] else [Emission(base, built.frame)]) + rest.out)
  {
    hide Learn, Drain, Build, Sync, Taught, Unclean, HeadOffsets, Heads;
  }

  // --- the synced phase

  /** Ids above the one just handed out (or dropped whole) are all that can still be dead. */
  function DeadAfter(dead: set<int>, fid: int): set<int> {
    set d | d in dead && d > fid
  }

  /** The complete frame `fid` leaves the buffer, emitted or dropped alone. */
  ghost function Taken(s: State, fid: int, dropped: bool): (r: State)
    ensures WellFormed(s) ==> WellFormed(r)
  {
    if dropped then
      s.(frames := s.frames - {fid}, dead := DeadAfter(s.dead, fid),
         droppedFrames := s.droppedFrames + 1, stampDropped := s.stampDropped + 1,
         history := s.history.(dropped := s.history.dropped + {fid}, front := fid))
    else
      s.(frames := s.frames - {fid}, dead := DeadAfter(s.dead, fid),
         history := s.history.(emitted := s.history.emitted + [fid], front := fid))
  }

  ghost function Rejected(s: State, fid: int): (r: State)
    ensures WellFormed(s) ==> WellFormed(r)
  {
    Resync(s.(frames := s.frames - {fid}, droppedFrames := s.droppedFrames + 1))
  }

  ghost function Drain(s: State): (r: Result)
    requires WellFormed(s)
    ensures WellFormed(r.state)
    decreases s.frames.Keys
  {
    if !s.synced || s.frames == map[] then Result(s, [])
    else
      var fid := Least(s.frames.Keys);
      if fid in s.dead then Drain(s.(frames := s.frames - {fid}))
      else if |s.frames[fid]| < TOPICS then Result(s, [])
      else
        FullParts(s.frames[fid]);
        match Build(s.frames[fid])
        case Stamps => Drain(Taken(s, fid, true))
        case Data => Result(Rejected(s, fid), [])
        case Whole(frame) =>
          var rest := Drain(Taken(s, fid, false));
          Result(rest.state, [Emission(fid, frame)] + rest.out)
  }

  ghost function Below(n: nat): (r: set<nat>)
    requires n <= TOPICS
    ensures |r| == n && forall x: nat :: x in r <==> x < n
  {
    if n == 0 then {} else Below(n - 1) + {n - 1}
  }

  lemma FullParts(parts: Parts)
    requires |parts| >= TOPICS
    ensures Complete(parts)
  {
    ghost var keys: set<nat> := set t | t in parts.Keys;
    assert keys == parts.Keys;
    forall t: nat | t < TOPICS
      ensures t in parts
    {
      SubsetSize(keys, Below(TOPICS));
    }
  }

  /** One turn of the drain, by the case it meets. */
  lemma DrainTurn(s: State, fid: int)
    requires WellFormed(s) && s.synced && s.frames != map[] && fid == Least(s.frames.Keys)
    ensures fid in s.dead ==> Drain(s) == Drain(s.(frames := s.frames - {fid}))
    ensures fid !in s.dead && |s.frames[fid]| < TOPICS ==> Drain(s) == Result(s, [])
    ensures |s.frames[fid]| >= TOPICS ==> Complete(s.frames[fid])
    ensures fid !in s.dead && |s.frames[fid]| >= TOPICS ==>
      match Build(s.frames[fid])
      case Stamps => Drain(s) == Drain(Taken(s, fid, true))
      case Data => Drain(s) == Result(Rejected(s, fid), [])
      case Whole(frame) =>
        var rest := Drain(Taken(s, fid, false));
        Drain(s) == Result(rest.state, [Emission(fid, frame)] + rest.out)
  {
    hide Build, Taken, Rejected;
    if |s.frames[fid]| >= TOPICS {
      FullParts(s.frames[fid]);
    }
  }

  lemma DrainIdle(s: State)
    requires WellFormed(s) && (!s.synced || s.frames == map[])
    ensures Drain(s) == Result(s, [])
  {
  }

  ghost function Kill(s: State, fid: int): State {
    if fid in s.dead then s.(frames := s.frames - {fid})
    else s.(dead := s.dead + {fid}, droppedFrames := s.droppedFrames + 1, frames := s.frames - {fid},
            history := s.history.(dropped := s.history.dropped + {fid}))
  }

  ghost function KillRange(s: State, offset: int, first: int, sequence: int): (r: State)
    ensures WellFormed(s) ==> WellFormed(r)
    decreases sequence - first
  {
    if first >= sequence then s
    else KillRange(Kill(s, first - offset), offset, first + 1, sequence)
  }

  lemma KillRangeTurn(s: State, offset: int, first: int, sequence: int)
    ensures KillRange(s, offset, first, sequence) ==
      if first >= sequence then s else KillRange(Kill(s, first - offset), offset, first + 1, sequence)
  {
  }

  /** The sequences from `first` up to `sequence` never arrived on the topic. */
  ghost function Lose(s: State, topic: Topic, first: int, sequence: int): (r: State)
    requires WellFormed(s) && first <= sequence
    ensures WellFormed(r)
  {
    KillRange(s.(lost := s.lost[topic := s.lost[topic] + (sequence - first)]), s.offsets[topic], first, sequence)
  }

  ghost function Queued(s: State, topic: Topic, it: Item): (r: State)
    requires WellFormed(s)
    ensures WellFormed(r)
  {
    var queue := s.pending[topic] + [it];
    s.(pending := s.pending[topic := if |queue| > MAX_FRAMES then queue[1..] else queue])
  }

  function Seen(s: State, fid: int): (r: State)
    ensures WellFormed(s) ==> WellFormed(r)
  {
    s.(history := s.history.(seen := s.history.seen + {fid}))
  }

  function Placed(s: State, fid: int, topic: Topic, it: Item): (r: State)
    ensures WellFormed(s) ==> WellFormed(r)
  {
    s.(frames := Place(s.frames, fid, topic, it))
  }

  ghost function OfferSynced(s: State, topic: Topic, it: Item): (r: Result)
    requires WellFormed(s)
    ensures WellFormed(r.state)
  {
    var fid := it.sequence - s.offsets[topic];
    var s1 := Seen(s, fid);
    if fid in s1.dead then Drain(s1)
    else
      var s2 := Placed(s1, fid, topic, it);
      if |s2.frames| > MAX_FRAMES then Result(Resync(s2), []) else Drain(s2)
  }

  /** The topic's newest sequence is noted. */
  function Noted(s: State, topic: Topic, sequence: int): (r: State)
    ensures WellFormed(s) ==> WellFormed(r)
  {
    s.(last := s.last[topic := sequence])
  }

  /** An offer whose sequence is past the topic's last. */
  ghost function OfferNext(s: State, topic: Topic, it: Item): (r: Result)
    requires WellFormed(s)
    ensures WellFormed(r.state)
  {
    var s1 := Noted(s, topic, it.sequence);
    if !s1.synced then Learn(Queued(s1, topic, it))
    else if topic in s.last && it.sequence > s.last[topic] + 1 then
      OfferSynced(Lose(s1, topic, s.last[topic] + 1, it.sequence), topic, it)
    else OfferSynced(s1, topic, it)
  }

  /** A sequence that does not advance restarts the assembler. */
  ghost function Fresh(s: State, topic: Topic, it: Item): (r: State)
    requires WellFormed(s)
    ensures WellFormed(r)
  {
    if topic in s.last && it.sequence <= s.last[topic] then Resync(s) else s
  }

  /** One message in, the frames it completes out. */
  ghost function Offer(s: State, topic: Topic, it: Item): (r: Result)
    requires WellFormed(s)
    ensures WellFormed(r.state)
  {
    OfferNext(Fresh(s, topic, it), topic, it)
  }

  /** Every message of a run offered in turn, with all the frames handed out. */
  ghost function Run(s: State, offers: seq<(Topic, Item)>): (r: Result)
    requires WellFormed(s)
    ensures WellFormed(r.state)
    decreases |offers|
  {
    if offers == [] then Result(s, [])
    else
      var one := Offer(s, offers[0].0, offers[0].1);
      var rest := Run(one.state, offers[1..]);
      Result(rest.state, one.out + rest.out)
  }
}
