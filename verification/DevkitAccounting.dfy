/**
 What the assembler keeps under every input whatever: which ids are buffered,
 handed out and given up, and that a drained assembler waits on its oldest frame.
 */
module DevkitAccounting {
  import opened Options
  import opened Sets
  import opened DevkitSpec

  ghost predicate Increasing(queue: seq<Item>) {
    forall i, j :: 0 <= i < j < |queue| ==> queue[i].sequence < queue[j].sequence
  }

  ghost predicate Rising(ids: seq<int>) {
    forall i, j :: 0 <= i < j < |ids| ==> ids[i] < ids[j]
  }

  function Ids(out: seq<Emission>): (r: seq<int>)
    ensures |r| == |out|
    ensures forall i :: 0 <= i < |out| ==> r[i] == out[i].id
  {
    seq(|out|, i requires 0 <= i < |out| => out[i].id)
  }

  /** The ids of a list of frames rise, all past `front`. */
  ghost predicate RisingPast(ids: seq<int>, front: int) {
    Rising(ids) && forall i :: 0 <= i < |ids| ==> ids[i] > front
  }

  lemma EmittingRises(e: Emission, rest: seq<Emission>, front: int)
    requires e.id > front && RisingPast(Ids(rest), e.id)
    ensures Ids([e] + rest) == [e.id] + Ids(rest) && RisingPast(Ids([e] + rest), front)
  {
    assert Ids([e] + rest) == [e.id] + Ids(rest);
  }

  /** A topic's queue holds its messages in the order it sent them. */
  ghost predicate QueueKept(queue: seq<Item>, t: Topic, last: map<Topic, int>) {
    && Increasing(queue)
    && (queue != [] ==> t in last && queue[|queue| - 1].sequence <= last[t])
  }

  ghost predicate QueuesKept(pending: seq<seq<Item>>, last: map<Topic, int>)
    requires |pending| == TOPICS
  {
    forall t: nat :: t < TOPICS ==> QueueKept(pending[t], t, last)
  }

  ghost predicate PartsKept(parts: Parts, f: int, offsets: Offsets, last: map<Topic, int>)
    requires |offsets| == TOPICS
  {
    parts != map[] &&
    forall t: Topic :: t in parts ==>
      (parts[t].sequence == f + offsets[t] && t in last && f + offsets[t] <= last[t])
  }

  /** Every buffered frame lies past `front` and holds messages of its own id. */
  ghost predicate FramesKept(frames: Frames, offsets: Offsets, last: map<Topic, int>, front: int)
    requires |offsets| == TOPICS
  {
    forall f :: f in frames ==> f > front && PartsKept(frames[f], f, offsets, last)
  }

  /** Each id offered since the sync is exactly one of emitted, dropped, buffered,
      and each dropped id was counted once. */
  ghost predicate Accounted(s: State) {
    var h := s.history;
    && (forall x :: x in h.seen ==> x in h.emitted || x in h.dropped || x in s.frames)
    && (forall x :: x in h.emitted ==> x in h.seen && x !in h.dropped && x !in s.frames)
    && (forall x :: x in s.frames ==> x in h.seen && x !in h.dropped)
    && Rising(h.emitted)
    && s.droppedFrames == h.dropsBefore + |h.dropped|
  }

  ghost predicate Learning(s: State)
    requires WellFormed(s)
  {
    !s.synced && s.frames == map[] && s.dead == {} && QueuesKept(s.pending, s.last)
  }

  ghost predicate Synced(s: State)
    requires WellFormed(s)
  {
    var h := s.history;
    && s.synced
    && s.pending == NoQueues()
    && (forall t: nat :: t < TOPICS ==> t in s.last && s.last[t] >= h.front + s.offsets[t])
    && FramesKept(s.frames, s.offsets, s.last, h.front)
    && (forall d :: d in s.dead ==> d > h.front && d in h.dropped && d !in s.frames)
    && (forall d :: d in h.dropped ==> d <= h.front || d in s.dead)
    && (forall e :: e in h.emitted ==> e <= h.front)
    && Accounted(s)
  }

  ghost predicate Invariant(s: State) {
    WellFormed(s) && (Learning(s) || Synced(s))
  }

  /** Nothing buffered could be handed out. */
  ghost predicate Drained(s: State) {
    s.frames != map[] ==> |s.frames[Least(s.frames.Keys)]| < TOPICS
  }

  // --- draining

  lemma ResyncKeeps(s: State)
    requires |s.lost| == TOPICS
    ensures Invariant(Resync(s)) && Drained(Resync(s))
  {
    assert Learning(Resync(s));
  }

  lemma RemovingLeastKeeps(frames: Frames, fid: int, offsets: Offsets, last: map<Topic, int>, front: int)
    requires |offsets| == TOPICS && FramesKept(frames, offsets, last, front)
    requires fid in frames && forall x :: x in frames ==> fid <= x
    ensures FramesKept(frames - {fid}, offsets, last, fid)
  {
  }

  lemma TakingLeastAccounts(s: State, fid: int, dropped: bool)
    requires WellFormed(s) && Accounted(s)
    requires fid in s.frames && forall e :: e in s.history.emitted ==> e < fid
    ensures Accounted(Taken(s, fid, dropped))
  {
    var r := Taken(s, fid, dropped);
    assert r.frames.Keys == s.frames.Keys - {fid};
    assert forall i :: 0 <= i < |s.history.emitted| ==> s.history.emitted[i] in s.history.emitted;
  }

  /** Every topic has sent its message of a complete frame. */
  lemma TakingLeastReached(s: State, fid: int)
    requires WellFormed(s) && fid in s.frames && |s.frames[fid]| >= TOPICS
    requires PartsKept(s.frames[fid], fid, s.offsets, s.last)
    ensures forall t: nat :: t < TOPICS ==> t in s.last && s.last[t] >= fid + s.offsets[t]
  {
    FullParts(s.frames[fid]);
    forall t: nat | t < TOPICS
      ensures t in s.last && s.last[t] >= fid + s.offsets[t]
    {
      var topic: Topic := t;
      assert topic in s.frames[fid];
    }
  }

  lemma TakingLeastKeeps(s: State, fid: int, dropped: bool)
    requires WellFormed(s) && Synced(s) && s.frames != map[]
    requires fid == Least(s.frames.Keys) && |s.frames[fid]| >= TOPICS
    ensures var r := Taken(s, fid, dropped);
      && WellFormed(r) && Synced(r) && r.history.front == fid
      && r.history.emitted == (if dropped then s.history.emitted else s.history.emitted + [fid])
      && r.frames.Keys < s.frames.Keys
  {
    hide Accounted, Complete;
    var r := Taken(s, fid, dropped);
    TakingLeastAccounts(s, fid, dropped);
    TakingLeastReached(s, fid);
    assert r.frames.Keys == s.frames.Keys - {fid};
    RemovingLeastKeeps(s.frames, fid, s.offsets, s.last, s.history.front);
  }

  lemma LeastIsLive(s: State, fid: int)
    requires WellFormed(s) && Synced(s) && s.frames != map[] && fid == Least(s.frames.Keys)
    ensures s.synced && fid in s.frames && fid !in s.dead && fid > s.history.front
  {
  }

  lemma NothingDrained(s: State)
    requires WellFormed(s) && s.frames == map[]
    ensures Drained(s)
  {
  }

  lemma {:induction false} DrainKeeps(s: State)
    requires WellFormed(s) && Synced(s)
    ensures Invariant(Drain(s).state) && Drained(Drain(s).state)
    decreases s.frames.Keys
  {
    hide Drain, Build, Taken, Synced, Rejected;
    if s.frames == map[] {
      DrainIdle(s);
      NothingDrained(s);
    } else {
      var fid := Least(s.frames.Keys);
      LeastIsLive(s, fid);
      DrainTurn(s, fid);
      if |s.frames[fid]| >= TOPICS {
        match Build(s.frames[fid])
        case Stamps =>
          TakingLeastKeeps(s, fid, true);
          DrainKeeps(Taken(s, fid, true));
        case Data =>
          RejectedKeeps(s, fid);
        case Whole(frame) =>
          TakingLeastKeeps(s, fid, false);
          DrainKeeps(Taken(s, fid, false));
      }
    }
  }

  lemma RejectedKeeps(s: State, fid: int)
    requires WellFormed(s)
    ensures Invariant(Rejected(s, fid)) && Drained(Rejected(s, fid)) && !Rejected(s, fid).synced
  {
    ResyncKeeps(s.(frames := s.frames - {fid}, droppedFrames := s.droppedFrames + 1));
  }

  lemma {:induction false} DrainRises(s: State)
    requires WellFormed(s) && Synced(s)
    ensures RisingPast(Ids(Drain(s).out), s.history.front)
    ensures Drain(s).state.synced ==> Drain(s).state.history.emitted == s.history.emitted + Ids(Drain(s).out)
    decreases s.frames.Keys
  {
    hide Drain, Build, Taken, Synced, Rejected;
    if s.frames == map[] {
      DrainIdle(s);
      NothingDrained(s);
    } else {
      var fid := Least(s.frames.Keys);
      LeastIsLive(s, fid);
      DrainTurn(s, fid);
      if |s.frames[fid]| >= TOPICS {
        match Build(s.frames[fid])
        case Stamps =>
          TakingLeastKeeps(s, fid, true);
          DrainRises(Taken(s, fid, true));
        case Data =>
          RejectedKeeps(s, fid);
        case Whole(frame) =>
          TakingLeastKeeps(s, fid, false);
          DrainRises(Taken(s, fid, false));
          EmittingRises(Emission(fid, frame), Drain(Taken(s, fid, false)).out, s.history.front);
          Regroup(s.history.emitted, fid, Ids(Drain(Taken(s, fid, false)).out));
      }
    }
  }

  lemma Regroup(a: seq<int>, x: int, b: seq<int>)
    ensures (a + [x]) + b == a + ([x] + b)
  {
  }

  // --- learning

  lemma {:induction false} DropEarlierIsSuffix(queue: seq<Item>, t0: int) returns (n: nat)
    ensures n <= |queue| && DropEarlier(queue, t0) == queue[n..]
    ensures forall i :: 0 <= i < n ==> queue[i].source < t0
    ensures n < |queue| ==> queue[n].source >= t0
    decreases |queue|
  {
    n := 0;
    if queue != [] && queue[0].source < t0 {
      var m := DropEarlierIsSuffix(queue[1..], t0);
      n := m + 1;
      assert queue[1..][m..] == queue[n..];
      assert forall i :: 1 <= i < n ==> queue[i] == queue[1..][i - 1];
    }
  }

  lemma SuffixKept(queue: seq<Item>, n: nat, t: Topic, last: map<Topic, int>)
    requires n <= |queue| && QueueKept(queue, t, last)
    ensures QueueKept(queue[n..], t, last)
  {
  }

  lemma AlignedKept(pending: seq<seq<Item>>, t0: int, last: map<Topic, int>)
    requires |pending| == TOPICS && QueuesKept(pending, last)
    ensures QueuesKept(Aligned(pending, t0), last)
  {
    forall t: nat | t < TOPICS
      ensures QueueKept(Aligned(pending, t0)[t], t, last)
    {
      var n := DropEarlierIsSuffix(pending[t], t0);
      SuffixKept(pending[t], n, t, last);
    }
  }

  lemma TailsKept(pending: seq<seq<Item>>, last: map<Topic, int>)
    requires |pending| == TOPICS && AllQueued(pending) && QueuesKept(pending, last)
    ensures QueuesKept(Tails(pending), last)
  {
    forall t: nat | t < TOPICS
      ensures QueueKept(Tails(pending)[t], t, last)
    {
      SuffixKept(pending[t], 1, t, last);
    }
  }

  lemma PlaceKept(frames: Frames, fid: int, t: Topic, it: Item, offsets: Offsets, last: map<Topic, int>, front: int)
    requires |offsets| == TOPICS && FramesKept(frames, offsets, last, front)
    requires fid > front && it.sequence == fid + offsets[t] && t in last && it.sequence <= last[t]
    ensures FramesKept(Place(frames, fid, t, it), offsets, last, front)
  {
    var placed := Place(frames, fid, t, it);
    assert t in placed[fid];
    assert fid in frames ==> PartsKept(frames[fid], fid, offsets, last);
    assert PartsKept(placed[fid], fid, offsets, last);
  }

  lemma {:induction false} PlaceQueueKept(frames: Frames, t: Topic, queue: seq<Item>, offsets: Offsets,
                                          last: map<Topic, int>, front: int)
    requires |offsets| == TOPICS && FramesKept(frames, offsets, last, front)
    requires QueueKept(queue, t, last) && (queue != [] ==> queue[0].sequence > front + offsets[t])
    ensures FramesKept(PlaceQueue(frames, t, queue, offsets[t]), offsets, last, front)
    decreases |queue|
  {
    if queue != [] {
      PlaceKept(frames, queue[0].sequence - offsets[t], t, queue[0], offsets, last, front);
      SuffixKept(queue, 1, t, last);
      PlaceQueueKept(Place(frames, queue[0].sequence - offsets[t], t, queue[0]), t, queue[1..], offsets, last, front);
    }
  }

  lemma {:induction false} PlaceQueuesKept(frames: Frames, pending: seq<seq<Item>>, offsets: Offsets, t: nat,
                                           last: map<Topic, int>, front: int)
    requires |pending| == TOPICS && |offsets| == TOPICS && t <= TOPICS
    requires FramesKept(frames, offsets, last, front) && QueuesKept(pending, last)
    requires forall u: nat :: u < TOPICS && pending[u] != [] ==> pending[u][0].sequence > front + offsets[u]
    ensures FramesKept(PlaceQueues(frames, pending, offsets, t), offsets, last, front)
    decreases TOPICS - t
  {
    if t < TOPICS {
      PlaceQueueKept(frames, t, pending[t], offsets, last, front);
      PlaceQueuesKept(PlaceQueue(frames, t, pending[t], offsets[t]), pending, offsets, t + 1, last, front);
    }
  }

  lemma SyncAccounts(s: State, built: Built)
    requires WellFormed(s) && AllQueued(s.pending)
    requires var base := s.pending[LIDAR][0].sequence;
      base !in Sync(Taught(s, built), HeadOffsets(s.pending), base, built).frames
    ensures Accounted(Sync(Taught(s, built), HeadOffsets(s.pending), s.pending[LIDAR][0].sequence, built))
  {
  }

  /** The 13 heads teach the offsets, so what is queued behind them is past them. */
  lemma SyncKeeps(s: State, built: Built)
    requires WellFormed(s) && Learning(s) && AllQueued(s.pending)
    ensures var r := Sync(Taught(s, built), HeadOffsets(s.pending), s.pending[LIDAR][0].sequence, built);
      WellFormed(r) && Synced(r) && r.history.front == s.pending[LIDAR][0].sequence &&
      r.history.emitted == if built == Stamps then [] else [r.history.front]
  {
    var offsets := HeadOffsets(s.pending);
    var base := s.pending[LIDAR][0].sequence;
    var r := Sync(Taught(s, built), offsets, base, built);
    TailsKept(s.pending, s.last);
    forall t: nat | t < TOPICS
      ensures t in s.last && s.last[t] >= base + offsets[t]
      ensures Tails(s.pending)[t] != [] ==> Tails(s.pending)[t][0].sequence > base + offsets[t]
    {
      assert QueueKept(s.pending[t], t, s.last);
    }
    assert FramesKept(map[], offsets, s.last, base);
    PlaceQueuesKept(map[], Tails(s.pending), offsets, 0, s.last, base);
    SyncAccounts(s, built);
  }

  lemma {:induction false} LearnKeeps(s: State)
    requires WellFormed(s) && Learning(s)
    ensures Invariant(Learn(s).state) && Drained(Learn(s).state)
    decreases |s.pending[THROTTLE]|, 1
  {
    if s.pending[THROTTLE] != [] {
      var s1 := s.(pending := Aligned(s.pending, s.pending[THROTTLE][0].source));
      AlignedKept(s.pending, s.pending[THROTTLE][0].source, s.last);
      if AllQueued(s1.pending) {
        if Closed(s1.pending) && Missed(s1.pending) {
          SuffixKept(s1.pending[THROTTLE], 1, THROTTLE, s.last);
          LearnKeeps(GivenUp(s1));
        } else if Closed(s1.pending) || s1.candidate == Some(HeadOffsets(s1.pending)) {
          LearnBurstKeeps(s1);
        }
      }
    }
  }

  lemma {:induction false} LearnBurstKeeps(s: State)
    requires WellFormed(s) && Learning(s) && AllQueued(s.pending)
    ensures Invariant(LearnBurst(s).state) && Drained(LearnBurst(s).state)
    decreases |s.pending[THROTTLE]|, 0
  {
    var offsets := HeadOffsets(s.pending);
    var built := Build(Heads(s.pending));
    TailsKept(s.pending, s.last);
    if built == Data {
      LearnKeeps(Unclean(s));
    } else if s.candidate != Some(offsets) {
      LearnKeeps(Taught(s, built).(candidate := Some(offsets)));
    } else {
      SyncKeeps(s, built);
      DrainKeeps(Sync(Taught(s, built), offsets, s.pending[LIDAR][0].sequence, built));
    }
  }

  /** What learning hands out is exactly what the history of the new sync records. */
  lemma {:induction false} LearnRises(s: State)
    requires WellFormed(s) && Learning(s)
    ensures Rising(Ids(Learn(s).out))
    ensures Learn(s).state.synced ==> Learn(s).state.history.emitted == Ids(Learn(s).out)
    decreases |s.pending[THROTTLE]|, 1
  {
    if s.pending[THROTTLE] != [] {
      var s1 := s.(pending := Aligned(s.pending, s.pending[THROTTLE][0].source));
      AlignedKept(s.pending, s.pending[THROTTLE][0].source, s.last);
      if AllQueued(s1.pending) {
        if Closed(s1.pending) && Missed(s1.pending) {
          SuffixKept(s1.pending[THROTTLE], 1, THROTTLE, s.last);
          LearnRises(GivenUp(s1));
        } else if Closed(s1.pending) || s1.candidate == Some(HeadOffsets(s1.pending)) {
          LearnBurstRises(s1);
        }
      }
    }
  }

  lemma {:induction false} LearnBurstRises(s: State)
    requires WellFormed(s) && Learning(s) && AllQueued(s.pending)
    ensures Rising(Ids(LearnBurst(s).out))
    ensures LearnBurst(s).state.synced ==> LearnBurst(s).state.history.emitted == Ids(LearnBurst(s).out)
    decreases |s.pending[THROTTLE]|, 0
  {
    hide Drain, Build, Sync, Synced;
    var offsets := HeadOffsets(s.pending);
    var base := s.pending[LIDAR][0].sequence;
    var built := Build(Heads(s.pending));
    TailsKept(s.pending, s.last);
    if built == Data {
      LearnRises(Unclean(s));
    } else if s.candidate != Some(offsets) {
      LearnRises(Taught(s, built).(candidate := Some(offsets)));
    } else {
      SyncKeeps(s, built);
      var synced := Sync(Taught(s, built), offsets, base, built);
      var rest := Drain(synced).out;
      DrainRises(synced);
      if built == Stamps {
        assert [] + rest == rest;
        assert [] + Ids(rest) == Ids(rest);
      } else {
        EmittingRises(Emission(base, built.frame), rest, base - 1);
      }
    }
  }

  // --- one offer

  lemma KillAccounts(s: State, fid: int)
    requires WellFormed(s) && Accounted(s)
    requires fid !in s.history.emitted && (fid in s.dead <==> fid in s.history.dropped)
    ensures Accounted(Kill(s, fid))
  {
    assert Kill(s, fid).frames.Keys == s.frames.Keys - {fid};
  }

  lemma KillKeeps(s: State, fid: int)
    requires WellFormed(s) && Synced(s) && fid > s.history.front
    ensures WellFormed(Kill(s, fid)) && Synced(Kill(s, fid))
    ensures Kill(s, fid).last == s.last && Kill(s, fid).offsets == s.offsets
    ensures Kill(s, fid).history.front == s.history.front && Kill(s, fid).history.emitted == s.history.emitted
  {
    var r := Kill(s, fid);
    KillAccounts(s, fid);
    assert r.frames.Keys == s.frames.Keys - {fid};
    assert FramesKept(r.frames, r.offsets, r.last, r.history.front);
    assert forall d :: d in r.dead ==> d in s.dead || d == fid;
  }

  lemma {:induction false} KillRangeKeeps(s: State, offset: int, first: int, sequence: int)
    requires WellFormed(s) && Synced(s) && first - offset > s.history.front
    ensures var r := KillRange(s, offset, first, sequence);
      && WellFormed(r) && Synced(r) && r.last == s.last && r.offsets == s.offsets
      && r.history.front == s.history.front && r.history.emitted == s.history.emitted
    decreases sequence - first
  {
    if first < sequence {
      KillKeeps(s, first - offset);
      KillRangeKeeps(Kill(s, first - offset), offset, first + 1, sequence);
    }
  }

  lemma NotedKeeps(s: State, topic: Topic, sequence: int)
    requires WellFormed(s) && Synced(s) && sequence > s.last[topic]
    ensures WellFormed(Noted(s, topic, sequence)) && Synced(Noted(s, topic, sequence))
  {
    var r := Noted(s, topic, sequence);
    forall f | f in r.frames
      ensures PartsKept(r.frames[f], f, r.offsets, r.last)
    {
      assert PartsKept(s.frames[f], f, s.offsets, s.last);
    }
    assert Accounted(r);
  }

  lemma QueuedKeeps(s: State, topic: Topic, it: Item)
    requires WellFormed(s) && Learning(s)
    requires topic in s.last ==> it.sequence > s.last[topic]
    ensures WellFormed(Queued(Noted(s, topic, it.sequence), topic, it))
    ensures Learning(Queued(Noted(s, topic, it.sequence), topic, it))
  {
    var noted := Noted(s, topic, it.sequence);
    assert QueueKept(s.pending[topic], topic, s.last);
    var queue := s.pending[topic] + [it];
    assert QueueKept(queue, topic, noted.last);
    SuffixKept(queue, 1, topic, noted.last);
    forall t: nat | t < TOPICS
      ensures QueueKept(Queued(noted, topic, it).pending[t], t, noted.last)
    {
      assert QueueKept(s.pending[t], t, s.last);
    }
  }

  lemma PlacedAccounts(s: State, topic: Topic, it: Item, fid: int)
    requires WellFormed(s) && Accounted(s)
    requires fid !in s.history.emitted && fid !in s.history.dropped
    ensures Accounted(Placed(Seen(s, fid), fid, topic, it))
  {
    var r := Placed(Seen(s, fid), fid, topic, it);
    assert r.frames.Keys == s.frames.Keys + {fid};
  }

  lemma PlacedKeeps(s: State, topic: Topic, it: Item, fid: int)
    requires WellFormed(s) && Synced(s) && fid == it.sequence - s.offsets[topic]
    requires s.history.front < fid && it.sequence <= s.last[topic] && fid !in s.dead
    ensures var r := Placed(Seen(s, fid), fid, topic, it);
      WellFormed(r) && Synced(r) && r.history.front == s.history.front && r.history.emitted == s.history.emitted
  {
    var r := Placed(Seen(s, fid), fid, topic, it);
    PlacedAccounts(s, topic, it, fid);
    PlaceKept(s.frames, fid, topic, it, s.offsets, s.last, s.history.front);
  }

  lemma SeenDeadKeeps(s: State, fid: int)
    requires WellFormed(s) && Synced(s) && fid in s.dead
    ensures var r := Seen(s, fid);
      WellFormed(r) && Synced(r) && r.history.front == s.history.front && r.history.emitted == s.history.emitted
  {
    assert Accounted(Seen(s, fid));
  }

  /** What an offer to `s` promises of its result `r`. */
  ghost predicate OfferKept(s: State, r: Result) {
    && Invariant(r.state)
    && Drained(r.state)
    && Rising(Ids(r.out))
    && (s.synced ==> RisingPast(Ids(r.out), s.history.front))
    && (r.state.synced ==>
          r.state.history.emitted == (if s.synced then s.history.emitted else []) + Ids(r.out))
  }

  lemma DrainOffers(before: State, s: State)
    requires WellFormed(s) && Synced(s) && before.synced
    requires s.history.front == before.history.front && s.history.emitted == before.history.emitted
    ensures OfferKept(before, Drain(s))
  {
    DrainKeeps(s);
    DrainRises(s);
  }

  lemma ResyncOffers(before: State, s: State)
    requires WellFormed(s)
    ensures OfferKept(before, Result(Resync(s), []))
  {
    ResyncKeeps(s);
  }

  lemma LearnOffers(before: State, s: State)
    requires WellFormed(s) && Learning(s) && !before.synced
    ensures OfferKept(before, Learn(s))
  {
    LearnKeeps(s);
    LearnRises(s);
    assert [] + Ids(Learn(s).out) == Ids(Learn(s).out);
  }

  lemma OfferSyncedCases(s: State, topic: Topic, it: Item, fid: int)
    requires WellFormed(s) && fid == it.sequence - s.offsets[topic]
    ensures var placed := Placed(Seen(s, fid), fid, topic, it);
      OfferSynced(s, topic, it) ==
        if fid in s.dead then Drain(Seen(s, fid))
        else if |placed.frames| > MAX_FRAMES then Result(Resync(placed), [])
        else Drain(placed)
    ensures WellFormed(Placed(Seen(s, fid), fid, topic, it))
  {
    hide Drain;
  }

  lemma OfferSyncedKeeps(before: State, s: State, topic: Topic, it: Item, fid: int)
    requires WellFormed(s) && Synced(s) && before.synced
    requires s.history.front == before.history.front && s.history.emitted == before.history.emitted
    requires fid == it.sequence - s.offsets[topic]
    requires s.history.front < fid && it.sequence <= s.last[topic]
    ensures OfferKept(before, OfferSynced(s, topic, it))
  {
    hide *;
    var placed := Placed(Seen(s, fid), fid, topic, it);
    OfferSyncedCases(s, topic, it, fid);
    if fid in s.dead {
      SeenDeadKeeps(s, fid);
      DrainOffers(before, Seen(s, fid));
    } else if |placed.frames| > MAX_FRAMES {
      ResyncOffers(before, placed);
    } else {
      PlacedKeeps(s, topic, it, fid);
      DrainOffers(before, placed);
    }
  }

  lemma LoseKeeps(s: State, topic: Topic, first: int, sequence: int)
    requires WellFormed(s) && Synced(s) && first <= sequence
    requires first - s.offsets[topic] > s.history.front
    ensures var r := Lose(s, topic, first, sequence);
      && WellFormed(r) && Synced(r) && r.last == s.last && r.offsets == s.offsets
      && r.history.front == s.history.front && r.history.emitted == s.history.emitted
  {
    var counted := s.(lost := s.lost[topic := s.lost[topic] + (sequence - first)]);
    assert Accounted(counted);
    KillRangeKeeps(counted, s.offsets[topic], first, sequence);
  }

  lemma OfferNextCases(s: State, topic: Topic, it: Item)
    requires WellFormed(s)
    ensures var s1 := Noted(s, topic, it.sequence);
      OfferNext(s, topic, it) ==
        if !s.synced then Learn(Queued(s1, topic, it))
        else if topic in s.last && it.sequence > s.last[topic] + 1 then
          OfferSynced(Lose(s1, topic, s.last[topic] + 1, it.sequence), topic, it)
        else OfferSynced(s1, topic, it)
  {
    hide Drain, Learn, OfferSynced;
  }

  lemma OfferNextKeeps(s: State, topic: Topic, it: Item)
    requires Invariant(s)
    requires topic in s.last ==> it.sequence > s.last[topic]
    ensures OfferKept(s, OfferNext(s, topic, it))
  {
    hide Drain, Learn, OfferSynced, OfferNext, OfferKept, Lose, FramesKept, Accounted;
    var s1 := Noted(s, topic, it.sequence);
    var fid := it.sequence - s.offsets[topic];
    OfferNextCases(s, topic, it);
    if s.synced {
      NotedKeeps(s, topic, it.sequence);
      if it.sequence > s.last[topic] + 1 {
        LoseKeeps(s1, topic, s.last[topic] + 1, it.sequence);
        OfferSyncedKeeps(s, Lose(s1, topic, s.last[topic] + 1, it.sequence), topic, it, fid);
      } else {
        OfferSyncedKeeps(s, s1, topic, it, fid);
      }
    } else {
      QueuedKeeps(s, topic, it);
      LearnOffers(s, Queued(s1, topic, it));
    }
  }

  /** Whatever is offered in whatever state: the books stay balanced, the frames
      come out in the order of their ids, and what stays behind is incomplete. */
  lemma OfferKeeps(s: State, topic: Topic, it: Item)
    requires Invariant(s)
    ensures OfferKept(Fresh(s, topic, it), Offer(s, topic, it))
  {
    if topic in s.last && it.sequence <= s.last[topic] {
      ResyncKeeps(s);
    }
    OfferNextKeeps(Fresh(s, topic, it), topic, it);
  }

  /** Every state a run of any messages reaches from the start. */
  lemma {:induction false} RunKeeps(s: State, offers: seq<(Topic, Item)>)
    requires Invariant(s) && Drained(s)
    ensures Invariant(Run(s, offers).state) && Drained(Run(s, offers).state)
    decreases |offers|
  {
    if offers != [] {
      OfferKeeps(s, offers[0].0, offers[0].1);
      RunKeeps(Offer(s, offers[0].0, offers[0].1).state, offers[1..]);
    }
  }

  /** No buffered id is dead, so the drain's dead-frame branch is never taken. */
  lemma DeadNeverBuffered(offers: seq<(Topic, Item)>)
    ensures var s := Run(Initial(), offers).state; s.dead !! s.frames.Keys
  {
    RunKeeps(Initial(), offers);
  }
}
