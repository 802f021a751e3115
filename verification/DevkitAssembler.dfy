/**
 The assembler as the object it is: its methods update its fields, and each is
 proved to do exactly what DevkitSpec says of the state they make up.
 */
module DevkitAssembler {
  import opened Options
  import opened Sets
  import Spec = DevkitSpec
  import opened DevkitSpec

  function FramesIn(out: seq<Emission>): (r: seq<Frame>)
    ensures |r| == |out|
  {
    seq(|out|, i requires 0 <= i < |out| => out[i].frame)
  }

  lemma FramesInJoin(e: Emission, rest: seq<Emission>)
    ensures FramesIn([e] + rest) == [e.frame] + FramesIn(rest)
  {
  }

  lemma FramesInNext(a: seq<Emission>, e: Emission, rest: seq<Emission>)
    ensures FramesIn(a + [e]) == FramesIn(a) + [e.frame]
    ensures a + ([e] + rest) == (a + [e]) + rest
  {
  }

  lemma NoFrames()
    ensures FramesIn([]) == []
  {
  }

  class Assembler {
    var synced: bool
    var offsets: Offsets
    var candidate: Option<Offsets>
    var pending: seq<seq<Item>>
    var frames: Frames
    var dead: set<int>
    var last: map<Topic, int>
    var resyncs: nat
    var emitted: nat
    var droppedFrames: nat
    var learnDropped: nat
    var learnStampDropped: nat
    var stampDropped: nat
    var lost: seq<nat>
    var syncedAt: Option<int>
    ghost var history: History

    ghost function Abs(): State
      reads this
    {
      State(synced, offsets, candidate, pending, frames, dead, last, resyncs, droppedFrames,
            learnDropped, learnStampDropped, stampDropped, lost, syncedAt, history)
    }

    ghost predicate Valid()
      reads this
    {
      WellFormed(Abs())
    }

    constructor ()
      ensures Valid() && Abs() == Initial() && emitted == 0
    {
      resyncs, emitted, droppedFrames, learnDropped, learnStampDropped, stampDropped := 0, 0, 0, 0, 0, 0;
      lost, syncedAt := Zeros(), None;
      synced, offsets, candidate, pending := false, Zeros(), None, NoQueues();
      frames, dead, last := map[], {}, map[];
      history := NO_HISTORY;
    }

    method Resync()
      requires Valid()
      modifies this
      ensures Valid() && Abs() == Spec.Resync(old(Abs())) && emitted == old(emitted)
    {
      resyncs := resyncs + 1;
      synced, offsets, candidate, pending := false, Zeros(), None, NoQueues();
      frames, dead, last := map[], {}, map[];
      history := NO_HISTORY;
    }

    /** The frame `fid` dies, and is counted once. */
    method Kill(fid: int)
      requires Valid()
      modifies this
      ensures Valid() && Abs() == Spec.Kill(old(Abs()), fid)
      ensures emitted == old(emitted) && offsets == old(offsets)
    {
      if fid !in dead {
        dead := dead + {fid};
        droppedFrames := droppedFrames + 1;
        history := history.(dropped := history.dropped + {fid});
      }
      frames := frames - {fid};
    }

    /** The sequences from `first` up to `sequence` were lost: their frames die. */
    method Lose(topic: Topic, first: int, sequence: int)
      requires Valid() && first <= sequence
      modifies this
      ensures Valid() && Abs() == Spec.Lose(old(Abs()), topic, first, sequence) && emitted == old(emitted)
    {
      hide KillRange, Spec.Kill;
      lost := lost[topic := lost[topic] + (sequence - first)];
      ghost var goal := KillRange(Abs(), offsets[topic], first, sequence);
      var seqNo := first;
      while seqNo < sequence
        invariant first <= seqNo <= sequence
        invariant Valid() && emitted == old(emitted) && offsets == old(offsets)
        invariant KillRange(Abs(), offsets[topic], seqNo, sequence) == goal
      {
        KillRangeTurn(Abs(), offsets[topic], seqNo, sequence);
        Kill(seqNo - offsets[topic]);
        seqNo := seqNo + 1;
      }
      KillRangeTurn(Abs(), offsets[topic], seqNo, sequence);
    }

    /** A whole frame that fails the stamp checks alone is dropped alone. */
    method DropWhole(fid: int)
      requires Valid() && fid in frames
      modifies this
      ensures Valid() && Abs() == Taken(old(Abs()), fid, true) && emitted == old(emitted)
      ensures frames.Keys < old(frames).Keys
    {
      frames := frames - {fid};
      droppedFrames := droppedFrames + 1;
      stampDropped := stampDropped + 1;
      dead := DeadAfter(dead, fid);
      history := history.(dropped := history.dropped + {fid}, front := fid);
    }

    /** A whole frame whose data disagree restarts the assembler. */
    method Reject(fid: int)
      requires Valid() && fid in frames
      modifies this
      ensures Valid() && Abs() == Rejected(old(Abs()), fid) && emitted == old(emitted)
      ensures !synced && frames == map[]
    {
      frames := frames - {fid};
      droppedFrames := droppedFrames + 1;
      Resync();
    }

    method HandOut(fid: int)
      requires Valid() && fid in frames
      modifies this
      ensures Valid() && Abs() == Taken(old(Abs()), fid, false) && emitted == old(emitted)
      ensures frames.Keys < old(frames).Keys
    {
      frames := frames - {fid};
      dead := DeadAfter(dead, fid);
      history := history.(emitted := history.emitted + [fid], front := fid);
    }

    /** Hands out the oldest frames while they are whole. */
    method Drain() returns (out: seq<Frame>)
      requires Valid()
      modifies this
      ensures Valid() && Abs() == Spec.Drain(old(Abs())).state && out == FramesIn(Spec.Drain(old(Abs())).out)
      ensures emitted == old(emitted)
    {
      hide Spec.Drain, Build, FramesIn, Taken, Rejected;
      out := [];
      ghost var goal := Spec.Drain(Abs());
      ghost var taken: seq<Emission> := [];
      NoFrames();
      while synced && frames != map[]
        invariant Valid() && emitted == old(emitted)
        invariant out == FramesIn(taken)
        invariant goal == Result(Spec.Drain(Abs()).state, taken + Spec.Drain(Abs()).out)
        decreases frames.Keys
      {
        var fid := Minimum(frames.Keys);
        DrainTurn(Abs(), fid);
        if fid in dead {
          frames := frames - {fid};
        } else if |frames[fid]| < TOPICS {
          break;
        } else {
          match Build(frames[fid])
          case Stamps =>
            DropWhole(fid);
          case Data =>
            assert fid in frames.Keys;
            Reject(fid);
            DrainIdle(Abs());
          case Whole(frame) =>
            HandOut(fid);
            FramesInNext(taken, Emission(fid, frame), Spec.Drain(Abs()).out);
            out := out + [frame];
            taken := taken + [Emission(fid, frame)];
        }
      }
      if !synced || frames == map[] {
        DrainIdle(Abs());
      }
      assert taken + [] == taken;
    }

    /** Messages of earlier bursts leave the heads of every queue but throttle's. */
    method Align(t0: int)
      requires Valid()
      modifies this`pending
      ensures Valid() && pending == Aligned(old(pending), t0)
      ensures pending[THROTTLE] == old(pending)[THROTTLE]
    {
      ghost var was := pending;
      var t := 1;
      while t < TOPICS
        invariant 1 <= t <= TOPICS && |pending| == TOPICS
        invariant forall u :: 0 <= u < TOPICS ==> pending[u] == if 0 < u < t then DropEarlier(was[u], t0) else was[u]
      {
        var queue := pending[t];
        while queue != [] && queue[0].source < t0
          invariant DropEarlier(queue, t0) == DropEarlier(was[t], t0)
          decreases |queue|
        {
          queue := queue[1..];
        }
        pending := pending[t := queue];
        t := t + 1;
      }
    }

    /** The first burst's throttle is given up: a topic missed it. */
    method GiveUp()
      requires Valid() && AllQueued(pending)
      modifies this
      ensures Valid() && Abs() == GivenUp(old(Abs())) && emitted == old(emitted)
      ensures |pending[THROTTLE]| < |old(pending)[THROTTLE]|
    {
      pending := pending[THROTTLE := pending[THROTTLE][1..]];
      learnDropped := learnDropped + 1;
      candidate := None;
    }

    method RejectBurst()
      requires Valid() && AllQueued(pending)
      modifies this
      ensures Valid() && Abs() == Unclean(old(Abs())) && emitted == old(emitted)
      ensures |pending[THROTTLE]| < |old(pending)[THROTTLE]|
    {
      pending := Tails(pending);
      learnDropped := learnDropped + 1;
      candidate := None;
    }

    method TakeBurst(built: Built)
      requires Valid() && AllQueued(pending)
      modifies this
      ensures Valid() && Abs() == Taught(old(Abs()), built) && emitted == old(emitted)
      ensures candidate == old(candidate)
      ensures |pending[THROTTLE]| < |old(pending)[THROTTLE]|
    {
      pending := Tails(pending);
      if built == Stamps {
        learnStampDropped := learnStampDropped + 1;
      }
    }

    /** What is queued behind the confirming burst becomes frames. */
    method PlacePending(taught: Offsets)
      requires Valid() && |taught| == TOPICS
      modifies this`frames
      ensures Valid() && frames == PlaceQueues(old(frames), pending, taught, 0)
    {
      var t := 0;
      while t < TOPICS
        invariant 0 <= t <= TOPICS
        invariant PlaceQueues(frames, pending, taught, t) == PlaceQueues(old(frames), pending, taught, 0)
      {
        ghost var before := frames;
        var queue := pending[t];
        while queue != []
          invariant PlaceQueue(frames, t, queue, taught[t]) == PlaceQueue(before, t, pending[t], taught[t])
          decreases |queue|
        {
          frames := Place(frames, queue[0].sequence - taught[t], t, queue[0]);
          queue := queue[1..];
        }
        t := t + 1;
      }
    }

    /** Learning ends; the queues become frames. */
    method EndLearning(taught: Offsets, base: int, built: Built)
      requires Valid() && |taught| == TOPICS
      modifies this
      ensures Valid() && Abs() == Sync(old(Abs()), taught, base, built) && emitted == old(emitted)
    {
      hide PlaceQueues;
      offsets := taught;
      synced := true;
      syncedAt := Some(base);
      candidate := None;
      PlacePending(taught);
      pending := NoQueues();
      history := if built == Stamps then History(frames.Keys + {base}, [], {base}, droppedFrames, base)
                 else History(frames.Keys + {base}, [base], {}, droppedFrames, base);
      if built == Stamps {
        droppedFrames := droppedFrames + 1;
        stampDropped := stampDropped + 1;
      }
    }

    /** Aligns the queue heads to one burst until the offsets are confirmed. */
    method Learn() returns (out: seq<Frame>)
      requires Valid()
      modifies this
      ensures Valid() && Abs() == Spec.Learn(old(Abs())).state && out == FramesIn(Spec.Learn(old(Abs())).out)
      ensures emitted == old(emitted)
    {
      hide Spec.Drain, Spec.Learn, LearnBurst, Build, FramesIn, Sync, GivenUp, Unclean, Taught, Aligned, Missed,
           HeadOffsets, Heads;
      out := [];
      ghost var goal := Spec.Learn(Abs());
      NoFrames();
      while pending[THROTTLE] != []
        invariant Valid() && emitted == old(emitted)
        invariant out == []
        invariant goal == Spec.Learn(Abs())
        decreases |pending[THROTTLE]|
      {
        LearnTurn(Abs());
        Align(pending[THROTTLE][0].source);
        if !AllQueued(pending) {
          return;
        }
        if Closed(pending) && Missed(pending) {
          GiveUp();
          continue;
        }
        var taught := HeadOffsets(pending);
        if !Closed(pending) && candidate != Some(taught) {
          return;
        }
        var base := pending[LIDAR][0].sequence;
        var built := Build(Heads(pending));
        LearnBurstTurn(Abs());
        if built == Data {
          RejectBurst();
          continue;
        }
        TakeBurst(built);
        if candidate != Some(taught) {
          candidate := Some(taught);
          continue;
        }
        EndLearning(taught, base, built);
        ghost var rest := Spec.Drain(Abs()).out;
        var drained := Drain();
        if built == Stamps {
          assert [] + rest == rest;
          out := drained;
        } else {
          FramesInJoin(Emission(base, built.frame), rest);
          out := [built.frame] + drained;
        }
        return;
      }
      LearnTurn(Abs());
    }

    /** The message joins its frame, unless that frame is dead. */
    method OfferSynced(topic: Topic, it: Item) returns (out: seq<Frame>)
      requires Valid()
      modifies this
      ensures Valid() && emitted == old(emitted)
      ensures var r := Spec.OfferSynced(old(Abs()), topic, it); Abs() == r.state && out == FramesIn(r.out)
    {
      hide Spec.Drain, FramesIn;
      NoFrames();
      var fid := it.sequence - offsets[topic];
      history := history.(seen := history.seen + {fid});
      if fid in dead {
        out := Drain();
        return;
      }
      frames := Place(frames, fid, topic, it);
      if |frames| > MAX_FRAMES {
        Resync();
        return [];
      }
      out := Drain();
    }

    /** One message in, the frames it completes out. */
    method Offer(topic: Topic, value: Value, sourceStamp: int, sequence: int, headerStamp: int)
      returns (out: seq<Frame>)
      requires Valid()
      modifies this
      ensures Valid()
      ensures var r := Spec.Offer(old(Abs()), topic, Item(value, sourceStamp, sequence, headerStamp));
        Abs() == r.state && out == FramesIn(r.out)
      ensures emitted == old(emitted) + |out|
    {
      hide Spec.Drain, Spec.Learn, FramesIn, Spec.Lose, Spec.OfferSynced;
      var it := Item(value, sourceStamp, sequence, headerStamp);
      var previous := if topic in last then Some(last[topic]) else None;
      if previous.Some? && sequence <= previous.value {
        Resync();
        previous := None;
      }
      assert Abs() == Fresh(old(Abs()), topic, it);
      last := last[topic := sequence];
      if !synced {
        var queue := pending[topic] + [it];
        pending := pending[topic := if |queue| > MAX_FRAMES then queue[1..] else queue];
        out := Learn();
      } else {
        if previous.Some? && sequence > previous.value + 1 {
          Lose(topic, previous.value + 1, sequence);
        }
        out := OfferSynced(topic, it);
      }
      emitted := emitted + |out|;
    }
  }
}
