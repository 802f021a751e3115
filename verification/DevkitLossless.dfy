/**
 What a lossless stream gives, exactly: whatever the interleaving of the topics,
 every burst from the second on comes out, once, in order, as soon as it is whole.
 */
module DevkitLossless {
  import opened Options
  import opened Sets
  import opened DevkitSpec
  import opened DevkitPairing

  /** How far past what the assembler has read a topic may come to be. */
  const LEAD: nat := 64

  /** Every burst passes the sanity checks. */
  ghost predicate Clean(p: Publisher) {
    forall k: nat :: Sane(p, k)
  }

  function MinOf(n: seq<nat>): (m: nat)
    requires |n| > 0
    ensures (forall i :: 0 <= i < |n| ==> m <= n[i]) && exists i :: 0 <= i < |n| && n[i] == m
  {
    if |n| == 1 then n[0]
    else
      var rest := MinOf(n[1..]);
      assert forall i :: 1 <= i < |n| ==> n[i] == n[1..][i - 1];
      if n[0] < rest then n[0] else rest
  }

  function MaxOf(n: seq<nat>): (m: nat)
    requires |n| > 0
    ensures (forall i :: 0 <= i < |n| ==> n[i] <= m) && exists i :: 0 <= i < |n| && n[i] == m
  {
    if |n| == 1 then n[0]
    else
      var rest := MaxOf(n[1..]);
      assert forall i :: 1 <= i < |n| ==> n[i] == n[1..][i - 1];
      if n[0] > rest then n[0] else rest
  }

  /** Topic t's messages of bursts lo to hi. */
  function Messages(p: Publisher, t: Topic, lo: nat, hi: nat): (r: seq<Item>)
    requires lo <= hi
    ensures |r| == hi - lo && forall i :: 0 <= i < |r| ==> r[i] == p.msg(t, lo + i)
  {
    seq(hi - lo, i requires 0 <= i < hi - lo => p.msg(t, lo + i))
  }

  /** The messages of burst k that have arrived when n counts the deliveries. */
  function PartsAt(p: Publisher, n: seq<nat>, k: nat): (r: Parts)
    requires |n| == TOPICS
  {
    map t: Topic | 0 <= t < TOPICS && n[t] > k :: p.msg(t, k)
  }

  function Span(lo: int, hi: int): (r: set<int>)
    ensures forall x :: x in r <==> lo <= x < hi
    decreases hi - lo
  {
    if lo >= hi then {} else Span(lo, hi - 1) + {hi - 1}
  }

  function FramesBetween(p: Publisher, n: seq<nat>, first: int, end: int): (r: Frames)
    requires |p.base| == TOPICS && |n| == TOPICS && first >= p.base[LIDAR]
  {
    map f | f in Span(first, end) :: PartsAt(p, n, f - p.base[LIDAR])
  }

  /** The buffered frames of the bursts from lo on. */
  function FramesAt(p: Publisher, n: seq<nat>, lo: nat): (r: Frames)
    requires |p.base| == TOPICS && |n| == TOPICS
  {
    FramesBetween(p, n, p.base[LIDAR] + lo, p.base[LIDAR] + MaxOf(n))
  }

  /** The assembler's state, told by the counts alone. */
  ghost predicate Tracks(p: Publisher, s: State, n: seq<nat>)
    requires |p.base| == TOPICS && |n| == TOPICS
  {
    && WellFormed(s)
    && LastAt(p, s.last, n)
    && s.synced == (MinOf(n) >= 2)
    && s.dead == {}
    && if s.synced then s.offsets == TrueOffsets(p) && s.frames == FramesAt(p, n, MinOf(n))
       else
         && s.frames == map[]
         && (if MinOf(n) == 1 && n[THROTTLE] >= 2
             then s.candidate == Some(TrueOffsets(p)) && QueuesAt(p, s.pending, n, 1)
             else s.candidate == None && QueuesAt(p, s.pending, n, 0))
  }

  ghost predicate LastAt(p: Publisher, last: map<Topic, int>, n: seq<nat>)
    requires |p.base| == TOPICS && |n| == TOPICS
  {
    forall t: Topic ::
      if n[t] == 0 then t !in last else t in last && last[t] == p.base[t] + n[t] - 1
  }

  ghost predicate QueuesAt(p: Publisher, pending: seq<seq<Item>>, n: seq<nat>, lo: nat)
    requires |pending| == TOPICS && |n| == TOPICS
  {
    forall t: nat :: t < TOPICS ==> n[t] >= lo && pending[t] == Messages(p, t, lo, n[t])
  }

  // --- buffered frames

  lemma PlaceNext(p: Publisher, n: seq<nat>, lo: nat, t: Topic, fid: int)
    requires |p.base| == TOPICS && |n| == TOPICS && n[t] >= lo && fid == p.base[LIDAR] + n[t]
    ensures Place(FramesAt(p, n, lo), fid, t, p.msg(t, n[t])) == FramesAt(p, n[t := n[t] + 1], lo)
  {
    hide PartsAt, MaxOf;
    var next := n[t := n[t] + 1];
    var was := FramesAt(p, n, lo);
    var placed := Place(was, fid, t, p.msg(t, n[t]));
    MaxNext(n, t);
    assert placed.Keys == FramesAt(p, next, lo).Keys;
    forall f | f in placed
      ensures placed[f] == PartsAt(p, next, f - p.base[LIDAR])
    {
      if f == fid {
        PartsNext(p, n, t);
      } else {
        PartsSame(p, n, t, f - p.base[LIDAR]);
      }
    }
  }

  lemma PartsSame(p: Publisher, n: seq<nat>, t: Topic, k: nat)
    requires |n| == TOPICS && k != n[t]
    ensures PartsAt(p, n[t := n[t] + 1], k) == PartsAt(p, n, k)
  {
  }

  lemma MaxNext(n: seq<nat>, t: nat)
    requires |n| == TOPICS && t < TOPICS
    ensures MaxOf(n[t := n[t] + 1]) == if n[t] == MaxOf(n) then n[t] + 1 else MaxOf(n)
  {
    var n' := n[t := n[t] + 1];
    var i :| 0 <= i < |n| && n[i] == MaxOf(n);
    var j :| 0 <= j < |n'| && n'[j] == MaxOf(n');
    assert n'[i] <= MaxOf(n') && n[j] <= MaxOf(n) && n'[t] <= MaxOf(n');
  }

  lemma PartsNext(p: Publisher, n: seq<nat>, t: Topic)
    requires |n| == TOPICS
    ensures PartsAt(p, n, n[t])[t := p.msg(t, n[t])] == PartsAt(p, n[t := n[t] + 1], n[t])
    ensures n[t] == MaxOf(n) ==> PartsAt(p, n, n[t]) == map[]
  {
  }

  lemma PlaceQueueStep(frames: Frames, t: Topic, queue: seq<Item>, offset: int)
    ensures queue == [] ==> PlaceQueue(frames, t, queue, offset) == frames
    ensures queue != [] ==> (
      PlaceQueue(frames, t, queue, offset) ==
      PlaceQueue(Place(frames, queue[0].sequence - offset, t, queue[0]), t, queue[1..], offset))
  {
  }

  lemma OffsetAt(p: Publisher, t: Topic, k: nat)
    requires Publishes(p)
    ensures p.msg(t, k).sequence - TrueOffsets(p)[t] == p.base[LIDAR] + k
  {
  }

  lemma {:induction false} PlaceQueueAt(p: Publisher, n: seq<nat>, lo: nat, t: Topic, hi: nat)
    requires |p.base| == TOPICS && Publishes(p) && |n| == TOPICS && lo <= n[t] <= hi
    ensures PlaceQueue(FramesAt(p, n, lo), t, Messages(p, t, n[t], hi), TrueOffsets(p)[t]) ==
      FramesAt(p, n[t := hi], lo)
    decreases hi - n[t]
  {
    hide FramesAt, Place, PlaceQueue, Publishes, TrueOffsets;
    var queue := Messages(p, t, n[t], hi);
    PlaceQueueStep(FramesAt(p, n, lo), t, queue, TrueOffsets(p)[t]);
    if n[t] == hi {
      assert n[t := hi] == n;
    } else {
      var next := n[t := n[t] + 1];
      OffsetAt(p, t, n[t]);
      PlaceNext(p, n, lo, t, p.base[LIDAR] + n[t]);
      assert queue[1..] == Messages(p, t, n[t] + 1, hi);
      PlaceQueueAt(p, next, lo, t, hi);
      assert next[t := hi] == n[t := hi];
    }
  }

  /** The first t counts taken from n, the others still lo. */
  function Partly(n: seq<nat>, lo: nat, t: nat): (r: seq<nat>)
    requires |n| == TOPICS && t <= TOPICS
    ensures |r| == TOPICS
  {
    seq(TOPICS, i requires 0 <= i < TOPICS => if i < t then n[i] else lo)
  }

  lemma {:induction false} PlaceQueuesAt(p: Publisher, pending: seq<seq<Item>>, n: seq<nat>, lo: nat, t: nat)
    requires |p.base| == TOPICS && Publishes(p) && |pending| == TOPICS && |n| == TOPICS && t <= TOPICS
    requires QueuesAt(p, pending, n, lo)
    ensures PlaceQueues(FramesAt(p, Partly(n, lo, t), lo), pending, TrueOffsets(p), t) == FramesAt(p, n, lo)
    decreases TOPICS - t
  {
    hide FramesAt, PlaceQueue, Publishes;
    if t == TOPICS {
      assert Partly(n, lo, t) == n;
    } else {
      PlaceQueueAt(p, Partly(n, lo, t), lo, t, n[t]);
      assert Partly(n, lo, t)[t := n[t]] == Partly(n, lo, t + 1);
      PlaceQueuesAt(p, pending, n, lo, t + 1);
    }
  }

  lemma NothingPlaced(p: Publisher, n: seq<nat>, lo: nat)
    requires |p.base| == TOPICS && |n| == TOPICS
    ensures FramesAt(p, Partly(n, lo, 0), lo) == map[]
  {
  }

  // --- draining

  /** How many bursts the assembler has read: handed out once synced, taken off the
      queues while learning. */
  function Past(n: seq<nat>): (r: nat)
    requires |n| == TOPICS
    ensures r <= MinOf(n)
  {
    if MinOf(n) >= 2 then MinOf(n) else if MinOf(n) == 1 && n[THROTTLE] >= 2 then 1 else 0
  }

  /** What a lossless delivery hands out when the slowest count becomes m. */
  function BurstOut(p: Publisher, m: nat): seq<Emission>
    requires |p.base| == TOPICS && m >= 1
  {
    [Emission(p.base[LIDAR] + (m - 1), FrameOf(Burst(p, m - 1)))]
  }

  lemma {:induction false} SpanSize(lo: int, hi: int)
    ensures |Span(lo, hi)| == if lo <= hi then hi - lo else 0
    decreases hi - lo
  {
    if lo < hi {
      SpanSize(lo, hi - 1);
    }
  }

  lemma FramesAtSize(p: Publisher, n: seq<nat>, lo: nat)
    requires |p.base| == TOPICS && |n| == TOPICS && lo <= MaxOf(n)
    ensures |FramesAt(p, n, lo)| == MaxOf(n) - lo
  {
    var first, end := p.base[LIDAR] + lo, p.base[LIDAR] + MaxOf(n);
    SpanSize(first, end);
    assert FramesAt(p, n, lo).Keys == Span(first, end);
  }

  lemma CompleteSize(parts: Parts)
    requires Complete(parts)
    ensures |parts| >= TOPICS
  {
    ghost var keys: set<nat> := set t | t in parts.Keys;
    assert keys == parts.Keys;
    SubsetSize(Below(TOPICS), keys);
  }

  lemma LeastAt(p: Publisher, n: seq<nat>, lo: nat, frames: Frames)
    requires |p.base| == TOPICS && |n| == TOPICS && frames == FramesAt(p, n, lo)
    ensures frames == map[] <==> lo >= MaxOf(n)
    ensures frames != map[] ==>
      Least(frames.Keys) == p.base[LIDAR] + lo && frames[p.base[LIDAR] + lo] == PartsAt(p, n, lo)
    ensures frames - {p.base[LIDAR] + lo} == FramesAt(p, n, lo + 1)
  {
    hide PartsAt, MaxOf;
    if lo < MaxOf(n) {
      assert p.base[LIDAR] + lo in frames;
    } else {
      assert frames.Keys == {};
    }
  }

  lemma PartsShort(p: Publisher, n: seq<nat>)
    requires |n| == TOPICS
    ensures |PartsAt(p, n, MinOf(n))| < TOPICS
  {
    var parts := PartsAt(p, n, MinOf(n));
    var t :| 0 <= t < |n| && n[t] == MinOf(n);
    var topic: Topic := t;
    assert topic !in parts;
    assert !Complete(parts);
    if |parts| >= TOPICS {
      FullParts(parts);
    }
  }

  lemma PartsWhole(p: Publisher, n: seq<nat>, k: nat)
    requires |n| == TOPICS && k < MinOf(n)
    ensures PartsAt(p, n, k) == Burst(p, k) && |PartsAt(p, n, k)| >= TOPICS
  {
    CompleteSize(Burst(p, k));
  }

  /** The oldest buffered burst still misses a message. */
  lemma DrainStops(p: Publisher, s: State, n: seq<nat>)
    requires |p.base| == TOPICS && |n| == TOPICS && WellFormed(s) && s.synced
    requires s.dead == {} && s.frames == FramesAt(p, n, MinOf(n))
    ensures Drain(s) == Result(s, [])
  {
    hide Drain, FramesAt, PartsAt, Build, Taken, Rejected, MinOf, WellFormed;
    LeastAt(p, n, MinOf(n), s.frames);
    if s.frames == map[] {
      DrainIdle(s);
    } else {
      PartsShort(p, n);
      DrainTurn(s, Least(s.frames.Keys));
    }
  }

  /** The oldest buffered burst has just become whole. */
  lemma DrainOne(p: Publisher, s: State, n: seq<nat>, m: nat)
    requires |p.base| == TOPICS && Clean(p) && |n| == TOPICS && WellFormed(s) && s.synced
    requires MinOf(n) == m + 1 && s.dead == {} && s.frames == FramesAt(p, n, m)
    ensures Drain(s) == Result(Taken(s, p.base[LIDAR] + m, false), BurstOut(p, m + 1))
    ensures Drain(s).state.frames == FramesAt(p, n, m + 1)
  {
    hide Drain, FramesAt, PartsAt, Build, Clean, MinOf, Rejected, Burst, FrameOf;
    var fid := p.base[LIDAR] + m;
    LeastAt(p, n, m, s.frames);
    PartsWhole(p, n, m);
    BuildIsFrame(p, m);
    DrainTurn(s, fid);
    var taken := Taken(s, fid, false);
    DrainStops(p, taken, n);
    assert [Emission(fid, FrameOf(Burst(p, m)))] + [] == BurstOut(p, m + 1);
  }

  lemma BuildIsFrame(p: Publisher, k: nat)
    requires Clean(p)
    ensures Build(Burst(p, k)) == Whole(FrameOf(Burst(p, k)))
  {
    hide Build, Sane, FrameOf;
    BuildExact(p, k);
  }

  // --- learning

  lemma AlignedAt(p: Publisher, pending: seq<seq<Item>>, n: seq<nat>, lo: nat)
    requires Publishes(p) && |pending| == TOPICS && |n| == TOPICS && QueuesAt(p, pending, n, lo)
    requires pending[THROTTLE] != []
    ensures Aligned(pending, pending[THROTTLE][0].source) == pending
  {
    var t0 := pending[THROTTLE][0].source;
    forall t: nat | t < TOPICS
      ensures Aligned(pending, t0)[t] == pending[t]
    {
      assert pending[t] != [] ==> pending[t][0] == p.msg(t, lo);
    }
  }

  lemma QueuedAt(p: Publisher, pending: seq<seq<Item>>, n: seq<nat>, lo: nat)
    requires |pending| == TOPICS && |n| == TOPICS && QueuesAt(p, pending, n, lo)
    ensures AllQueued(pending) <==> MinOf(n) > lo
    ensures Closed(pending) <==> n[THROTTLE] > lo + 1
    ensures AllQueued(pending) ==> HeadsOf(p, pending, lo)
  {
    var i :| 0 <= i < |n| && n[i] == MinOf(n);
    assert pending[i] == Messages(p, i, lo, n[i]);
  }

  lemma TailsAt(p: Publisher, pending: seq<seq<Item>>, n: seq<nat>, lo: nat)
    requires |pending| == TOPICS && |n| == TOPICS && QueuesAt(p, pending, n, lo) && AllQueued(pending)
    ensures QueuesAt(p, Tails(pending), n, lo + 1)
  {
    forall t: nat | t < TOPICS
      ensures n[t] >= lo + 1 && Tails(pending)[t] == Messages(p, t, lo + 1, n[t])
    {
      assert pending[t] == Messages(p, t, lo, n[t]);
    }
  }

  lemma NotMissedAt(p: Publisher, pending: seq<seq<Item>>, n: seq<nat>, lo: nat)
    requires Publishes(p) && |pending| == TOPICS && |n| == TOPICS && QueuesAt(p, pending, n, lo)
    requires AllQueued(pending) && Closed(pending)
    ensures !Missed(pending)
  {
    forall t | 0 < t < TOPICS
      ensures pending[t][0].source < pending[THROTTLE][1].source
    {
      assert pending[t][0] == p.msg(t, lo);
      assert pending[THROTTLE][1] == p.msg(THROTTLE, lo + 1);
    }
  }

  /** Burst 1 confirms the offsets burst 0 taught. */
  lemma SyncAt(p: Publisher, s: State, n: seq<nat>)
    requires |p.base| == TOPICS && Publishes(p) && Clean(p) && |n| == TOPICS && WellFormed(s) && LastAt(p, s.last, n)
    requires s.frames == map[] && s.dead == {} && MinOf(n) == 2
    requires s.candidate == Some(TrueOffsets(p)) && QueuesAt(p, s.pending, n, 1) && AllQueued(s.pending)
    ensures Tracks(p, LearnBurst(s).state, n) && LearnBurst(s).out == BurstOut(p, 2)
  {
    hide Publishes, Build, Clean, Drain, FramesAt, PlaceQueues, QueuesAt, LastAt, MinOf, HeadsOf, TrueOffsets;
    QueuedAt(p, s.pending, n, 1);
    HeadsTeach(p, s.pending, 1);
    TailsAt(p, s.pending, n, 1);
    BuildIsFrame(p, 1);
    var base := p.base[LIDAR] + 1;
    var built := Build(Burst(p, 1));
    NothingPlaced(p, n, 2);
    PlaceQueuesAt(p, Tails(s.pending), n, 2, 0);
    var synced := Sync(Taught(s, built), TrueOffsets(p), base, built);
    DrainStops(p, synced, n);
    assert LearnBurst(s).out == [Emission(base, built.frame)] + [];
  }

  lemma LearnSecond(p: Publisher, s: State, n: seq<nat>)
    requires |p.base| == TOPICS && Publishes(p) && Clean(p) && |n| == TOPICS && WellFormed(s) && LastAt(p, s.last, n)
    requires !s.synced && s.frames == map[] && s.dead == {} && 1 <= MinOf(n) <= 2 && n[THROTTLE] >= 2
    requires s.candidate == Some(TrueOffsets(p)) && QueuesAt(p, s.pending, n, 1)
    ensures Tracks(p, Learn(s).state, n)
    ensures Learn(s).out == if MinOf(n) == 2 then BurstOut(p, 2) else []
  {
    hide Publishes, Build, Clean, LearnBurst, Missed, FramesAt, LastAt;
    assert s.pending[THROTTLE] == Messages(p, THROTTLE, 1, n[THROTTLE]);
    AlignedAt(p, s.pending, n, 1);
    var s1 := s.(pending := Aligned(s.pending, s.pending[THROTTLE][0].source));
    assert s1 == s;
    QueuedAt(p, s.pending, n, 1);
    if MinOf(n) == 2 {
      if Closed(s.pending) {
        NotMissedAt(p, s.pending, n, 1);
      }
      HeadsTeach(p, s.pending, 1);
      SyncAt(p, s, n);
    }
  }

  /** Burst 0, closed by the next throttle, teaches the offsets. */
  lemma LearnFirstBurst(p: Publisher, s: State, n: seq<nat>)
    requires |p.base| == TOPICS && Publishes(p) && Clean(p) && |n| == TOPICS && WellFormed(s) && LastAt(p, s.last, n)
    requires !s.synced && s.frames == map[] && s.dead == {} && 1 <= MinOf(n) <= 2 && n[THROTTLE] >= 2
    requires s.candidate == None && QueuesAt(p, s.pending, n, 0) && AllQueued(s.pending)
    ensures Tracks(p, LearnBurst(s).state, n)
    ensures LearnBurst(s).out == if MinOf(n) == 2 then BurstOut(p, 2) else []
  {
    hide Publishes, Build, Clean, FramesAt, LastAt, Drain, Sync, Learn, Tracks, QueuesAt;
    QueuedAt(p, s.pending, n, 0);
    HeadsTeach(p, s.pending, 0);
    BuildIsFrame(p, 0);
    TailsAt(p, s.pending, n, 0);
    LearnSecond(p, Taught(s, Build(Burst(p, 0))).(candidate := Some(TrueOffsets(p))), n);
  }

  lemma LearnFirst(p: Publisher, s: State, n: seq<nat>)
    requires |p.base| == TOPICS && Publishes(p) && Clean(p) && |n| == TOPICS && WellFormed(s) && LastAt(p, s.last, n)
    requires !s.synced && s.frames == map[] && s.dead == {} && MinOf(n) <= 2
    requires s.candidate == None && QueuesAt(p, s.pending, n, 0)
    requires MinOf(n) == 2 ==> n[THROTTLE] >= 2
    ensures Tracks(p, Learn(s).state, n)
    ensures Learn(s).out == if MinOf(n) == 2 then BurstOut(p, 2) else []
  {
    hide Publishes, Build, Clean, Missed, FramesAt, LastAt, LearnBurst;
    assert s.pending[THROTTLE] == Messages(p, THROTTLE, 0, n[THROTTLE]);
    if n[THROTTLE] > 0 {
      AlignedAt(p, s.pending, n, 0);
      var s1 := s.(pending := Aligned(s.pending, s.pending[THROTTLE][0].source));
      assert s1 == s;
      QueuedAt(p, s.pending, n, 0);
      if MinOf(n) > 0 && n[THROTTLE] > 1 {
        NotMissedAt(p, s.pending, n, 0);
        LearnFirstBurst(p, s, n);
      }
    }
  }

  // --- one delivery, and a run

  function Next(n: seq<nat>, t: Topic): (r: seq<nat>)
    requires |n| == TOPICS
    ensures |r| == TOPICS
  {
    n[t := n[t] + 1]
  }

  lemma MinNext(n: seq<nat>, t: Topic)
    requires |n| == TOPICS
    ensures MinOf(n) <= MinOf(Next(n, t)) <= MinOf(n) + 1
  {
    var i :| 0 <= i < |n| && n[i] == MinOf(n);
    var j :| 0 <= j < |n| && Next(n, t)[j] == MinOf(Next(n, t));
    assert Next(n, t)[i] >= MinOf(Next(n, t)) && n[j] >= MinOf(n);
  }

  lemma QueuedNext(p: Publisher, s: State, n: seq<nat>, lo: nat, t: Topic)
    requires Publishes(p) && WellFormed(s) && |n| == TOPICS && QueuesAt(p, s.pending, n, lo)
    requires n[t] + 1 - lo <= LEAD
    ensures QueuesAt(p, Queued(s, t, p.msg(t, n[t])).pending, Next(n, t), lo)
  {
    assert s.pending[t] == Messages(p, t, lo, n[t]);
    assert s.pending[t] + [p.msg(t, n[t])] == Messages(p, t, lo, n[t] + 1);
    var r := Queued(s, t, p.msg(t, n[t]));
    forall u: nat | u < TOPICS
      ensures Next(n, t)[u] >= lo && r.pending[u] == Messages(p, u, lo, Next(n, t)[u])
    {
      assert s.pending[u] == Messages(p, u, lo, n[u]);
    }
  }

  /** What the delivery that moves the counts from n hands out. */
  function Gained(p: Publisher, n: seq<nat>, t: Topic): seq<Emission>
    requires |p.base| == TOPICS && |n| == TOPICS
  {
    if MinOf(Next(n, t)) > MinOf(n) && MinOf(Next(n, t)) >= 2 then BurstOut(p, MinOf(Next(n, t))) else []
  }

  lemma NotedAt(p: Publisher, s: State, n: seq<nat>, t: Topic)
    requires Publishes(p) && |n| == TOPICS && LastAt(p, s.last, n)
    ensures LastAt(p, Noted(s, t, p.msg(t, n[t]).sequence).last, Next(n, t))
    ensures t in s.last ==> p.msg(t, n[t]).sequence == s.last[t] + 1
  {
  }

  /** While learning, the delivered message is queued and the queues are read. */
  lemma DeliverLearning(p: Publisher, s: State, n: seq<nat>, t: Topic)
    requires |p.base| == TOPICS && Publishes(p) && Clean(p) && |n| == TOPICS && Tracks(p, s, n) && !s.synced
    requires n[t] + 1 <= Past(n) + LEAD
    ensures var r := Learn(Queued(Noted(s, t, p.msg(t, n[t]).sequence), t, p.msg(t, n[t])));
      Tracks(p, r.state, Next(n, t)) && r.out == Gained(p, n, t)
  {
    hide Publishes, Clean, Learn, QueuesAt, FramesAt, LastAt, TrueOffsets, MinOf, BurstOut;
    var s1 := Noted(s, t, p.msg(t, n[t]).sequence);
    NotedAt(p, s, n, t);
    MinNext(n, t);
    MinAt(n, THROTTLE);
    MinAt(Next(n, t), THROTTLE);
    if MinOf(n) == 1 && n[THROTTLE] >= 2 {
      QueuedNext(p, s1, n, 1, t);
      LearnSecond(p, Queued(s1, t, p.msg(t, n[t])), Next(n, t));
    } else {
      QueuedNext(p, s1, n, 0, t);
      LearnFirst(p, Queued(s1, t, p.msg(t, n[t])), Next(n, t));
    }
  }

  lemma MinAt(n: seq<nat>, t: Topic)
    requires |n| == TOPICS
    ensures MinOf(n) <= n[t]
  {
  }

  /** No topic is more than 64 bursts past what the assembler has read. */
  ghost predicate Close(n: seq<nat>)
    requires |n| == TOPICS
  {
    MaxOf(n) <= Past(n) + LEAD
  }

  lemma CloseNext(n: seq<nat>, t: Topic)
    requires |n| == TOPICS && Close(n)
    ensures Past(n) <= MaxOf(Next(n, t)) && n[t] <= Past(n) + LEAD
    ensures n[t] + 1 <= Past(n) + LEAD <==> MaxOf(Next(n, t)) <= Past(n) + LEAD
    ensures n[t] + 1 <= Past(n) + LEAD ==> Close(Next(n, t))
  {
    MinNext(n, t);
    MaxNext(n, t);
    MinAt(n, t);
    assert n[t] <= MaxOf(n);
  }

  /** The message has joined its frame: the oldest frame may go. */
  lemma DrainPlaced(p: Publisher, placed: State, n: seq<nat>, next: seq<nat>)
    requires |p.base| == TOPICS && Clean(p) && |n| == TOPICS && |next| == TOPICS && WellFormed(placed)
    requires placed.synced && placed.dead == {} && placed.offsets == TrueOffsets(p) && LastAt(p, placed.last, next)
    requires 2 <= MinOf(n) <= MinOf(next) <= MinOf(n) + 1 && placed.frames == FramesAt(p, next, MinOf(n))
    ensures Tracks(p, Drain(placed).state, next)
    ensures Drain(placed).out == if MinOf(next) > MinOf(n) then BurstOut(p, MinOf(next)) else []
  {
    hide Clean, Drain, FramesAt, LastAt, TrueOffsets, MinOf, BurstOut, WellFormed, DeadAfter;
    if MinOf(next) == MinOf(n) {
      DrainStops(p, placed, next);
    } else {
      DrainOne(p, placed, next, MinOf(n));
      DeadAfterNone(p.base[LIDAR] + MinOf(n));
    }
  }

  /** Once synced, the message joins its frame and the oldest frame may go. */
  lemma DeliverSynced(p: Publisher, s: State, n: seq<nat>, t: Topic, fid: int)
    requires |p.base| == TOPICS && Publishes(p) && Clean(p) && |n| == TOPICS && Tracks(p, s, n) && s.synced
    requires Close(n) && n[t] + 1 <= Past(n) + LEAD && fid == p.base[LIDAR] + n[t]
    ensures var placed := Placed(Seen(Noted(s, t, p.msg(t, n[t]).sequence), fid), fid, t, p.msg(t, n[t]));
      && |placed.frames| <= LEAD && Tracks(p, Drain(placed).state, Next(n, t))
      && Drain(placed).out == Gained(p, n, t)
  {
    hide Publishes, Clean, Drain, FramesAt, LastAt, TrueOffsets, MinOf, MaxOf, BurstOut, Place, WellFormed;
    NotedAt(p, s, n, t);
    MinNext(n, t);
    MinAt(n, t);
    CloseNext(n, t);
    PlaceNext(p, n, MinOf(n), t, fid);
    FramesAtSize(p, Next(n, t), MinOf(n));
    DrainPlaced(p, Placed(Seen(Noted(s, t, p.msg(t, n[t]).sequence), fid), fid, t, p.msg(t, n[t])), n, Next(n, t));
  }

  lemma DeadAfterNone(fid: int)
    ensures DeadAfter({}, fid) == {}
  {
  }

  lemma Deliver(p: Publisher, s: State, n: seq<nat>, t: Topic)
    requires |p.base| == TOPICS && Publishes(p) && Clean(p) && |n| == TOPICS && Tracks(p, s, n)
    requires Close(n) && n[t] + 1 <= Past(n) + LEAD
    ensures var r := Offer(s, t, p.msg(t, n[t])); Tracks(p, r.state, Next(n, t)) && r.out == Gained(p, n, t)
  {
    hide Clean, Drain, Learn, FramesAt, LastAt, MinOf, MaxOf, BurstOut, Place, DeadAfter, Gained, Close;
    var it := p.msg(t, n[t]);
    var fid := p.base[LIDAR] + n[t];
    NotedAt(p, s, n, t);
    assert Fresh(s, t, it) == s;
    if s.synced {
      assert it.sequence - s.offsets[t] == fid;
      DeliverSynced(p, s, n, t, fid);
    } else {
      DeliverLearning(p, s, n, t);
    }
  }

  // --- the lead a topic may have

  ghost predicate Queueless(s: State) {
    forall t :: 0 <= t < |s.pending| ==> s.pending[t] == []
  }

  /** Draining leaves the queues empty that learning emptied. */
  lemma {:induction false} DrainQueueless(s: State)
    requires WellFormed(s) && Queueless(s)
    ensures Queueless(Drain(s).state)
    decreases s.frames.Keys
  {
    hide Build, Drain;
    if !s.synced || s.frames == map[] {
      DrainIdle(s);
    } else {
      var fid := Least(s.frames.Keys);
      DrainTurn(s, fid);
      if fid in s.dead {
        DrainQueueless(s.(frames := s.frames - {fid}));
      } else if |s.frames[fid]| >= TOPICS {
        match Build(s.frames[fid])
        case Stamps => DrainQueueless(Taken(s, fid, true));
        case Data =>
        case Whole(frame) => DrainQueueless(Taken(s, fid, false));
      }
    }
  }

  /** No queue of r is longer than it was in s. */
  ghost predicate NoLonger(s: State, r: State) {
    |r.pending| == |s.pending| && forall t :: 0 <= t < |s.pending| ==> |r.pending[t]| <= |s.pending[t]|
  }

  lemma {:induction false} DropShortens(queue: seq<Item>, t0: int)
    ensures |DropEarlier(queue, t0)| <= |queue|
    decreases |queue|
  {
    if queue != [] && queue[0].source < t0 {
      DropShortens(queue[1..], t0);
    }
  }

  lemma AlignShortens(s: State, t0: int)
    requires WellFormed(s)
    ensures NoLonger(s, s.(pending := Aligned(s.pending, t0)))
  {
    forall t | 0 <= t < TOPICS
      ensures |Aligned(s.pending, t0)[t]| <= |s.pending[t]|
    {
      DropShortens(s.pending[t], t0);
    }
  }

  /** Learning only takes from the queues. */
  lemma {:induction false} LearnShortens(s: State)
    requires WellFormed(s)
    ensures NoLonger(s, Learn(s).state)
    decreases |s.pending[THROTTLE]|, 1
  {
    hide Aligned, Learn, LearnBurst, DropEarlier, HeadOffsets, Build, Missed;
    LearnTurn(s);
    if s.pending[THROTTLE] != [] {
      var t0 := s.pending[THROTTLE][0].source;
      var s1 := s.(pending := Aligned(s.pending, t0));
      AlignShortens(s, t0);
      if AllQueued(s1.pending) {
        if Closed(s1.pending) && Missed(s1.pending) {
          LearnShortens(GivenUp(s1));
        } else if Closed(s1.pending) || s1.candidate == Some(HeadOffsets(s1.pending)) {
          LearnBurstShortens(s1);
        }
      }
    }
  }

  lemma {:induction false} LearnBurstShortens(s: State)
    requires WellFormed(s) && AllQueued(s.pending)
    ensures NoLonger(s, LearnBurst(s).state)
    decreases |s.pending[THROTTLE]|, 0
  {
    hide Learn, LearnBurst, HeadOffsets, Build, Drain, PlaceQueues, Heads;
    LearnBurstTurn(s);
    var offsets := HeadOffsets(s.pending);
    var built := Build(Heads(s.pending));
    if built == Data {
      LearnShortens(Unclean(s));
    } else if s.candidate != Some(offsets) {
      LearnShortens(Taught(s, built).(candidate := Some(offsets)));
    } else {
      DrainQueueless(Sync(Taught(s, built), offsets, s.pending[LIDAR][0].sequence, built));
    }
  }

  /** A topic 64 bursts ahead while learning: the oldest of its messages is let go. */
  lemma LearningTooFar(p: Publisher, s: State, n: seq<nat>, t: Topic)
    requires |p.base| == TOPICS && Publishes(p) && |n| == TOPICS && Tracks(p, s, n) && !s.synced
    requires n[t] == Past(n) + LEAD
    ensures !Tracks(p, Learn(Queued(Noted(s, t, p.msg(t, n[t]).sequence), t, p.msg(t, n[t]))).state, Next(n, t))
  {
    hide Publishes, Learn, FramesAt, LastAt, TrueOffsets, MinOf;
    var full := Queued(Noted(s, t, p.msg(t, n[t]).sequence), t, p.msg(t, n[t]));
    LearnShortens(full);
    MinUnmoved(n, t);
    assert s.pending[t] == Messages(p, t, Past(n), n[t]);
    assert |full.pending[t]| == LEAD;
  }

  lemma MinUnmoved(n: seq<nat>, t: Topic)
    requires |n| == TOPICS && MinOf(n) < n[t]
    ensures MinOf(Next(n, t)) == MinOf(n)
  {
    var i :| 0 <= i < |n| && n[i] == MinOf(n);
    assert Next(n, t)[i] == MinOf(n);
    MinNext(n, t);
  }

  /** An expected message of a synced assembler joins its frame, or is one too many. */
  lemma OfferJoins(s: State, t: Topic, it: Item, fid: int)
    requires WellFormed(s) && s.synced && s.dead == {} && fid == it.sequence - s.offsets[t]
    requires t in s.last ==> it.sequence == s.last[t] + 1
    ensures var placed := Placed(Seen(Noted(s, t, it.sequence), fid), fid, t, it);
      Offer(s, t, it) == if |placed.frames| > LEAD then Result(Resync(placed), []) else Drain(placed)
  {
    hide Drain, Place;
  }

  /** A topic 64 bursts ahead once synced: its message makes a 65th frame. */
  lemma SyncedTooFar(p: Publisher, s: State, n: seq<nat>, t: Topic)
    requires |p.base| == TOPICS && Publishes(p) && |n| == TOPICS && Tracks(p, s, n) && s.synced
    requires Close(n) && n[t] == Past(n) + LEAD
    ensures var r := Offer(s, t, p.msg(t, n[t]));
      !r.state.synced && r.state.resyncs == s.resyncs + 1 && r.out == [] && !Tracks(p, r.state, Next(n, t))
  {
    hide Publishes, Drain, FramesAt, LastAt, MinOf, MaxOf, Place, TrueOffsets, Offer, Close;
    var it := p.msg(t, n[t]);
    var fid := p.base[LIDAR] + n[t];
    NotedAt(p, s, n, t);
    MinNext(n, t);
    CloseNext(n, t);
    OffsetAt(p, t, n[t]);
    PlaceNext(p, n, MinOf(n), t, fid);
    FramesAtSize(p, Next(n, t), MinOf(n));
    OfferJoins(s, t, it, fid);
  }

  /** The lead is exact: a topic's next burst is taken as a lossless stream's exactly
      when it is no more than 64 past what the assembler has read. One more restarts
      a synced assembler, and makes a learning one forget. */
  lemma LeadExact(p: Publisher, s: State, n: seq<nat>, t: Topic)
    requires |p.base| == TOPICS && Publishes(p) && Clean(p) && |n| == TOPICS && Tracks(p, s, n) && Close(n)
    ensures var r := Offer(s, t, p.msg(t, n[t]));
      && (n[t] + 1 <= Past(n) + LEAD <==> Tracks(p, r.state, Next(n, t)))
      && (n[t] + 1 <= Past(n) + LEAD ==> r.out == Gained(p, n, t))
      && (n[t] + 1 > Past(n) + LEAD && s.synced ==> r.state.resyncs == s.resyncs + 1 && r.out == [])
  {
    hide Clean, Offer, Learn, Tracks, Past, MaxOf, Gained, Close, Next;
    if n[t] + 1 <= Past(n) + LEAD {
      Deliver(p, s, n, t);
    } else {
      CloseNext(n, t);
      if s.synced {
        SyncedTooFar(p, s, n, t);
      } else {
        LearningTooFar(p, s, n, t);
        OfferLearning(p, s, n, t);
      }
    }
  }

  lemma OfferLearning(p: Publisher, s: State, n: seq<nat>, t: Topic)
    requires |p.base| == TOPICS && Publishes(p) && |n| == TOPICS && Tracks(p, s, n) && !s.synced
    ensures Offer(s, t, p.msg(t, n[t])) ==
      Learn(Queued(Noted(s, t, p.msg(t, n[t]).sequence), t, p.msg(t, n[t])))
  {
    hide Learn, FramesAt, LastAt, MinOf, QueuesAt, Queued, TrueOffsets, Publishes;
    NotedAt(p, s, n, t);
  }

  /** Every topic delivers its bursts in turn, none lost, none too far ahead. */
  ghost predicate Lossless(n: seq<nat>, deliveries: seq<(Topic, nat)>)
    requires |n| == TOPICS
    decreases |deliveries|
  {
    deliveries != [] ==>
      var (t, k) := deliveries[0];
      k == n[t] && k + 1 <= Past(n) + LEAD && Lossless(Next(n, t), deliveries[1..])
  }

  function Counted(n: seq<nat>, deliveries: seq<(Topic, nat)>): (r: seq<nat>)
    requires |n| == TOPICS
    ensures |r| == TOPICS
    decreases |deliveries|
  {
    if deliveries == [] then n else Counted(Next(n, deliveries[0].0), deliveries[1..])
  }

  /** Bursts 1 to m - 1, in order. */
  function BurstsTo(p: Publisher, m: nat): seq<Emission>
    requires |p.base| == TOPICS
  {
    if m < 2 then [] else BurstsTo(p, m - 1) + BurstOut(p, m)
  }

  lemma GainedExtends(p: Publisher, n: seq<nat>, t: Topic)
    requires |p.base| == TOPICS && |n| == TOPICS
    ensures BurstsTo(p, MinOf(n)) + Gained(p, n, t) == BurstsTo(p, MinOf(Next(n, t)))
  {
    hide MinOf, BurstsTo, BurstOut;
    MinNext(n, t);
    BurstsStep(p, MinOf(n), MinOf(Next(n, t)));
  }

  lemma BurstsStep(p: Publisher, m: nat, next: nat)
    requires |p.base| == TOPICS && m <= next <= m + 1
    ensures BurstsTo(p, m) + (if next > m && next >= 2 then BurstOut(p, next) else []) == BurstsTo(p, next)
  {
    hide BurstOut;
  }

  lemma RunStep(p: Publisher, s: State, t: Topic, k: nat, deliveries: seq<(Topic, nat)>)
    requires WellFormed(s) && deliveries != [] && deliveries[0] == (t, k)
    ensures var one := Offer(s, t, p.msg(t, k));
      var rest := Run(one.state, Offers(p, deliveries[1..]));
      Run(s, Offers(p, deliveries)) == Result(rest.state, one.out + rest.out)
  {
    hide Offer;
    assert Offers(p, deliveries)[1..] == Offers(p, deliveries[1..]);
  }

  lemma {:induction false} LosslessRun(p: Publisher, s: State, n: seq<nat>, deliveries: seq<(Topic, nat)>)
    requires |p.base| == TOPICS && Publishes(p) && Clean(p) && |n| == TOPICS && WellFormed(s) && Tracks(p, s, n)
    requires Close(n) && Lossless(n, deliveries)
    ensures var r, ends := Run(s, Offers(p, deliveries)), Counted(n, deliveries);
      && BurstsTo(p, MinOf(n)) + r.out == BurstsTo(p, MinOf(ends))
      && Tracks(p, r.state, ends) && Close(ends)
    decreases |deliveries|
  {
    hide Publishes, Clean, Tracks, Offer, MinOf, Close, BurstOut, BurstsTo, Gained, Next, WellFormed;
    if deliveries != [] {
      var (t, k) := deliveries[0];
      var one := Offer(s, t, p.msg(t, k));
      Deliver(p, s, n, t);
      CloseNext(n, t);
      LosslessRun(p, one.state, Next(n, t), deliveries[1..]);
      RunStep(p, s, t, k, deliveries);
      GainedExtends(p, n, t);
      Regroup(BurstsTo(p, MinOf(n)), one.out, Run(one.state, Offers(p, deliveries[1..])).out);
    }
  }

  lemma Regroup<T>(a: seq<T>, b: seq<T>, c: seq<T>)
    ensures (a + b) + c == a + (b + c)
  {
  }

  lemma StartTracks(p: Publisher)
    requires |p.base| == TOPICS
    ensures Tracks(p, Initial(), Zeros()) && MinOf(Zeros()) == 0 && Close(Zeros())
  {
    forall t: nat | t < TOPICS
      ensures Initial().pending[t] == Messages(p, t, 0, Zeros()[t])
    {
    }
  }

  /** The k-th frame out is burst k + 1, slot by slot, and there are n of them. */
  ghost predicate FromSecond(p: Publisher, out: seq<Emission>, n: nat)
    requires |p.base| == TOPICS
  {
    |out| == n && AllOneBurst(p, out) && forall i :: 0 <= i < |out| ==> out[i].id == p.base[LIDAR] + i + 1
  }

  lemma {:induction false} BurstsToAre(p: Publisher, m: nat)
    requires |p.base| == TOPICS
    ensures FromSecond(p, BurstsTo(p, m), if m < 2 then 0 else m - 1)
  {
    hide FrameOf, OneBurst;
    if m >= 2 {
      BurstsToAre(p, m - 1);
      FrameSlots(p, m - 1);
    }
  }

  lemma StreamIs(p: Publisher, deliveries: seq<(Topic, nat)>)
    requires |p.base| == TOPICS && Publishes(p) && Clean(p) && Lossless(Zeros(), deliveries)
    ensures Run(Initial(), Offers(p, deliveries)).out == BurstsTo(p, MinOf(Counted(Zeros(), deliveries)))
  {
    hide Run, Tracks, Publishes, Clean;
    StartTracks(p);
    LosslessRun(p, Initial(), Zeros(), deliveries);
    assert BurstsTo(p, 0) == [];
    var out := Run(Initial(), Offers(p, deliveries)).out;
    assert [] + out == out;
  }

  /** From the start, a lossless clean stream gives bursts 1, 2, ... up to the last
      one the slowest topic has delivered: nothing lost, repeated or late. */
  lemma LosslessStream(p: Publisher, deliveries: seq<(Topic, nat)>)
    requires |p.base| == TOPICS && Publishes(p) && Clean(p) && Lossless(Zeros(), deliveries)
    ensures var m := MinOf(Counted(Zeros(), deliveries));
      FromSecond(p, Run(Initial(), Offers(p, deliveries)).out, if m < 2 then 0 else m - 1)
  {
    hide Run, Publishes, Clean, FromSecond, MinOf, BurstsTo, Counted, Lossless;
    StreamIs(p, deliveries);
    BurstsToAre(p, MinOf(Counted(Zeros(), deliveries)));
  }
}
