/**
 What losses cost once the offsets are known: whatever is lost and however the topics
 interleave, exactly the bursts with a message lost are dropped, each counted once,
 and every other burst comes out, in order, as soon as it is whole.
 */
module DevkitLossy {
  import opened Options
  import opened Sets
  import opened DevkitSpec
  import opened DevkitPairing
  import opened DevkitLossless

  /** The buffered frames of the bursts from lo on, those with a loss left out. */
  function Kept(p: Publisher, n: seq<nat>, lost: set<nat>, lo: nat): (r: Frames)
    requires |p.base| == TOPICS && |n| == TOPICS
  {
    KeptBetween(p, n, lost, p.base[LIDAR] + lo, p.base[LIDAR] + MaxOf(n))
  }

  function KeptBetween(p: Publisher, n: seq<nat>, lost: set<nat>, first: int, end: int): (r: Frames)
    requires |p.base| == TOPICS && |n| == TOPICS && first >= p.base[LIDAR]
  {
    map f | f in Span(first, end) && !Lacks(lost, f - p.base[LIDAR]) :: PartsAt(p, n, f - p.base[LIDAR])
  }

  predicate Lacks(lost: set<nat>, k: int) {
    k >= 0 && k in lost
  }

  /** Ids given up are those of bursts with a loss, and all such that messages may
      still come for are. */
  ghost predicate DeadAt(p: Publisher, dead: set<int>, lost: set<nat>, lo: nat)
    requires |p.base| == TOPICS
  {
    && (forall d :: d in dead ==> Lacks(lost, d - p.base[LIDAR]))
    && (forall k: nat :: k in lost && k >= lo ==> p.base[LIDAR] + k in dead)
  }

  /** The assembler's state once synced, told by the counts and the losses alone:
      topic t's next message is of burst n[t]. */
  ghost predicate Follows(p: Publisher, s: State, n: seq<nat>, lost: set<nat>)
    requires |p.base| == TOPICS && |n| == TOPICS
  {
    && WellFormed(s) && s.synced && s.offsets == TrueOffsets(p) && MinOf(n) >= 1
    && LastAt(p, s.last, n)
    && s.frames == Kept(p, n, lost, MinOf(n)) && DeadAt(p, s.dead, lost, MinOf(n))
  }

  /** The bursts from lo to hi - 1 that lack nothing, in order. */
  function Unharmed(p: Publisher, lost: set<nat>, lo: nat, hi: nat): seq<Emission>
    requires |p.base| == TOPICS
    decreases hi - lo
  {
    if lo >= hi then []
    else
      (if lo in lost then [] else [Emission(p.base[LIDAR] + lo, FrameOf(Burst(p, lo)))]) + Unharmed(p, lost, lo + 1, hi)
  }

  // --- draining

  lemma KeptHas(p: Publisher, n: seq<nat>, lost: set<nat>, lo: nat, f: int)
    requires |p.base| == TOPICS && |n| == TOPICS
    ensures f in Kept(p, n, lost, lo) <==>
      p.base[LIDAR] + lo <= f < p.base[LIDAR] + MaxOf(n) && !Lacks(lost, f - p.base[LIDAR])
    ensures f in Kept(p, n, lost, lo) ==> Kept(p, n, lost, lo)[f] == PartsAt(p, n, f - p.base[LIDAR])
  {
    hide PartsAt, MaxOf;
  }

  lemma KeptStep(p: Publisher, n: seq<nat>, lost: set<nat>, lo: nat)
    requires |p.base| == TOPICS && |n| == TOPICS && lo < MaxOf(n)
    ensures var f, frames := p.base[LIDAR] + lo, Kept(p, n, lost, lo);
      if lo in lost then frames == Kept(p, n, lost, lo + 1)
      else f in frames && frames[f] == PartsAt(p, n, lo) && frames - {f} == Kept(p, n, lost, lo + 1)
    ensures forall f :: f in Kept(p, n, lost, lo) ==> f >= p.base[LIDAR] + lo
  {
    hide PartsAt, MaxOf, Kept;
    var first, was, next := p.base[LIDAR] + lo, Kept(p, n, lost, lo), Kept(p, n, lost, lo + 1);
    forall f
      ensures f in was ==> f >= first && was[f] == PartsAt(p, n, f - p.base[LIDAR])
      ensures f in next <==> f in was && f != first
      ensures f in next ==> next[f] == PartsAt(p, n, f - p.base[LIDAR])
    {
      KeptHas(p, n, lost, lo, f);
      KeptHas(p, n, lost, lo + 1, f);
    }
    KeptHas(p, n, lost, lo, first);
    assert was - {first} == next;
    if lo in lost {
      assert was == next;
    }
  }

  lemma PartsLack(p: Publisher, n: seq<nat>, k: nat)
    requires |n| == TOPICS && k >= MinOf(n)
    ensures |PartsAt(p, n, k)| < TOPICS
  {
    var parts := PartsAt(p, n, k);
    var t :| 0 <= t < |n| && n[t] == MinOf(n);
    var topic: Topic := t;
    assert topic !in parts;
    assert !Complete(parts);
    if |parts| >= TOPICS {
      FullParts(parts);
    }
  }

  lemma KeptAt(p: Publisher, n: seq<nat>, lost: set<nat>, lo: nat, dead: set<int>, f: int)
    requires |p.base| == TOPICS && |n| == TOPICS && f in Kept(p, n, lost, lo) && DeadAt(p, dead, lost, lo)
    ensures f >= p.base[LIDAR] + lo && f !in dead
    ensures Kept(p, n, lost, lo)[f] == PartsAt(p, n, f - p.base[LIDAR])
  {
    hide PartsAt, MaxOf;
  }

  lemma DrainRests(p: Publisher, s: State, n: seq<nat>, lost: set<nat>)
    requires |p.base| == TOPICS && |n| == TOPICS && WellFormed(s)
    requires s.frames == Kept(p, n, lost, MinOf(n)) && DeadAt(p, s.dead, lost, MinOf(n))
    ensures Drain(s) == Result(s, [])
  {
    hide Drain, PartsAt, Build, Taken, Rejected, MinOf, Kept, DeadAt, WellFormed;
    if !s.synced || s.frames == map[] {
      DrainIdle(s);
    } else {
      var fid := Least(s.frames.Keys);
      assert fid in s.frames;
      KeptAt(p, n, lost, MinOf(n), s.dead, fid);
      PartsLack(p, n, fid - p.base[LIDAR]);
      DrainTurn(s, fid);
    }
  }

  /** What the drain leaves as it was. */
  ghost predicate OnlyDrained(s: State, r: State) {
    r == s.(frames := r.frames, dead := r.dead, history := r.history)
  }

  lemma TakenDead(p: Publisher, dead: set<int>, lost: set<nat>, lo: nat)
    requires |p.base| == TOPICS && DeadAt(p, dead, lost, lo)
    ensures DeadAt(p, DeadAfter(dead, p.base[LIDAR] + lo), lost, lo + 1)
  {
  }

  /** The drain hands out every whole burst up to the slowest topic's. */
  lemma {:induction false} DrainUnharmed(p: Publisher, s: State, n: seq<nat>, lost: set<nat>, lo: nat)
    requires |p.base| == TOPICS && Clean(p) && |n| == TOPICS && WellFormed(s) && s.synced && lo <= MinOf(n) <= MaxOf(n)
    requires s.frames == Kept(p, n, lost, lo) && DeadAt(p, s.dead, lost, lo)
    ensures var r := Drain(s);
      && r.out == Unharmed(p, lost, lo, MinOf(n)) && OnlyDrained(s, r.state)
      && r.state.frames == Kept(p, n, lost, MinOf(n)) && DeadAt(p, r.state.dead, lost, MinOf(n))
    decreases MinOf(n) - lo
  {
    hide Drain, Kept, Clean, MinOf, MaxOf, Burst, FrameOf, DeadAt, Taken, WellFormed;
    if lo == MinOf(n) {
      DrainRests(p, s, n, lost);
    } else {
      KeptStep(p, n, lost, lo);
      if lo in lost {
        DeadLater(p, s.dead, lost, lo);
        DrainUnharmed(p, s, n, lost, lo + 1);
      } else {
        DrainWhole(p, s, n, lost, lo);
        DrainUnharmed(p, Taken(s, p.base[LIDAR] + lo, false), n, lost, lo + 1);
      }
    }
  }

  /** The burst at the front lacks nothing: it leaves. */
  lemma DrainWhole(p: Publisher, s: State, n: seq<nat>, lost: set<nat>, lo: nat)
    requires |p.base| == TOPICS && Clean(p) && |n| == TOPICS && WellFormed(s) && s.synced && lo < MinOf(n) <= MaxOf(n)
    requires s.frames == Kept(p, n, lost, lo) && DeadAt(p, s.dead, lost, lo) && lo !in lost
    ensures var fid := p.base[LIDAR] + lo;
      var next := Taken(s, fid, false);
      && next.frames == Kept(p, n, lost, lo + 1) && DeadAt(p, next.dead, lost, lo + 1) && OnlyDrained(s, next)
      && Drain(s) == Result(Drain(next).state, [Emission(fid, FrameOf(Burst(p, lo)))] + Drain(next).out)
  {
    hide Drain, Kept, PartsAt, Build, Clean, Rejected, MinOf, MaxOf, Burst, FrameOf, DeadAfter, DeadAt;
    var fid := p.base[LIDAR] + lo;
    KeptStep(p, n, lost, lo);
    LeastIs(s.frames.Keys, fid);
    KeptAt(p, n, lost, lo, s.dead, fid);
    PartsWhole(p, n, lo);
    BuildIsFrame(p, lo);
    DrainTurn(s, fid);
    TakenDead(p, s.dead, lost, lo);
  }

  lemma LeastIs(keys: set<int>, k: int)
    requires k in keys && forall x :: x in keys ==> x >= k
    ensures Least(keys) == k
  {
  }

  lemma DeadLater(p: Publisher, dead: set<int>, lost: set<nat>, lo: nat)
    requires |p.base| == TOPICS && DeadAt(p, dead, lost, lo)
    ensures DeadAt(p, dead, lost, lo + 1)
  {
  }

  // --- losing messages

  /** The bursts from lo to hi - 1. */
  function Missed(lo: nat, hi: nat): (r: set<nat>)
    ensures forall k: nat :: k in r <==> lo <= k < hi
    decreases hi - lo
  {
    if lo >= hi then {} else {lo} + Missed(lo + 1, hi)
  }

  ghost predicate OnlyKilled(s: State, r: State) {
    r == s.(frames := r.frames, dead := r.dead, droppedFrames := r.droppedFrames, history := r.history)
  }

  lemma KillOne(p: Publisher, s: State, n: seq<nat>, lost: set<nat>, lo: nat, k: nat)
    requires |p.base| == TOPICS && |n| == TOPICS && lo <= k
    requires s.frames == Kept(p, n, lost, lo) && DeadAt(p, s.dead, lost, lo)
    ensures var r := Kill(s, p.base[LIDAR] + k);
      && r.frames == Kept(p, n, lost + {k}, lo) && DeadAt(p, r.dead, lost + {k}, lo) && OnlyKilled(s, r)
      && r.droppedFrames == s.droppedFrames + if k in lost then 0 else 1
  {
    hide PartsAt, MaxOf, Kept, DeadAt;
    var f := p.base[LIDAR] + k;
    DeadExact(p, s.dead, lost, lo, k);
    DeadGrows(p, s.dead, lost, lo, k);
    if k in lost {
      assert lost + {k} == lost && s.dead + {f} == s.dead;
    }
    forall g
      ensures g in s.frames - {f} <==> g in Kept(p, n, lost + {k}, lo)
      ensures g in s.frames - {f} ==> (s.frames - {f})[g] == Kept(p, n, lost + {k}, lo)[g]
    {
      KeptHas(p, n, lost, lo, g);
      KeptHas(p, n, lost + {k}, lo, g);
    }
  }

  lemma DeadGrows(p: Publisher, dead: set<int>, lost: set<nat>, lo: nat, k: nat)
    requires |p.base| == TOPICS && DeadAt(p, dead, lost, lo)
    ensures DeadAt(p, dead + {p.base[LIDAR] + k}, lost + {k}, lo)
  {
    hide Lacks;
    var first, more := p.base[LIDAR], lost + {k};
    var grown := dead + {first + k};
    forall d | d in grown
      ensures Lacks(more, d - first)
    {
      LacksMore(lost, k, d - first);
    }
  }

  lemma LacksMore(lost: set<nat>, k: nat, j: int)
    ensures Lacks(lost + {k}, j) <==> Lacks(lost, j) || j == k
  {
  }

  /** Each lost sequence takes its burst with it, once. */
  lemma {:induction false} KillMissed(p: Publisher, s: State, n: seq<nat>, lost: set<nat>, lo: nat, offset: int,
                                      first: nat, end: nat)
    requires |p.base| == TOPICS && |n| == TOPICS && lo <= first
    requires s.frames == Kept(p, n, lost, lo) && DeadAt(p, s.dead, lost, lo)
    ensures var r := KillRange(s, offset, p.base[LIDAR] + offset + first, p.base[LIDAR] + offset + end);
      var after := lost + Missed(first, end);
      && r.frames == Kept(p, n, after, lo) && DeadAt(p, r.dead, after, lo) && OnlyKilled(s, r)
      && r.droppedFrames == s.droppedFrames + |after| - |lost|
    decreases end - first
  {
    hide Kept, DeadAt, Kill, KillRange;
    var from, to := p.base[LIDAR] + offset + first, p.base[LIDAR] + offset + end;
    KillRangeTurn(s, offset, from, to);
    if first >= end {
      assert lost + Missed(first, end) == lost;
    } else {
      KillOne(p, s, n, lost, lo, first);
      KillMissed(p, Kill(s, p.base[LIDAR] + first), n, lost + {first}, lo, offset, first + 1, end);
      assert lost + {first} + Missed(first + 1, end) == lost + Missed(first, end);
      OneMore(lost, first);
    }
  }

  lemma OneMore(lost: set<nat>, k: nat)
    ensures |lost + {k}| == |lost| + if k in lost then 0 else 1
  {
    if k in lost {
      assert lost + {k} == lost;
    }
  }

  // --- one message

  /** Topic t's message of burst k arrives, those from n[t] to k - 1 never do. */
  function Reached(n: seq<nat>, t: Topic, k: nat): (r: seq<nat>)
    requires |n| == TOPICS
    ensures |r| == TOPICS
  {
    n[t := k + 1]
  }

  lemma ReachedBounds(n: seq<nat>, t: Topic, k: nat)
    requires |n| == TOPICS && n[t] <= k
    ensures MinOf(n) <= MinOf(Reached(n, t, k)) && MinOf(n) <= n[t] <= MaxOf(n)
    ensures MinOf(Reached(n, t, k)) <= MaxOf(Reached(n, t, k))
    ensures MaxOf(Reached(n, t, k)) == if k + 1 > MaxOf(n) then k + 1 else MaxOf(n)
  {
    var next := Reached(n, t, k);
    var i :| 0 <= i < |n| && n[i] == MaxOf(n);
    var j :| 0 <= j < |next| && next[j] == MaxOf(next);
    var h :| 0 <= h < |next| && next[h] == MinOf(next);
    assert next[i] <= MaxOf(next) && n[j] <= MaxOf(n) && next[t] <= MaxOf(next) && next[t] == k + 1;
    assert n[h] >= MinOf(n) && MinOf(next) <= next[t];
  }

  /** What one id holds after the message, given what it held before. */
  lemma JoinAt(p: Publisher, n: seq<nat>, lost: set<nat>, lo: nat, t: Topic, k: nat, f: int)
    requires |p.base| == TOPICS && |n| == TOPICS && lo <= n[t] <= k && Missed(n[t], k) <= lost
    ensures var was, fid, now := Kept(p, n, lost, lo), p.base[LIDAR] + k, Kept(p, Reached(n, t, k), lost, lo);
      && (f in now <==> f in was || (f == fid && k !in lost))
      && (f in now && f != fid ==> now[f] == was[f])
      && (f in now && f == fid ==> now[f] == (if f in was then was[f] else map[])[t := p.msg(t, k)])
  {
    hide PartsAt, MaxOf, MinOf, Kept, Reached;
    ReachedBounds(n, t, k);
    KeptHas(p, n, lost, lo, f);
    KeptHas(p, Reached(n, t, k), lost, lo, f);
    if p.base[LIDAR] <= f {
      NotPassed(p, n, lost, t, k, f);
      if f < p.base[LIDAR] + n[t] || f >= p.base[LIDAR] + k {
        PartsReached(p, n, t, k, f - p.base[LIDAR]);
      }
    }
  }

  lemma NotPassed(p: Publisher, n: seq<nat>, lost: set<nat>, t: Topic, k: nat, f: int)
    requires |p.base| == TOPICS && |n| == TOPICS && n[t] <= k && Missed(n[t], k) <= lost && p.base[LIDAR] <= f
    ensures p.base[LIDAR] + n[t] <= f < p.base[LIDAR] + k ==> Lacks(lost, f - p.base[LIDAR])
  {
    if p.base[LIDAR] + n[t] <= f < p.base[LIDAR] + k {
      assert f - p.base[LIDAR] in Missed(n[t], k);
    }
  }

  /** The message joins its frame, or its burst is given up already. */
  lemma JoinKept(p: Publisher, n: seq<nat>, lost: set<nat>, lo: nat, t: Topic, k: nat)
    requires |p.base| == TOPICS && |n| == TOPICS && lo <= n[t] <= k && Missed(n[t], k) <= lost
    ensures var was := Kept(p, n, lost, lo);
      Kept(p, Reached(n, t, k), lost, lo) ==
        if k in lost then was else Place(was, p.base[LIDAR] + k, t, p.msg(t, k))
  {
    hide Kept, Reached;
    var was, now := Kept(p, n, lost, lo), Kept(p, Reached(n, t, k), lost, lo);
    var joined := if k in lost then was else Place(was, p.base[LIDAR] + k, t, p.msg(t, k));
    forall f
      ensures f in now <==> f in joined
      ensures f in now ==> now[f] == joined[f]
    {
      JoinAt(p, n, lost, lo, t, k, f);
      KeptHas(p, n, lost, lo, f);
    }
  }

  lemma PartsReached(p: Publisher, n: seq<nat>, t: Topic, k: nat, j: nat)
    requires |n| == TOPICS && n[t] <= k && (j < n[t] || j >= k)
    ensures PartsAt(p, Reached(n, t, k), j) == if j == k then PartsAt(p, n, k)[t := p.msg(t, k)] else PartsAt(p, n, j)
    ensures k >= MaxOf(n) ==> PartsAt(p, n, k) == map[]
  {
  }

  lemma KeptSize(p: Publisher, n: seq<nat>, lost: set<nat>, lo: nat)
    requires |p.base| == TOPICS && |n| == TOPICS && lo <= MaxOf(n)
    ensures |Kept(p, n, lost, lo)| <= MaxOf(n) - lo
  {
    hide PartsAt, MaxOf;
    var first, end := p.base[LIDAR] + lo, p.base[LIDAR] + MaxOf(n);
    SpanSize(first, end);
    assert Kept(p, n, lost, lo).Keys <= Span(first, end);
    SubsetSizes(Kept(p, n, lost, lo).Keys, Span(first, end));
  }

  lemma SubsetSizes(a: set<int>, b: set<int>)
    requires a <= b
    ensures |a| <= |b|
  {
    assert b == a + (b - a);
  }

  /** The state once the sequences passed over have been given up. */
  lemma LoseMissed(p: Publisher, s: State, n: seq<nat>, lost: set<nat>, t: Topic, k: nat)
    requires |p.base| == TOPICS && Publishes(p) && |n| == TOPICS && n[t] < k && Follows(p, s, n, lost)
    ensures var s1 := Noted(s, t, p.msg(t, k).sequence);
      var r := Lose(s1, t, p.msg(t, n[t]).sequence, p.msg(t, k).sequence);
      var after := lost + Missed(n[t], k);
      && WellFormed(r) && r.synced && r.offsets == s.offsets && r.last == s1.last && r.resyncs == s.resyncs
      && r.frames == Kept(p, n, after, MinOf(n)) && DeadAt(p, r.dead, after, MinOf(n))
      && r.droppedFrames == s.droppedFrames + |after| - |lost|
  {
    hide Kept, DeadAt, KillRange, MinOf, LastAt;
    MinAt(n, t);
    var s1 := Noted(s, t, p.msg(t, k).sequence);
    var gap := p.msg(t, k).sequence - p.msg(t, n[t]).sequence;
    assert p.msg(t, n[t]).sequence == p.base[LIDAR] + s.offsets[t] + n[t];
    assert p.msg(t, k).sequence == p.base[LIDAR] + s.offsets[t] + k;
    KillMissed(p, s1.(lost := s1.lost[t := s1.lost[t] + gap]), n, lost, MinOf(n), s.offsets[t], n[t], k);
  }

  /** An offer of a synced assembler whose sequence is past the topic's last. */
  lemma OfferPast(s: State, t: Topic, it: Item)
    requires WellFormed(s) && s.synced && t in s.last && it.sequence > s.last[t]
    ensures var s1 := Noted(s, t, it.sequence);
      var s2 := if it.sequence > s.last[t] + 1 then Lose(s1, t, s.last[t] + 1, it.sequence) else s1;
      Offer(s, t, it) == OfferSynced(s2, t, it)
  {
    hide OfferSynced, Lose;
  }

  /** The state the message finds: noted, and what was passed over given up. */
  lemma Prepared(p: Publisher, s: State, n: seq<nat>, lost: set<nat>, t: Topic, k: nat)
    requires |p.base| == TOPICS && Publishes(p) && |n| == TOPICS && n[t] <= k && Follows(p, s, n, lost)
    ensures t in s.last && s.last[t] == p.msg(t, n[t]).sequence - 1 < p.msg(t, k).sequence
    ensures var s1 := Noted(s, t, p.msg(t, k).sequence);
      var r := if n[t] < k then Lose(s1, t, p.msg(t, n[t]).sequence, p.msg(t, k).sequence) else s1;
      var after := lost + Missed(n[t], k);
      && WellFormed(r) && r.synced && r.offsets == s.offsets && r.last == s1.last && r.resyncs == s.resyncs
      && r.frames == Kept(p, n, after, MinOf(n)) && DeadAt(p, r.dead, after, MinOf(n))
      && r.droppedFrames == s.droppedFrames + |after| - |lost|
  {
    hide Kept, DeadAt, Lose, MinOf;
    MinAt(n, t);
    if n[t] < k {
      LoseMissed(p, s, n, lost, t, k);
    } else {
      assert lost + Missed(n[t], k) == lost;
    }
  }

  /** The message lands: in its frame if its burst lacks nothing, and then whole
      bursts leave. */
  lemma Lands(p: Publisher, s: State, n: seq<nat>, lost: set<nat>, t: Topic, k: nat)
    requires |p.base| == TOPICS && Publishes(p) && Clean(p) && |n| == TOPICS && n[t] <= k
    requires MaxOf(n) <= MinOf(n) + LEAD && k + 1 <= MinOf(n) + LEAD && Missed(n[t], k) <= lost
    requires WellFormed(s) && s.synced && s.offsets == TrueOffsets(p)
    requires s.frames == Kept(p, n, lost, MinOf(n)) && DeadAt(p, s.dead, lost, MinOf(n))
    ensures var r, next := OfferSynced(s, t, p.msg(t, k)), Reached(n, t, k);
      && r.out == Unharmed(p, lost, MinOf(n), MinOf(next))
      && r.state.frames == Kept(p, next, lost, MinOf(next)) && DeadAt(p, r.state.dead, lost, MinOf(next))
      && WellFormed(r.state) && r.state.synced && r.state.offsets == s.offsets && r.state.last == s.last
      && r.state.resyncs == s.resyncs && r.state.droppedFrames == s.droppedFrames
  {
    hide Kept, DeadAt, Drain, MinOf, MaxOf, Clean, Publishes, TrueOffsets, Place, Unharmed, Reached;
    var next, it, fid := Reached(n, t, k), p.msg(t, k), p.base[LIDAR] + k;
    OffsetAt(p, t, k);
    ReachedBounds(n, t, k);
    JoinKept(p, n, lost, MinOf(n), t, k);
    KeptSize(p, next, lost, MinOf(n));
    DeadExact(p, s.dead, lost, MinOf(n), k);
    var s1 := Seen(s, fid);
    var joined := if fid in s.dead then s1 else Placed(s1, fid, t, it);
    assert OfferSynced(s, t, it) == Drain(joined);
    DrainUnharmed(p, joined, next, lost, MinOf(n));
  }

  lemma DeadExact(p: Publisher, dead: set<int>, lost: set<nat>, lo: nat, k: nat)
    requires |p.base| == TOPICS && DeadAt(p, dead, lost, lo) && k >= lo
    ensures p.base[LIDAR] + k in dead <==> k in lost
  {
    if p.base[LIDAR] + k in dead {
      assert Lacks(lost, p.base[LIDAR] + k - p.base[LIDAR]);
    }
  }

  lemma LastReached(p: Publisher, last: map<Topic, int>, n: seq<nat>, t: Topic, k: nat)
    requires |p.base| == TOPICS && Publishes(p) && |n| == TOPICS && LastAt(p, last, n)
    ensures LastAt(p, last[t := p.msg(t, k).sequence], Reached(n, t, k))
  {
  }

  /** One message, of any burst not before the topic's next. */
  lemma Step(p: Publisher, s: State, n: seq<nat>, lost: set<nat>, t: Topic, k: nat)
    requires |p.base| == TOPICS && Publishes(p) && Clean(p) && |n| == TOPICS && n[t] <= k && Follows(p, s, n, lost)
    requires MaxOf(n) <= MinOf(n) + LEAD && k + 1 <= MinOf(n) + LEAD
    ensures var r, next, after := Offer(s, t, p.msg(t, k)), Reached(n, t, k), lost + Missed(n[t], k);
      && Follows(p, r.state, next, after) && r.out == Unharmed(p, after, MinOf(n), MinOf(next))
      && r.state.resyncs == s.resyncs && r.state.droppedFrames == s.droppedFrames + |after| - |lost|
      && MinOf(n) <= MinOf(next) && MaxOf(next) <= MinOf(next) + LEAD
  {
    hide Kept, DeadAt, OfferSynced, Offer, Lose, MinOf, MaxOf, Clean, TrueOffsets, Unharmed, LastAt, Publishes, Reached;
    Prepared(p, s, n, lost, t, k);
    OfferPast(s, t, p.msg(t, k));
    SequenceGap(p, t, n[t], k);
    var s1 := Noted(s, t, p.msg(t, k).sequence);
    var r := if n[t] < k then Lose(s1, t, p.msg(t, n[t]).sequence, p.msg(t, k).sequence) else s1;
    Lands(p, r, n, lost + Missed(n[t], k), t, k);
    ReachedBounds(n, t, k);
    LastReached(p, s.last, n, t, k);
  }

  lemma SequenceGap(p: Publisher, t: Topic, j: nat, k: nat)
    requires Publishes(p)
    ensures p.msg(t, k).sequence - p.msg(t, j).sequence == k - j
  {
  }

  // --- a run

  /** Every topic's bursts come in order, any of them missing, none more than 64 past
      the slowest topic. */
  ghost predicate Lossy(n: seq<nat>, deliveries: seq<(Topic, nat)>)
    requires |n| == TOPICS
    decreases |deliveries|
  {
    deliveries != [] ==>
      var (t, k) := deliveries[0];
      n[t] <= k && k + 1 <= MinOf(n) + LEAD && Lossy(Reached(n, t, k), deliveries[1..])
  }

  function Ends(n: seq<nat>, deliveries: seq<(Topic, nat)>): (r: seq<nat>)
    requires |n| == TOPICS
    ensures |r| == TOPICS
    decreases |deliveries|
  {
    if deliveries == [] then n else Ends(Reached(n, deliveries[0].0, deliveries[0].1), deliveries[1..])
  }

  /** The bursts some topic passed over. */
  function Losses(n: seq<nat>, deliveries: seq<(Topic, nat)>): set<nat>
    requires |n| == TOPICS
    decreases |deliveries|
  {
    if deliveries == [] then {}
    else
      var (t, k) := deliveries[0];
      Missed(n[t], k) + Losses(Reached(n, t, k), deliveries[1..])
  }

  /** What is passed over later lies past what was handed out before. */
  lemma {:induction false} LaterLosses(n: seq<nat>, deliveries: seq<(Topic, nat)>)
    requires |n| == TOPICS && Lossy(n, deliveries)
    ensures forall k: nat :: k in Losses(n, deliveries) ==> k >= MinOf(n)
    ensures MinOf(n) <= MinOf(Ends(n, deliveries))
    decreases |deliveries|
  {
    hide MinOf, Reached;
    if deliveries != [] {
      var (t, k) := deliveries[0];
      ReachedBounds(n, t, k);
      LaterLosses(Reached(n, t, k), deliveries[1..]);
    }
  }

  lemma {:induction false} UnharmedAlike(p: Publisher, a: set<nat>, b: set<nat>, lo: nat, hi: nat)
    requires |p.base| == TOPICS && forall k: nat :: lo <= k < hi ==> (k in a <==> k in b)
    ensures Unharmed(p, a, lo, hi) == Unharmed(p, b, lo, hi)
    decreases hi - lo
  {
    hide FrameOf, Burst;
    if lo < hi {
      UnharmedAlike(p, a, b, lo + 1, hi);
    }
  }

  lemma {:induction false} UnharmedJoin(p: Publisher, lost: set<nat>, lo: nat, mid: nat, hi: nat)
    requires |p.base| == TOPICS && lo <= mid <= hi
    ensures Unharmed(p, lost, lo, hi) == Unharmed(p, lost, lo, mid) + Unharmed(p, lost, mid, hi)
    decreases mid - lo
  {
    hide FrameOf, Burst;
    if lo < mid {
      UnharmedJoin(p, lost, lo + 1, mid, hi);
    }
  }

  lemma RunUnfolds(n: seq<nat>, deliveries: seq<(Topic, nat)>)
    requires |n| == TOPICS && deliveries != [] && Lossy(n, deliveries)
    ensures var (t, k), rest := deliveries[0], deliveries[1..];
      var next := Reached(n, t, k);
      && n[t] <= k && k + 1 <= MinOf(n) + LEAD && Lossy(next, rest)
      && Ends(n, deliveries) == Ends(next, rest) && Losses(n, deliveries) == Missed(n[t], k) + Losses(next, rest)
  {
    hide MinOf, Reached;
  }

  /** What came out before later losses, and what comes out after. */
  lemma UnharmedThen(p: Publisher, after: set<nat>, later: set<nat>, lo: nat, mid: nat, hi: nat)
    requires |p.base| == TOPICS && lo <= mid <= hi && forall k: nat :: k in later ==> k >= mid
    ensures Unharmed(p, after, lo, mid) + Unharmed(p, after + later, mid, hi) == Unharmed(p, after + later, lo, hi)
  {
    hide Unharmed;
    UnharmedAlike(p, after, after + later, lo, mid);
    UnharmedJoin(p, after + later, lo, mid, hi);
  }

  lemma {:induction false} LossyRun(p: Publisher, s: State, n: seq<nat>, lost: set<nat>, deliveries: seq<(Topic, nat)>)
    requires |p.base| == TOPICS && Publishes(p) && Clean(p) && |n| == TOPICS && WellFormed(s) && Follows(p, s, n, lost)
    requires MaxOf(n) <= MinOf(n) + LEAD && Lossy(n, deliveries)
    ensures var r, all, ends := Run(s, Offers(p, deliveries)), lost + Losses(n, deliveries), Ends(n, deliveries);
      && r.out == Unharmed(p, all, MinOf(n), MinOf(ends)) && Follows(p, r.state, ends, all)
      && r.state.resyncs == s.resyncs && r.state.droppedFrames == s.droppedFrames + |all| - |lost|
    decreases |deliveries|
  {
    hide Publishes, Clean, Follows, Offer, MinOf, MaxOf, Reached, Unharmed, WellFormed;
    if deliveries == [] {
      assert lost + {} == lost;
      UnharmedNone(p, lost, MinOf(n));
    } else {
      hide Lossy, Losses, Ends, Run, Offers;
      var (t, k) := deliveries[0];
      var next, after, rest := Reached(n, t, k), lost + Missed(n[t], k), deliveries[1..];
      var one := Offer(s, t, p.msg(t, k));
      RunUnfolds(n, deliveries);
      Step(p, s, n, lost, t, k);
      FollowsFormed(p, one.state, next, after);
      LossyRun(p, one.state, next, after, rest);
      RunStep(p, s, t, k, deliveries);
      LaterLosses(next, rest);
      assert lost + Losses(n, deliveries) == after + Losses(next, rest);
      UnharmedThen(p, after, Losses(next, rest), MinOf(n), MinOf(next), MinOf(Ends(next, rest)));
    }
  }

  lemma UnharmedNone(p: Publisher, lost: set<nat>, lo: nat)
    requires |p.base| == TOPICS
    ensures Unharmed(p, lost, lo, lo) == []
  {
  }

  lemma FollowsFormed(p: Publisher, s: State, n: seq<nat>, lost: set<nat>)
    requires |p.base| == TOPICS && |n| == TOPICS && Follows(p, s, n, lost)
    ensures WellFormed(s)
  {
  }

  // --- the results

  /** Just the bursts from lo to hi - 1 that lack nothing, each once, in order. */
  ghost predicate Exactly(p: Publisher, out: seq<Emission>, lost: set<nat>, lo: nat, hi: nat)
    requires |p.base| == TOPICS
  {
    && AllOneBurst(p, out)
    && (forall i, j :: 0 <= i < j < |out| ==> out[i].id < out[j].id)
    && (forall i :: 0 <= i < |out| ==> p.base[LIDAR] + lo <= out[i].id < p.base[LIDAR] + hi)
    && forall k: nat :: lo <= k < hi ==> (Among(out, p.base[LIDAR] + k) <==> k !in lost)
  }

  ghost predicate Among(out: seq<Emission>, id: int) {
    exists i :: 0 <= i < |out| && out[i].id == id
  }

  lemma AmongNext(e: Emission, out: seq<Emission>, id: int)
    ensures Among([e] + out, id) <==> id == e.id || Among(out, id)
  {
    if id == e.id {
      assert ([e] + out)[0].id == id;
    }
    if Among(out, id) {
      var i :| 0 <= i < |out| && out[i].id == id;
      assert ([e] + out)[i + 1].id == id;
    }
  }

  lemma {:induction false} UnharmedExactly(p: Publisher, lost: set<nat>, lo: nat, hi: nat)
    requires |p.base| == TOPICS
    ensures Exactly(p, Unharmed(p, lost, lo, hi), lost, lo, hi)
    decreases hi - lo
  {
    hide FrameOf, Burst, Exactly;
    if lo >= hi {
      NothingExactly(p, lost, lo, hi);
    } else {
      UnharmedExactly(p, lost, lo + 1, hi);
      var rest := Unharmed(p, lost, lo + 1, hi);
      if lo in lost {
        ExactlySkipped(p, rest, lost, lo, hi);
        assert [] + rest == rest;
      } else {
        FrameSlots(p, lo);
        ExactlyNext(p, Emission(p.base[LIDAR] + lo, FrameOf(Burst(p, lo))), rest, lost, lo, hi);
      }
    }
  }

  lemma NothingExactly(p: Publisher, lost: set<nat>, lo: nat, hi: nat)
    requires |p.base| == TOPICS && lo >= hi
    ensures Exactly(p, [], lost, lo, hi)
  {
  }

  lemma ExactlySkipped(p: Publisher, out: seq<Emission>, lost: set<nat>, lo: nat, hi: nat)
    requires |p.base| == TOPICS && Exactly(p, out, lost, lo + 1, hi) && lo in lost
    ensures Exactly(p, out, lost, lo, hi)
  {
    hide OneBurst, Among;
    NotAmong(out, p.base[LIDAR] + lo);
  }

  lemma ExactlyNext(p: Publisher, e: Emission, out: seq<Emission>, lost: set<nat>, lo: nat, hi: nat)
    requires |p.base| == TOPICS && lo < hi && Exactly(p, out, lost, lo + 1, hi) && lo !in lost
    requires OneBurst(p, e) && e.id == p.base[LIDAR] + lo
    ensures Exactly(p, [e] + out, lost, lo, hi)
  {
    hide OneBurst, Among;
    NotAmong(out, e.id);
    forall k: nat | lo <= k < hi
      ensures Among([e] + out, p.base[LIDAR] + k) <==> k !in lost
    {
      AmongNext(e, out, p.base[LIDAR] + k);
    }
  }

  lemma NotAmong(out: seq<Emission>, id: int)
    requires forall i :: 0 <= i < |out| ==> out[i].id > id
    ensures !Among(out, id)
  {
  }

  /** A burst is a loss just when some topic went past it and never delivered it. */
  ghost predicate PassedOver(n: seq<nat>, deliveries: seq<(Topic, nat)>, t: Topic, k: nat)
    requires |n| == TOPICS
  {
    n[t] <= k < Ends(n, deliveries)[t] && (t, k) !in deliveries
  }

  lemma {:induction false} LossesExact(n: seq<nat>, deliveries: seq<(Topic, nat)>, k: nat)
    requires |n| == TOPICS && Lossy(n, deliveries)
    ensures k in Losses(n, deliveries) <==> exists t: Topic :: PassedOver(n, deliveries, t, k)
    decreases |deliveries|
  {
    hide MinOf, Reached, PassedOver;
    if deliveries == [] {
      NonePassed(n, k);
    } else {
      var (t, j) := deliveries[0];
      var next, rest := Reached(n, t, j), deliveries[1..];
      LossesExact(next, rest, k);
      forall u: Topic
        ensures PassedOver(n, deliveries, u, k) <==> PassedOver(next, rest, u, k) || (u == t && n[t] <= k < j)
      {
        PassedStep(n, deliveries, u, k);
      }
      if k in Missed(n[t], j) {
        assert PassedOver(n, deliveries, t, k);
      }
      if u: Topic :| PassedOver(next, rest, u, k) {
        assert PassedOver(n, deliveries, u, k);
      }
    }
  }

  lemma NonePassed(n: seq<nat>, k: nat)
    requires |n| == TOPICS
    ensures forall t: Topic :: !PassedOver(n, [], t, k)
  {
  }

  lemma {:induction false} EndsAhead(n: seq<nat>, deliveries: seq<(Topic, nat)>, t: Topic)
    requires |n| == TOPICS && Lossy(n, deliveries)
    ensures n[t] <= Ends(n, deliveries)[t]
    ensures forall k: nat :: (t, k) in deliveries ==> n[t] <= k
    decreases |deliveries|
  {
    hide MinOf;
    if deliveries != [] {
      EndsAhead(Reached(n, deliveries[0].0, deliveries[0].1), deliveries[1..], t);
    }
  }

  lemma PassedStep(n: seq<nat>, deliveries: seq<(Topic, nat)>, u: Topic, k: nat)
    requires |n| == TOPICS && deliveries != [] && Lossy(n, deliveries)
    ensures var (t, j) := deliveries[0];
      PassedOver(n, deliveries, u, k) <==>
        PassedOver(Reached(n, t, j), deliveries[1..], u, k) || (u == t && n[t] <= k < j)
  {
    hide MinOf;
    var (t, j) := deliveries[0];
    EndsAhead(Reached(n, t, j), deliveries[1..], u);
    assert (u, k) in deliveries <==> (u, k) == (t, j) || (u, k) in deliveries[1..];
  }

  lemma TracksFollows(p: Publisher, s: State, n: seq<nat>)
    requires |p.base| == TOPICS && |n| == TOPICS && Tracks(p, s, n) && MinOf(n) >= 2
    ensures WellFormed(s) && Follows(p, s, n, {})
  {
    hide PartsAt, MinOf, MaxOf;
    assert FramesAt(p, n, MinOf(n)) == Kept(p, n, {}, MinOf(n));
  }

  /** From any synced state a lossless stream reaches: whatever is lost from then on,
      just the bursts that lack nothing come out, each once, in order, up to the
      slowest topic's last; each burst with a loss is dropped once; nothing restarts. */
  lemma LossyStream(p: Publisher, s: State, n: seq<nat>, deliveries: seq<(Topic, nat)>)
    requires |p.base| == TOPICS && Publishes(p) && Clean(p) && |n| == TOPICS && WellFormed(s)
    requires Tracks(p, s, n) && Close(n) && MinOf(n) >= 2 && Lossy(n, deliveries)
    ensures var r, lost := Run(s, Offers(p, deliveries)), Losses(n, deliveries);
      && Exactly(p, r.out, lost, MinOf(n), MinOf(Ends(n, deliveries)))
      && r.state.droppedFrames == s.droppedFrames + |lost| && r.state.resyncs == s.resyncs && r.state.synced
  {
    hide Publishes, Clean, Tracks, Kept, DeadAt, MinOf, MaxOf, Unharmed, Exactly, Run, Lossy, LastAt;
    TracksFollows(p, s, n);
    LossyRun(p, s, n, {}, deliveries);
    var lost := Losses(n, deliveries);
    assert {} + lost == lost;
    UnharmedExactly(p, lost, MinOf(n), MinOf(Ends(n, deliveries)));
  }

  lemma {:induction false} RunJoin(s: State, a: seq<(Topic, Item)>, b: seq<(Topic, Item)>)
    requires WellFormed(s)
    ensures var first := Run(s, a);
      var rest := Run(first.state, b);
      Run(s, a + b) == Result(rest.state, first.out + rest.out)
    decreases |a|
  {
    hide Offer;
    if a == [] {
      assert a + b == b;
    } else {
      assert (a + b)[1..] == a[1..] + b;
      RunJoin(Offer(s, a[0].0, a[0].1).state, a[1..], b);
    }
  }

  lemma OffersJoin(p: Publisher, a: seq<(Topic, nat)>, b: seq<(Topic, nat)>)
    ensures Offers(p, a + b) == Offers(p, a) + Offers(p, b)
  {
  }

  /** From the start: a stream that loses nothing until the offsets are known, and
      anything after. Every burst from the second on comes out but those with a loss. */
  lemma StreamThenLosses(p: Publisher, calm: seq<(Topic, nat)>, deliveries: seq<(Topic, nat)>)
    requires |p.base| == TOPICS && Publishes(p) && Clean(p) && Lossless(Zeros(), calm)
    requires var n := Counted(Zeros(), calm); MinOf(n) >= 2 && Lossy(n, deliveries)
    ensures var n := Counted(Zeros(), calm);
      var r, lost := Run(Initial(), Offers(p, calm + deliveries)), Losses(n, deliveries);
      && Exactly(p, r.out, lost, 1, MinOf(Ends(n, deliveries)))
      && r.state.droppedFrames == Run(Initial(), Offers(p, calm)).state.droppedFrames + |lost|
      && r.state.resyncs == Run(Initial(), Offers(p, calm)).state.resyncs
  {
    hide Publishes, Clean, Tracks, MinOf, MaxOf, Exactly, Run, Lossy, Lossless, Close, BurstsTo, Counted, Ends, Losses;
    StartTracks(p);
    LosslessRun(p, Initial(), Zeros(), calm);
    var n, calmed := Counted(Zeros(), calm), Run(Initial(), Offers(p, calm));
    LossyStream(p, calmed.state, n, deliveries);
    OffersJoin(p, calm, deliveries);
    RunJoin(Initial(), Offers(p, calm), Offers(p, deliveries));
    StreamIs(p, calm);
    BurstsToAre(p, MinOf(n));
    LaterLosses(n, deliveries);
    ExactlyJoin(p, calmed.out, Run(calmed.state, Offers(p, deliveries)).out, Losses(n, deliveries), MinOf(n),
                MinOf(Ends(n, deliveries)));
  }

  /** All the bursts from 1 to mid - 1, then those that lack nothing up to hi. */
  lemma ExactlyJoin(p: Publisher, a: seq<Emission>, b: seq<Emission>, lost: set<nat>, mid: nat, hi: nat)
    requires |p.base| == TOPICS && 2 <= mid <= hi && FromSecond(p, a, mid - 1) && Exactly(p, b, lost, mid, hi)
    requires forall k: nat :: k in lost ==> k >= mid
    ensures Exactly(p, a + b, lost, 1, hi)
  {
    hide OneBurst;
    forall k: nat | 1 <= k < hi
      ensures Among(a + b, p.base[LIDAR] + k) <==> k !in lost
    {
      AmongJoin(a, b, p.base[LIDAR] + k);
      if k < mid {
        assert a[k - 1].id == p.base[LIDAR] + k;
      }
    }
  }

  lemma AmongJoin(a: seq<Emission>, b: seq<Emission>, id: int)
    ensures Among(a + b, id) <==> Among(a, id) || Among(b, id)
  {
    if Among(a, id) {
      var i :| 0 <= i < |a| && a[i].id == id;
      assert (a + b)[i].id == id;
    }
    if Among(b, id) {
      var i :| 0 <= i < |b| && b[i].id == id;
      assert (a + b)[|a| + i].id == id;
    }
  }
}
