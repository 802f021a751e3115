/**
 The aligner as the object it is: estimates and their stamps in two parallel
 lists, a queue of waiting truth samples, and the calls that update them.
 */
module Aligner {
  import opened Options
  import opened Alignment

  /** A window that is not positive is refused. */
  method Create(window: real) returns (a: Option<Aligner>)
    ensures a.Some? <==> window > 0.0
    ensures a.Some? ==> fresh(a.value) && a.value.Valid() && a.value.Abs() == Start(window)
  {
    if window <= 0.0 {
      return None;
    }
    var made := new Aligner(window);
    a := Some(made);
  }

  class Aligner {
    const window: real
    var estimates: seq<Pose>
    var stamps: seq<real>
    var pending: seq<Pose>
    var latestTruth: Option<real>

    ghost predicate Valid()
      reads this
    {
      && |stamps| == |estimates|
      && (forall i :: 0 <= i < |stamps| ==> stamps[i] == estimates[i].stamp)
    }

    ghost function Abs(): State
      reads this
    {
      State(window, estimates, pending, latestTruth)
    }

    constructor (window: real)
      requires window > 0.0
      ensures Valid() && Abs() == Start(window)
    {
      this.window := window;
      estimates, stamps, pending, latestTruth := [], [], [], None;
    }

    /** bisect_left on the stamps. */
    method BisectLeft(stamp: real) returns (index: nat)
      requires Valid()
      ensures index == Left(estimates, stamp)
    {
      index := 0;
      while index < |stamps| && stamps[index] < stamp
        invariant index <= |estimates|
        invariant Left(estimates, stamp) == index + Left(estimates[index..], stamp)
      {
        assert estimates[index..][1..] == estimates[index + 1..];
        index := index + 1;
      }
    }

    /** bisect_right on the stamps. */
    method BisectRight(stamp: real) returns (index: nat)
      requires Valid()
      ensures index == Right(estimates, stamp)
    {
      index := 0;
      while index < |stamps| && stamps[index] <= stamp
        invariant index <= |estimates|
        invariant Right(estimates, stamp) == index + Right(estimates[index..], stamp)
      {
        assert estimates[index..][1..] == estimates[index + 1..];
        index := index + 1;
      }
    }

    method AddEstimate(pose: Pose) returns (pairs: seq<Pair>)
      requires Valid()
      modifies this
      ensures Valid() && Result(Abs(), pairs) == Step(old(Abs()), Estimate(pose))
    {
      hide Left, Right, View, Alignment.Resolve;
      var index := BisectRight(pose.stamp);
      stamps := stamps[..index] + [pose.stamp] + stamps[index..];
      estimates := estimates[..index] + [pose] + estimates[index..];
      assert Abs() == Accept(old(Abs()), Estimate(pose));
      pairs := Resolve(false);
    }

    method AddTruth(pose: Pose) returns (pairs: seq<Pair>)
      requires Valid()
      modifies this
      ensures Valid() && Result(Abs(), pairs) == Step(old(Abs()), Truth(pose))
    {
      hide Alignment.Resolve, Discard;
      pending := pending + [pose];
      latestTruth := Later(latestTruth, pose.stamp);
      pairs := Resolve(false);
    }

    /** No more estimates will come: nothing is left waiting. */
    method Flush() returns (pairs: seq<Pair>)
      requires Valid()
      modifies this
      ensures Valid() && Result(Abs(), pairs) == Alignment.Flush(old(Abs()))
    {
      pairs := Resolve(true);
    }

    method EstimateAt(stamp: real, final: bool) returns (d: Decision)
      requires Valid()
      ensures d == Decide(Abs(), stamp, final)
    {
      var index := BisectLeft(stamp);
      if index < |stamps| && stamps[index] == stamp {
        return Decided(Some(estimates[index]));
      }
      var hasBefore := index > 0;
      var hasAfter := index < |stamps|;
      if hasAfter {
        if !hasBefore {
          return Decided(None);
        }
        var before, after := estimates[index - 1], estimates[index];
        if after.stamp - before.stamp > window {
          return Decided(None);
        }
        return Decided(Some(Interpolate(before, after, stamp)));
      }
      if final || (latestTruth.Some? && latestTruth.value - stamp > window) {
        return Decided(None);
      }
      return Undecided;
    }

    method Resolve(final: bool) returns (pairs: seq<Pair>)
      requires Valid()
      modifies this
      ensures Valid()
      ensures var r := Alignment.Resolve(old(Abs()), final); Abs() == Discard(r.state) && pairs == r.pairs
    {
      hide Decide, Discard;
      pairs := [];
      ghost var goal := Alignment.Resolve(Abs(), final);
      while pending != []
        invariant Valid()
        invariant goal == Alignment.Result(Alignment.Resolve(Abs(), final).state,
                                           pairs + Alignment.Resolve(Abs(), final).pairs)
        decreases |pending|
      {
        var truth := pending[0];
        var d := EstimateAt(truth.stamp, final);
        if d == Undecided {
          break;
        }
        ghost var rest := Alignment.Resolve(Abs().(pending := pending[1..]), final).pairs;
        assert pairs + ([Pair(truth, d.estimate)] + rest) == (pairs + [Pair(truth, d.estimate)]) + rest;
        pending := pending[1..];
        pairs := pairs + [Pair(truth, d.estimate)];
      }
      assert Alignment.Resolve(Abs(), final).pairs == [];
      assert pairs + [] == pairs;
      DiscardUnneededEstimates();
    }

    /** Drops the estimates that neither the oldest waiting sample nor a later one can use. */
    method DiscardUnneededEstimates()
      requires Valid()
      modifies this
      ensures Valid() && Abs() == Discard(old(Abs()))
    {
      hide Left;
      var horizon := if pending != [] then Some(pending[0].stamp) else latestTruth;
      if horizon.Some? {
        var index := BisectLeft(horizon.value);
        var keepFrom := if index > 1 then index - 1 else 0;
        if keepFrom > 0 {
          stamps := stamps[keepFrom..];
          estimates := estimates[keepFrom..];
        }
      }
    }
  }

  lemma LiveTurn(s: State, events: seq<Event>, i: nat)
    requires i < |events|
    ensures var r := Step(s, events[i]); Live(s, events[i..]) == r.pairs + Live(r.state, events[i + 1..])
  {
    hide Step;
    assert events[i..][1..] == events[i + 1..] && events[i..][0] == events[i];
  }

  lemma EstimateNeverPairs(s: State, pose: Pose)
    requires s.pending == []
    ensures Step(s, Estimate(pose)).pairs == [] && Step(s, Estimate(pose)).state.pending == []
  {
  }

  /** Offline alignment: sorts both lists and feeds every estimate first. */
  method Align(estimates: seq<Pose>, truth: seq<Pose>, window: real) returns (r: Option<seq<Pair>>)
    ensures r.Some? <==> window > 0.0
    ensures r.Some? ==> r.value == Alignment.Align(estimates, truth, window)
  {
    hide Step, SortByStamp, Live, Alignment.Flush;
    var made := Create(window);
    if made == None {
      return None;
    }
    var aligner := made.value;
    var es, ts := SortByStamp(estimates), SortByStamp(truth);
    ghost var events := Estimates(es) + Truths(ts);
    ghost var goal := Live(Start(window), events);
    assert events[0..] == events;
    for i := 0 to |es|
      invariant aligner.Valid() && fresh(aligner) && aligner.pending == []
      invariant Live(aligner.Abs(), events[i..]) == goal
    {
      LiveTurn(aligner.Abs(), events, i);
      EstimateNeverPairs(aligner.Abs(), es[i]);
      var _ := aligner.AddEstimate(es[i]);
    }
    var pairs := [];
    for j := 0 to |ts|
      invariant aligner.Valid() && fresh(aligner)
      invariant pairs + Live(aligner.Abs(), events[|es| + j..]) == goal
    {
      LiveTurn(aligner.Abs(), events, |es| + j);
      var more := aligner.AddTruth(ts[j]);
      assert (pairs + more) + Live(aligner.Abs(), events[|es| + j + 1..])
          == pairs + (more + Live(aligner.Abs(), events[|es| + j + 1..]));
      pairs := pairs + more;
    }
    LiveEnd(aligner.Abs());
    assert events[|es| + |ts|..] == [];
    var last := aligner.Flush();
    r := Some(pairs + last);
  }

  lemma LiveEnd(s: State)
    ensures Live(s, []) == Alignment.Flush(s).pairs
  {
  }
}
