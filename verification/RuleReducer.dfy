/** Advancing all tracks of a line rule by batches of observations, and the final flush. */
module RuleReducer {
  import opened Contracts
  import opened LineReducer
  import Sorting

  /** The tracks of one rule; `order` lists the keys in the order they were first seen. */
  datatype RuleState = RuleState(order: seq<string>, tracks: map<string, TrackState>)

  const EMPTY_STATE := RuleState([], map[])

  ghost predicate WellOrdered(state: RuleState) {
    && (forall t :: t in state.order <==> t in state.tracks)
    && (forall i, j :: 0 <= i < j < |state.order| ==> state.order[i] != state.order[j])
  }

  function TrackOf(state: RuleState, track: string): TrackState {
    if track in state.tracks then state.tracks[track] else EMPTY_TRACK
  }

  function Put(state: RuleState, track: string, ts: TrackState): RuleState {
    RuleState(if track in state.tracks then state.order else state.order + [track], state.tracks[track := ts])
  }

  predicate Degenerate(rule: LineRule) {
    rule.lineStart.x == rule.lineEnd.x && rule.lineStart.y == rule.lineEnd.y
  }

  function Observe(state: RuleState, rule: LineRule, obs: Observation): Result<RuleState, RuleError> {
    if Degenerate(rule) then Err(DegenerateLine)
    else
      var after := LineTrackState(TrackOf(state, obs.trackId), rule, obs.trackId, Classify(rule, obs));
      if after.Err? then Err(after.error) else Ok(Put(state, obs.trackId, after.value))
  }

  function ObserveAll(state: RuleState, rule: LineRule, ordered: seq<Observation>): Result<RuleState, RuleError> {
    if |ordered| == 0 then Ok(state)
    else
      var before := ObserveAll(state, rule, ordered[..|ordered| - 1]);
      if before.Err? then before else Observe(before.value, rule, ordered[|ordered| - 1])
  }

  // ---------------------------------------------------------------- the stable sort by source time

  predicate Earlier(a: Observation, b: Observation) {
    a.timeMs < b.timeMs
  }

  function SortByTime(s: seq<Observation>): seq<Observation> {
    Sorting.Sort(Earlier, s)
  }

  predicate TimeOrdered(s: seq<Observation>) {
    forall i, j :: 0 <= i < j < |s| ==> s[i].timeMs <= s[j].timeMs
  }

  /** The observations of one track, in the given order. */
  function OfTrack(s: seq<Observation>, track: string): seq<Observation> {
    if |s| == 0 then []
    else
      var before := OfTrack(s[..|s| - 1], track);
      if s[|s| - 1].trackId == track then before + [s[|s| - 1]] else before
  }

  lemma SortSorts(s: seq<Observation>)
    ensures TimeOrdered(SortByTime(s)) && multiset(SortByTime(s)) == multiset(s)
  {
    Sorting.SortKeeps(Earlier, s);
    Sorting.SortOrders(Earlier, s);
    var sorted := SortByTime(s);
    forall i, j | 0 <= i < j < |sorted| ensures sorted[i].timeMs <= sorted[j].timeMs {
      assert !Earlier(sorted[j], sorted[i]);
    }
  }

  /** Everything in `a` happened no later than anything in `b`. */
  ghost predicate NoLater(a: seq<Observation>, b: seq<Observation>) {
    forall x, y :: x in a && y in b ==> x.timeMs <= y.timeMs
  }

  lemma SortMembers(s: seq<Observation>)
    ensures forall x :: x in SortByTime(s) <==> x in s
  {
    forall x ensures x in SortByTime(s) <==> x in s {
      Sorting.SortMembers(Earlier, s, x);
    }
  }

  lemma {:induction false} InsertIntoTail(a: seq<Observation>, b: seq<Observation>, obs: Observation)
    requires forall x :: x in a ==> x.timeMs <= obs.timeMs
    ensures Sorting.Insert(Earlier, obs, a + b) == a + Sorting.Insert(Earlier, obs, b)
  {
    if |b| == 0 {
      assert a + b == a;
    } else if Earlier(obs, b[|b| - 1]) {
      assert (a + b)[..|a + b| - 1] == a + b[..|b| - 1];
      InsertIntoTail(a, b[..|b| - 1], obs);
    }
  }

  /** Sorting batch by batch is sorting the whole, when batches arrive in time order. */
  lemma {:induction false} SortSplits(a: seq<Observation>, b: seq<Observation>)
    requires NoLater(a, b)
    ensures SortByTime(a + b) == SortByTime(a) + SortByTime(b)
  {
    if |b| == 0 {
      assert a + b == a;
    } else {
      var init, last := b[..|b| - 1], b[|b| - 1];
      assert (a + b)[..|a + b| - 1] == a + init;
      SortSplits(a, init);
      SortMembers(a);
      InsertIntoTail(SortByTime(a), SortByTime(init), last);
    }
  }

  // ---------------------------------------------------------------- tracks do not influence each other

  lemma {:induction false} ObserveAllSplits(state: RuleState, rule: LineRule, a: seq<Observation>, b: seq<Observation>)
    ensures var first := ObserveAll(state, rule, a);
            ObserveAll(state, rule, a + b) == if first.Err? then first else ObserveAll(first.value, rule, b)
  {
    if |b| == 0 {
      assert a + b == a;
    } else {
      assert (a + b)[..|a + b| - 1] == a + b[..|b| - 1];
      ObserveAllSplits(state, rule, a, b[..|b| - 1]);
    }
  }

  ghost predicate AllTracksAccepted(state: RuleState, rule: LineRule, ordered: seq<Observation>) {
    forall t :: FoldOf(state, rule, ordered, t).Ok?
  }

  /** The state machine of one track, run on that track's observations alone. */
  function FoldOf(state: RuleState, rule: LineRule, ordered: seq<Observation>, track: string): Result<TrackState, RuleError> {
    Fold(TrackOf(state, track), rule, track, ClassifyAll(rule, OfTrack(ordered, track)))
  }

  lemma FoldOfLast(state: RuleState, rule: LineRule, ordered: seq<Observation>, track: string)
    requires |ordered| > 0
    ensures var before := FoldOf(state, rule, ordered[..|ordered| - 1], track);
            var last := ordered[|ordered| - 1];
            FoldOf(state, rule, ordered, track) ==
            if last.trackId != track || before.Err? then before
            else LineTrackState(before.value, rule, track, Classify(rule, last))
  {
    var init, last := ordered[..|ordered| - 1], ordered[|ordered| - 1];
    if last.trackId == track {
      var samples := ClassifyAll(rule, OfTrack(ordered, track));
      assert samples[..|samples| - 1] == ClassifyAll(rule, OfTrack(init, track));
    }
  }

  /** Feeding interleaved tracks gives each track exactly what feeding it alone would give;
      the whole is refused exactly when some track is. */
  lemma {:induction false} TracksAreIndependent(state: RuleState, rule: LineRule, ordered: seq<Observation>)
    requires !Degenerate(rule)
    ensures var after := ObserveAll(state, rule, ordered);
            (after.Ok? <==> AllTracksAccepted(state, rule, ordered))
            && (after.Ok? ==> forall t :: TrackOf(after.value, t) == FoldOf(state, rule, ordered, t).value)
            && (after.Ok? ==> forall t :: t in after.value.tracks <==> t in state.tracks || OfTrack(ordered, t) != [])
  {
    if |ordered| == 0 {
      assert forall t :: ClassifyAll(rule, OfTrack(ordered, t)) == [];
    } else {
      var init, last := ordered[..|ordered| - 1], ordered[|ordered| - 1];
      TracksAreIndependent(state, rule, init);
      forall t
        ensures var before := FoldOf(state, rule, init, t);
                FoldOf(state, rule, ordered, t) ==
                if last.trackId != t || before.Err? then before
                else LineTrackState(before.value, rule, t, Classify(rule, last))
      {
        FoldOfLast(state, rule, ordered, t);
      }
      var before := ObserveAll(state, rule, init);
      if before.Ok? {
        assert TrackOf(before.value, last.trackId) == FoldOf(state, rule, init, last.trackId).value;
        assert ObserveAll(state, rule, ordered).Ok? <==> FoldOf(state, rule, ordered, last.trackId).Ok?;
      } else {
        var t :| FoldOf(state, rule, init, t).Err?;
        assert FoldOf(state, rule, ordered, t).Err?;
      }
    }
  }

  lemma {:induction false} OrderIsKept(state: RuleState, rule: LineRule, ordered: seq<Observation>)
    requires WellOrdered(state)
    ensures var after := ObserveAll(state, rule, ordered); after.Ok? ==> WellOrdered(after.value)
  {
    if |ordered| > 0 {
      OrderIsKept(state, rule, ordered[..|ordered| - 1]);
    }
  }

  // ---------------------------------------------------------------- batches

  /** Advances the state with one batch, which is first put in time order. */
  method ApplyObservations(rule: LineRule, observations: seq<Observation>, state: Option<RuleState>)
    returns (r: Result<RuleState, RuleError>)
    ensures r == ApplyBatch(if state.None? then EMPTY_STATE else state.value, rule, observations)
  {
    var initial := if state.None? then EMPTY_STATE else state.value;
    var current := initial;
    var ordered := SortByTime(observations);
    for n := 0 to |ordered|
      invariant ObserveAll(initial, rule, ordered[..n]) == Ok(current)
    {
      ObserveNext(initial, rule, ordered, n);
      var after := Observe(current, rule, ordered[n]);
      if after.Err? {
        Failing(initial, rule, ordered, n + 1);
        return after;
      }
      current := after.value;
    }
    assert ordered[..|ordered|] == ordered;
    r := Ok(current);
  }

  lemma ObserveNext(state: RuleState, rule: LineRule, ordered: seq<Observation>, n: nat)
    requires n < |ordered|
    ensures ObserveAll(state, rule, ordered[..n + 1]) ==
            var before := ObserveAll(state, rule, ordered[..n]);
            if before.Err? then before else Observe(before.value, rule, ordered[n])
  {
    assert ordered[..n + 1][..n] == ordered[..n];
  }

  function ApplyBatch(state: RuleState, rule: LineRule, observations: seq<Observation>): Result<RuleState, RuleError> {
    ObserveAll(state, rule, SortByTime(observations))
  }

  lemma Failing(state: RuleState, rule: LineRule, ordered: seq<Observation>, n: nat)
    requires n <= |ordered| && ObserveAll(state, rule, ordered[..n]).Err?
    ensures ObserveAll(state, rule, ordered) == ObserveAll(state, rule, ordered[..n])
  {
    assert ordered == ordered[..n] + ordered[n..];
    ObserveAllSplits(state, rule, ordered[..n], ordered[n..]);
  }

  function ApplyFrames(state: RuleState, rule: LineRule, frames: seq<seq<Observation>>): Result<RuleState, RuleError> {
    if |frames| == 0 then Ok(state)
    else
      var before := ApplyFrames(state, rule, frames[..|frames| - 1]);
      if before.Err? then before else ApplyBatch(before.value, rule, frames[|frames| - 1])
  }

  function Flatten(frames: seq<seq<Observation>>): seq<Observation> {
    if |frames| == 0 then [] else Flatten(frames[..|frames| - 1]) + frames[|frames| - 1]
  }

  /** The observations in the order they are processed: frame by frame, each put in time order. */
  function FlattenSorted(frames: seq<seq<Observation>>): seq<Observation> {
    if |frames| == 0 then [] else FlattenSorted(frames[..|frames| - 1]) + SortByTime(frames[|frames| - 1])
  }

  ghost predicate FramesInOrder(frames: seq<seq<Observation>>) {
    forall i, j :: 0 <= i < j < |frames| ==> NoLater(frames[i], frames[j])
  }

  lemma FlattenMembers(frames: seq<seq<Observation>>)
    ensures forall x :: x in Flatten(frames) ==> exists i :: 0 <= i < |frames| && x in frames[i]
  {
  }

  /** Frame by frame or all at once: the reducer ends in the same state, refusals included. */
  lemma {:induction false} FrameByFrame(state: RuleState, rule: LineRule, frames: seq<seq<Observation>>)
    requires FramesInOrder(frames)
    ensures ApplyFrames(state, rule, frames) == ApplyBatch(state, rule, Flatten(frames))
  {
    if |frames| > 0 {
      var init, last := frames[..|frames| - 1], frames[|frames| - 1];
      FrameByFrame(state, rule, init);
      assert NoLater(Flatten(init), last) by {
        FlattenMembers(init);
        forall x, y | x in Flatten(init) && y in last ensures x.timeMs <= y.timeMs {
          var i :| 0 <= i < |init| && x in init[i];
          assert NoLater(frames[i], frames[|frames| - 1]);
        }
      }
      SortSplits(Flatten(init), last);
      ObserveAllSplits(state, rule, SortByTime(Flatten(init)), SortByTime(last));
    }
  }
}
