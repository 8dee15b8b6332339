/** Zone rules over all tracks of a run: frames of observations in, the times spent inside out. */
module ZoneRules {
  import opened Contracts
  import opened LineReducer
  import opened ZoneReducer
  import Reducer = RuleReducer
  import IntervalMerge
  import Polygons
  import Segments

  /** The tracks of one zone rule; `order` lists the keys in the order they were first seen. */
  datatype ZoneState = ZoneState(order: seq<string>, tracks: map<string, ZoneTrack>)

  const NO_TRACKS := ZoneState([], map[])

  ghost predicate Sound(state: ZoneState) {
    && (forall t :: t in state.order <==> t in state.tracks)
    && (forall t :: t in state.tracks ==> Coherent(state.tracks[t]))
  }

  function ZoneTrackOf(state: ZoneState, track: string): ZoneTrack {
    if track in state.tracks then state.tracks[track] else EMPTY_ZONE_TRACK
  }

  function Put(state: ZoneState, track: string, ts: ZoneTrack): ZoneState {
    ZoneState(if track in state.tracks then state.order else state.order + [track], state.tracks[track := ts])
  }

  function Observe(state: ZoneState, rule: ZoneRule, obs: Observation): (r: Result<ZoneState, ZoneError>)
    requires Sound(state)
    ensures r.Ok? ==> Sound(r.value)
  {
    var sample := ClassifyZone(rule, obs);
    if sample.Err? then Err(sample.error)
    else
      var after := ZoneTrackState(rule, obs.trackId, ZoneTrackOf(state, obs.trackId), sample.value);
      if after.Err? then Err(after.error) else Ok(Put(state, obs.trackId, after.value))
  }

  function ObserveAll(state: ZoneState, rule: ZoneRule, ordered: seq<Observation>): (r: Result<ZoneState, ZoneError>)
    requires Sound(state)
    ensures r.Ok? ==> Sound(r.value)
  {
    if |ordered| == 0 then Ok(state)
    else
      var before := ObserveAll(state, rule, ordered[..|ordered| - 1]);
      if before.Err? then before else Observe(before.value, rule, ordered[|ordered| - 1])
  }

  function ApplyBatch(state: ZoneState, rule: ZoneRule, observations: seq<Observation>): (r: Result<ZoneState, ZoneError>)
    requires Sound(state)
    ensures r.Ok? ==> Sound(r.value)
  {
    ObserveAll(state, rule, Reducer.SortByTime(observations))
  }

  function ApplyFrames(rule: ZoneRule, batches: seq<seq<Observation>>): (r: Result<ZoneState, ZoneError>)
    ensures r.Ok? ==> Sound(r.value)
  {
    if |batches| == 0 then Ok(NO_TRACKS)
    else
      var before := ApplyFrames(rule, batches[..|batches| - 1]);
      if before.Err? then before else ApplyBatch(before.value, rule, batches[|batches| - 1])
  }

  lemma ObserveNext(state: ZoneState, rule: ZoneRule, ordered: seq<Observation>, n: nat)
    requires Sound(state) && n < |ordered|
    ensures ObserveAll(state, rule, ordered[..n + 1]) ==
            var before := ObserveAll(state, rule, ordered[..n]);
            if before.Err? then before else Observe(before.value, rule, ordered[n])
  {
    hide Observe;
    assert ordered[..n + 1][..n] == ordered[..n];
  }

  lemma {:induction false} RefusalStays(state: ZoneState, rule: ZoneRule, ordered: seq<Observation>, n: nat)
    requires Sound(state) && n <= |ordered| && ObserveAll(state, rule, ordered[..n]).Err?
    ensures ObserveAll(state, rule, ordered) == ObserveAll(state, rule, ordered[..n])
    decreases |ordered|
  {
    hide Observe;
    if n == |ordered| {
      assert ordered[..n] == ordered;
    } else {
      assert ordered[..|ordered| - 1][..n] == ordered[..n];
      RefusalStays(state, rule, ordered[..|ordered| - 1], n);
    }
  }

  /** Advances the state with one batch, which is first put in time order. */
  method ApplyObservations(rule: ZoneRule, observations: seq<Observation>, state: ZoneState)
    returns (r: Result<ZoneState, ZoneError>)
    requires Sound(state)
    ensures r == ApplyBatch(state, rule, observations)
  {
    hide Observe;
    var ordered := Reducer.SortByTime(observations);
    var current := state;
    for n := 0 to |ordered|
      invariant Sound(current) && ObserveAll(state, rule, ordered[..n]) == Ok(current)
    {
      ObserveNext(state, rule, ordered, n);
      var after := Observe(current, rule, ordered[n]);
      if after.Err? {
        RefusalStays(state, rule, ordered, n + 1);
        return after;
      }
      current := after.value;
    }
    assert ordered[..|ordered|] == ordered;
    r := Ok(current);
  }

  // ---------------------------------------------------------------- what a track shows of the zone

  /** The bottom centre of the box lies in the polygon or on its boundary, up to the tolerance. */
  predicate AnchorInside(rule: ZoneRule, obs: Observation)
    requires |rule.polygon| >= 3
  {
    Polygons.InPolygon(BoxAnchor(obs.box, BottomCenter), rule.polygon, Polygons.Inside, Segments.TOLERANCE) == Ok(true)
  }

  /** The samples of one track: when it was seen, and whether its anchor was inside. */
  function TrackSamples(rule: ZoneRule, ordered: seq<Observation>, track: string): seq<ZoneSample>
    requires |rule.polygon| >= 3
  {
    if |ordered| == 0 then []
    else
      var before, last := TrackSamples(rule, ordered[..|ordered| - 1], track), ordered[|ordered| - 1];
      if last.trackId == track then before + [ZoneSample(last.timeMs, AnchorInside(rule, last))] else before
  }

  /** Each sample is an observation of that track, and the polygon decided it. */
  lemma {:induction false} SamplesAre(rule: ZoneRule, ordered: seq<Observation>, track: string)
    requires |rule.polygon| >= 3
    ensures var mine := Reducer.OfTrack(ordered, track);
            |TrackSamples(rule, ordered, track)| == |mine|
            && forall i :: 0 <= i < |mine| ==>
                 TrackSamples(rule, ordered, track)[i] == ZoneSample(mine[i].timeMs, AnchorInside(rule, mine[i]))
  {
    hide AnchorInside;
    if |ordered| > 0 {
      SamplesAre(rule, ordered[..|ordered| - 1], track);
    }
  }

  lemma PolygonDecides(rule: ZoneRule, obs: Observation)
    ensures |rule.polygon| >= 3 ==> ClassifyZone(rule, obs) == Ok(ZoneSample(obs.timeMs, AnchorInside(rule, obs)))
    ensures |rule.polygon| < 3 ==> ClassifyZone(rule, obs) == Err(BadPolygon)
  {
    hide Polygons.OnBoundary, Polygons.OddCrossings;
  }

  ghost predicate AllAccepted(rule: ZoneRule, ordered: seq<Observation>)
    requires |rule.polygon| >= 3
  {
    forall t :: FoldZone(rule, t, TrackSamples(rule, ordered, t)).Ok?
  }

  lemma SamplesNext(rule: ZoneRule, ordered: seq<Observation>, track: string)
    requires |rule.polygon| >= 3 && |ordered| > 0
    ensures var init, last := ordered[..|ordered| - 1], ordered[|ordered| - 1];
            var before := FoldZone(rule, track, TrackSamples(rule, init, track));
            FoldZone(rule, track, TrackSamples(rule, ordered, track)) ==
            if last.trackId != track || before.Err? then before
            else ZoneTrackState(rule, track, before.value, ZoneSample(last.timeMs, AnchorInside(rule, last)))
  {
    hide AnchorInside, ZoneTrackState;
    var before := TrackSamples(rule, ordered[..|ordered| - 1], track);
    var last := ZoneSample(ordered[|ordered| - 1].timeMs, AnchorInside(rule, ordered[|ordered| - 1]));
    assert (before + [last])[..|before|] == before;
  }

  /** Interleaved tracks end as if each had been fed alone; the whole is refused exactly when one is. */
  lemma {:induction false} TracksAreIndependent(rule: ZoneRule, ordered: seq<Observation>)
    requires |rule.polygon| >= 3
    ensures var after := ObserveAll(NO_TRACKS, rule, ordered);
            && (after.Ok? <==> AllAccepted(rule, ordered))
            && (after.Ok? ==> forall t :: Ok(ZoneTrackOf(after.value, t)) == FoldZone(rule, t, TrackSamples(rule, ordered, t)))
  {
    hide FoldZone, ZoneTrackState, ClassifyZone, AnchorInside, TrackSamples;
    if |ordered| == 0 {
      forall t: string ensures FoldZone(rule, t, TrackSamples(rule, ordered, t)) == Ok(EMPTY_ZONE_TRACK) {
        NothingSeen(rule, t);
      }
    } else {
      var init, last := ordered[..|ordered| - 1], ordered[|ordered| - 1];
      TracksAreIndependent(rule, init);
      PolygonDecides(rule, last);
      forall t: string
        ensures var before := FoldZone(rule, t, TrackSamples(rule, init, t));
                FoldZone(rule, t, TrackSamples(rule, ordered, t)) ==
                if last.trackId != t || before.Err? then before
                else ZoneTrackState(rule, t, before.value, ZoneSample(last.timeMs, AnchorInside(rule, last)))
      {
        SamplesNext(rule, ordered, t);
      }
      var before := FoldZone(rule, last.trackId, TrackSamples(rule, init, last.trackId));
    }
  }

  lemma NothingSeen(rule: ZoneRule, track: string)
    requires |rule.polygon| >= 3
    ensures FoldZone(rule, track, TrackSamples(rule, [], track)) == Ok(EMPTY_ZONE_TRACK)
  {
  }

  lemma {:induction false} ObserveAllSplits(rule: ZoneRule, a: seq<Observation>, b: seq<Observation>)
    ensures var first := ObserveAll(NO_TRACKS, rule, a);
            ObserveAll(NO_TRACKS, rule, a + b) == if first.Err? then first else ObserveAll(first.value, rule, b)
  {
    hide Observe;
    if |b| == 0 {
      assert a + b == a;
    } else {
      ObserveAllSplits(rule, a, b[..|b| - 1]);
      assert (a + b)[..|a + b| - 1] == a + b[..|b| - 1];
    }
  }

  lemma {:induction false} FramesAreOneTrace(rule: ZoneRule, batches: seq<seq<Observation>>)
    ensures ApplyFrames(rule, batches) == ObserveAll(NO_TRACKS, rule, Reducer.FlattenSorted(batches))
  {
    hide ObserveAll;
    if |batches| > 0 {
      FramesAreOneTrace(rule, batches[..|batches| - 1]);
      ObserveAllSplits(rule, Reducer.FlattenSorted(batches[..|batches| - 1]), Reducer.SortByTime(batches[|batches| - 1]));
    } else {
      assert ObserveAll(NO_TRACKS, rule, []) == Ok(NO_TRACKS) by { NothingObserved(rule); }
    }
  }

  lemma NothingObserved(rule: ZoneRule)
    ensures ObserveAll(NO_TRACKS, rule, []) == Ok(NO_TRACKS)
  {
  }

  // ---------------------------------------------------------------- the end of the source

  /** Candidates of the first `count` tracks, in the order the tracks were first seen. */
  function Candidates(state: ZoneState, rule: ZoneRule, endMs: nat, count: nat): Result<seq<ZoneCandidate>, ZoneError>
    requires count <= |state.order| && forall t :: t in state.order ==> t in state.tracks
  {
    if count == 0 then Ok([])
    else
      var before, track := Candidates(state, rule, endMs, count - 1), state.order[count - 1];
      var one := TrackCandidates(rule, track, state.tracks[track], endMs);
      if before.Err? then before else if one.Err? then one else Ok(before.value + one.value)
  }

  lemma {:induction false} FlushRefusalStays(state: ZoneState, rule: ZoneRule, endMs: nat, n: nat, count: nat)
    requires n <= count <= |state.order| && forall t :: t in state.order ==> t in state.tracks
    requires Candidates(state, rule, endMs, n).Err?
    ensures Candidates(state, rule, endMs, count) == Candidates(state, rule, endMs, n)
  {
    hide TrackCandidates;
    if n < count {
      FlushRefusalStays(state, rule, endMs, n, count - 1);
    }
  }

  method Flush(state: ZoneState, rule: ZoneRule, endMs: nat) returns (r: Result<seq<ZoneCandidate>, ZoneError>)
    requires Sound(state)
    ensures r == Candidates(state, rule, endMs, |state.order|)
  {
    hide TrackCandidates;
    var candidates := [];
    for n := 0 to |state.order|
      invariant Candidates(state, rule, endMs, n) == Ok(candidates)
    {
      var one := FlushTrack(rule, state.order[n], state.tracks[state.order[n]], endMs);
      if one.Err? {
        FlushRefusalStays(state, rule, endMs, n + 1, |state.order|);
        return one;
      }
      candidates := candidates + one.value;
    }
    r := Ok(candidates);
  }

  lemma {:induction false} CandidateHasTrack(state: ZoneState, rule: ZoneRule, endMs: nat, count: nat, c: ZoneCandidate)
    requires count <= |state.order| && forall t :: t in state.order ==> t in state.tracks
    requires Candidates(state, rule, endMs, count).Ok?
    ensures forall n :: 0 <= n < count ==> TrackCandidates(rule, state.order[n], state.tracks[state.order[n]], endMs).Ok?
    ensures c in Candidates(state, rule, endMs, count).value <==>
            exists n :: 0 <= n < count && c in TrackCandidates(rule, state.order[n], state.tracks[state.order[n]], endMs).value
  {
    hide TrackCandidates;
    if count > 0 {
      CandidateHasTrack(state, rule, endMs, count - 1, c);
    }
  }

  lemma {:induction false} CandidatesNameRule(state: ZoneState, rule: ZoneRule, endMs: nat, count: nat)
    requires count <= |state.order| && forall t :: t in state.order ==> t in state.tracks
    requires Candidates(state, rule, endMs, count).Ok?
    ensures forall c :: c in Candidates(state, rule, endMs, count).value ==> c.ruleId == rule.ruleId
  {
    hide TrackCandidates;
    if count > 0 {
      CandidatesNameRule(state, rule, endMs, count - 1);
      TrackNamesRule(rule, state.order[count - 1], state.tracks[state.order[count - 1]], endMs);
    }
  }

  lemma TrackNamesRule(rule: ZoneRule, track: string, ts: ZoneTrack, endMs: nat)
    requires TrackCandidates(rule, track, ts, endMs).Ok?
    ensures forall c :: c in TrackCandidates(rule, track, ts, endMs).value ==> c.ruleId == rule.ruleId
  {
    hide MergedEpisodes, CandidatesFrom;
    var merged := MergedEpisodes(rule, Pending(rule, track, ts, endMs).value);
    forall c | c in CandidatesFrom(rule, merged) ensures c.ruleId == rule.ruleId {
      var i :| 0 <= i < |merged| && CandidatesFrom(rule, merged)[i] == c;
    }
  }

  /** The candidates of a track name that track. */
  lemma CandidatesNameTrack(rule: ZoneRule, track: string, trace: seq<ZoneSample>, endMs: nat, c: ZoneCandidate)
    requires FoldZone(rule, track, trace).Ok?
    requires TrackCandidates(rule, track, FoldZone(rule, track, trace).value, endMs).Ok?
    requires c in TrackCandidates(rule, track, FoldZone(rule, track, trace).value, endMs).value
    ensures c.trackId == track
  {
    hide FoldZone, IntervalMerge.Merged, CandidatesFrom, StaysOf;
    EpisodesProper(rule, track, trace);
    var pending := Pending(rule, track, FoldZone(rule, track, trace).value, endMs).value;
    var merged := MergedEpisodes(rule, pending);
    var i :| 0 <= i < |merged| && CandidatesFrom(rule, merged)[i] == c;
    assert pending[0] in pending && pending[0].trackId == track;
  }

  /** One candidate of a track contains t exactly when the track stayed inside at t. */
  lemma TrackStays(rule: ZoneRule, track: string, trace: seq<ZoneSample>, endMs: nat, t: int)
    requires rule.mergeGapMs == 0 && FoldZone(rule, track, trace).Ok?
    requires TrackCandidates(rule, track, FoldZone(rule, track, trace).value, endMs).Ok?
    ensures (exists c :: c in TrackCandidates(rule, track, FoldZone(rule, track, trace).value, endMs).value
                         && c.persistence.Contains(t)) <==>
            StayedAt(rule, trace, endMs, t)
  {
    hide FoldZone, StayedAt, MergedEpisodes, CandidatesFrom;
    CandidatesAreStays(rule, track, trace, endMs, t);
    var cs := TrackCandidates(rule, track, FoldZone(rule, track, trace).value, endMs).value;
    assert IntervalMerge.Covered(RangesOf(cs), t) <==> StayedAt(rule, trace, endMs, t);
    if IntervalMerge.Covered(RangesOf(cs), t) {
      var i :| 0 <= i < |cs| && RangesOf(cs)[i].Contains(t);
      assert cs[i] in cs && cs[i].persistence.Contains(t);
    }
    if c :| c in cs && c.persistence.Contains(t) {
      var i :| 0 <= i < |cs| && cs[i] == c;
      assert RangesOf(cs)[i].Contains(t);
    }
  }

  /** A track never seen stays nowhere. */
  lemma UnseenStaysNowhere(rule: ZoneRule, track: string, trace: seq<ZoneSample>, endMs: nat, t: int)
    requires FoldZone(rule, track, trace) == Ok(EMPTY_ZONE_TRACK)
    ensures !StayedAt(rule, trace, endMs, t)
  {
    hide FoldZone, ZoneReducer.Read;
    ZoneReducer.FoldFollows(rule, track, trace);
  }

  /** A whole run of a zone rule: some candidate of a track contains t if and only if the observations
      of that track, frame by frame, show its anchor staying in the polygon at t. */
  lemma ZonesAreStays(rule: ZoneRule, batches: seq<seq<Observation>>, endMs: nat, track: string, t: int)
    requires |rule.polygon| >= 3 && rule.mergeGapMs == 0 && ApplyFrames(rule, batches).Ok?
    requires var state := ApplyFrames(rule, batches).value; Candidates(state, rule, endMs, |state.order|).Ok?
    ensures var state := ApplyFrames(rule, batches).value;
            (exists c :: c in Candidates(state, rule, endMs, |state.order|).value && c.trackId == track && c.persistence.Contains(t)) <==>
            StayedAt(rule, TrackSamples(rule, Reducer.FlattenSorted(batches), track), endMs, t)
  {
    hide StayedAt, TrackSamples, FoldZone, TrackCandidates, Candidates, ApplyFrames, ObserveAll;
    var ordered, state := Reducer.FlattenSorted(batches), ApplyFrames(rule, batches).value;
    FramesAreOneTrace(rule, batches);
    TracksAreIndependent(rule, ordered);
    var trace := TrackSamples(rule, ordered, track);
    assert FoldZone(rule, track, trace) == Ok(ZoneTrackOf(state, track));
    forall c | c in Candidates(state, rule, endMs, |state.order|).value && c.trackId == track
      ensures track in state.tracks && TrackCandidates(rule, track, ZoneTrackOf(state, track), endMs).Ok?
              && c in TrackCandidates(rule, track, ZoneTrackOf(state, track), endMs).value
    {
      CandidateHasTrack(state, rule, endMs, |state.order|, c);
      var n :| 0 <= n < |state.order| && c in TrackCandidates(rule, state.order[n], state.tracks[state.order[n]], endMs).value;
      var seen := TrackSamples(rule, ordered, state.order[n]);
      assert FoldZone(rule, state.order[n], seen) == Ok(ZoneTrackOf(state, state.order[n]));
      CandidatesNameTrack(rule, state.order[n], seen, endMs, c);
    }
    if track in state.tracks {
      SeenTrackStays(rule, state, endMs, track, trace, t);
    } else {
      UnseenStaysNowhere(rule, track, trace, endMs, t);
    }
  }

  lemma SeenTrackStays(rule: ZoneRule, state: ZoneState, endMs: nat, track: string, trace: seq<ZoneSample>, t: int)
    requires Sound(state) && track in state.tracks && rule.mergeGapMs == 0
    requires FoldZone(rule, track, trace) == Ok(state.tracks[track])
    requires Candidates(state, rule, endMs, |state.order|).Ok?
    ensures TrackCandidates(rule, track, state.tracks[track], endMs).Ok?
    ensures forall c :: c in TrackCandidates(rule, track, state.tracks[track], endMs).value ==>
              c in Candidates(state, rule, endMs, |state.order|).value && c.trackId == track
    ensures (exists c :: c in TrackCandidates(rule, track, state.tracks[track], endMs).value && c.persistence.Contains(t)) <==>
            StayedAt(rule, trace, endMs, t)
  {
    hide StayedAt, FoldZone, TrackCandidates, Candidates;
    var n :| 0 <= n < |state.order| && state.order[n] == track;
    var any := ZoneCandidate("", EpisodeId("", "", "", 0, 0), TimeRange(0, 0), "");
    CandidateHasTrack(state, rule, endMs, |state.order|, any);
    TrackStays(rule, track, trace, endMs, t);
    forall c | c in TrackCandidates(rule, track, state.tracks[track], endMs).value
      ensures c in Candidates(state, rule, endMs, |state.order|).value && c.trackId == track
    {
      CandidateHasTrack(state, rule, endMs, |state.order|, c);
      CandidatesNameTrack(rule, track, trace, endMs, c);
    }
  }
}
