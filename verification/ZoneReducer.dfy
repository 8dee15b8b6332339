/** The zone half of the rule reducer: stays inside a polygon, merged when the source ends. */
module ZoneReducer {
  import opened Contracts
  import opened LineReducer
  import opened IntervalMerge
  import Polygons
  import Segments

  datatype ZoneRule = ZoneRule(ruleId: string, polygon: seq<Point>, maxGapMs: int, mergeGapMs: nat)

  datatype ZoneError = BadPolygon | EmptyRange

  datatype ZoneEpisode = ZoneEpisode(id: EpisodeId, trackId: string, persistence: TimeRange)

  datatype ZoneTrack = ZoneTrack(lastTimeMs: Option<nat>, inside: Option<bool>, entryMs: Option<nat>, episodes: seq<ZoneEpisode>)

  const EMPTY_ZONE_TRACK := ZoneTrack(None, None, None, [])

  /** What the state machine reads off one observation. */
  datatype ZoneSample = ZoneSample(timeMs: nat, inside: bool)

  function ClassifyZone(rule: ZoneRule, obs: Observation): Result<ZoneSample, ZoneError> {
    var inside := Polygons.InPolygon(BoxAnchor(obs.box, BottomCenter), rule.polygon, Polygons.Inside, Segments.TOLERANCE);
    if inside.Err? then Err(BadPolygon) else Ok(ZoneSample(obs.timeMs, inside.value))
  }

  function Stay(rule: ZoneRule, track: string, from: nat, to: nat): ZoneEpisode {
    ZoneEpisode(EpisodeId(rule.ruleId, track, "zone", from, to), track, TimeRange(from, to))
  }

  // ---------------------------------------------------------------- the state machine

  predicate Coherent(ts: ZoneTrack) {
    ts.inside == Some(true) ==> ts.entryMs.Some? && ts.lastTimeMs.Some?
  }

  /** An over-long gap while inside throws away everything held, after building one last episode. */
  function AfterGap(rule: ZoneRule, ts: ZoneTrack, s: ZoneSample): (r: Result<ZoneTrack, ZoneError>)
    requires Coherent(ts)
    ensures r.Ok? ==> Coherent(r.value)
  {
    if ts.inside == Some(true) && s.timeMs - ts.lastTimeMs.value > rule.maxGapMs then
      if ts.entryMs.value >= ts.lastTimeMs.value then Err(EmptyRange)
      else Ok(EMPTY_ZONE_TRACK.(lastTimeMs := Some(s.timeMs)))
    else Ok(ts)
  }

  function Enter(ts: ZoneTrack, s: ZoneSample): ZoneTrack {
    ts.(lastTimeMs := Some(s.timeMs), inside := Some(s.inside), entryMs := if s.inside then Some(s.timeMs) else ts.entryMs)
  }

  function ZoneTrackState(rule: ZoneRule, track: string, ts: ZoneTrack, s: ZoneSample): (r: Result<ZoneTrack, ZoneError>)
    requires Coherent(ts)
    ensures r.Ok? ==> Coherent(r.value)
  {
    var base := AfterGap(rule, ts, s);
    if base.Err? then base
    else if base.value.inside.None? || (!base.value.inside.value && s.inside) then Ok(Enter(base.value, s))
    else if base.value.inside.value && !s.inside then
      if base.value.entryMs.value >= s.timeMs then Err(EmptyRange)
      else Ok(ZoneTrack(Some(s.timeMs), Some(false), None,
                        base.value.episodes + [Stay(rule, track, base.value.entryMs.value, s.timeMs)]))
    else Ok(base.value.(lastTimeMs := Some(s.timeMs)))
  }

  function FoldZone(rule: ZoneRule, track: string, trace: seq<ZoneSample>): (r: Result<ZoneTrack, ZoneError>)
    ensures r.Ok? ==> Coherent(r.value)
  {
    if |trace| == 0 then Ok(EMPTY_ZONE_TRACK)
    else
      var before := FoldZone(rule, track, trace[..|trace| - 1]);
      if before.Err? then before else ZoneTrackState(rule, track, before.value, trace[|trace| - 1])
  }

  // ---------------------------------------------------------------- stays, stated on the trace alone

  /** The gap before sample i throws away what came before it. */
  predicate Resets(rule: ZoneRule, trace: seq<ZoneSample>, i: nat)
    requires i < |trace|
  {
    i > 0 && trace[i - 1].inside && trace[i].timeMs - trace[i - 1].timeMs > rule.maxGapMs
  }

  /** Samples a..b are a maximal run inside, within the part of the trace from s on. */
  predicate IsRun(trace: seq<ZoneSample>, s: nat, a: nat, b: nat) {
    s <= a < b <= |trace| && (forall m :: a <= m < b ==> trace[m].inside) && (a == s || !trace[a - 1].inside)
  }

  /** A run that a sample outside has ended. */
  predicate IsStay(trace: seq<ZoneSample>, s: nat, a: nat, b: nat) {
    IsRun(trace, s, a, b) && b < |trace| && !trace[b].inside
  }

  /** Last reset, start of the run going on, stays since the reset. */
  datatype ZoneReading = ZoneReading(start: nat, run: Option<nat>, stays: seq<(nat, nat)>)

  function Read(rule: ZoneRule, trace: seq<ZoneSample>): (r: ZoneReading)
    ensures |trace| > 0 ==> r.start < |trace|
    ensures r.run.Some? ==> r.run.value < |trace|
    ensures forall k :: 0 <= k < |r.stays| ==> r.stays[k].0 < |trace| && r.stays[k].1 < |trace|
  {
    if |trace| == 0 then ZoneReading(0, None, [])
    else
      var n := |trace| - 1;
      var before := Read(rule, trace[..n]);
      if Resets(rule, trace, n) then ZoneReading(n, if trace[n].inside then Some(n) else None, [])
      else if trace[n].inside then before.(run := if before.run.Some? then before.run else Some(n))
      else ZoneReading(before.start, None, if before.run.Some? then before.stays + [(before.run.value, n)] else before.stays)
  }

  /** No reset after s, and one at s unless the trace starts there. */
  ghost predicate StartsStretch(rule: ZoneRule, trace: seq<ZoneSample>, s: nat) {
    && (|trace| > 0 ==> s < |trace|)
    && (s == 0 || (s < |trace| && Resets(rule, trace, s)))
    && forall i :: s < i < |trace| ==> !Resets(rule, trace, i)
  }

  lemma {:induction false} ReadStart(rule: ZoneRule, trace: seq<ZoneSample>)
    ensures StartsStretch(rule, trace, Read(rule, trace).start)
  {
    if |trace| > 0 {
      var n := |trace| - 1;
      ReadStart(rule, trace[..n]);
      assert forall i :: 0 <= i < n ==> Resets(rule, trace[..n], i) == Resets(rule, trace, i);
    }
  }

  lemma {:induction false} ReadRun(rule: ZoneRule, trace: seq<ZoneSample>)
    ensures var r := Read(rule, trace);
            && (|trace| > 0 ==> (r.run.Some? <==> trace[|trace| - 1].inside))
            && (r.run.Some? ==> IsRun(trace, r.start, r.run.value, |trace|))
  {
    if |trace| > 0 {
      var n := |trace| - 1;
      ReadRun(rule, trace[..n]);
      assert forall m :: 0 <= m < n ==> trace[..n][m] == trace[m];
    }
  }

  lemma StayOfPrefix(trace: seq<ZoneSample>, n: nat, s: nat, a: nat, b: nat)
    requires n <= |trace| && b < n
    ensures IsStay(trace[..n], s, a, b) <==> IsStay(trace, s, a, b)
  {
    assert forall m :: 0 <= m < n ==> trace[..n][m] == trace[m];
  }

  lemma NewestStay(rule: ZoneRule, trace: seq<ZoneSample>, a: nat)
    requires |trace| > 0
    ensures var n, r := |trace| - 1, Read(rule, trace);
            IsStay(trace, r.start, a, n) <==> (a, n) in r.stays && (a, n) !in Read(rule, trace[..n]).stays
  {
    var n := |trace| - 1;
    var before, r := Read(rule, trace[..n]), Read(rule, trace);
    ReadRun(rule, trace[..n]);
    assert forall m :: 0 <= m < n ==> trace[..n][m] == trace[m];
    if IsStay(trace, r.start, a, n) {
      assert trace[n - 1].inside;
      var x := before.run.value;
      assert x <= a && a <= x;
    }
  }

  /** The reading lists exactly the stays since the last reset. */
  lemma {:induction false} ReadStays(rule: ZoneRule, trace: seq<ZoneSample>, a: nat, b: nat)
    ensures (a, b) in Read(rule, trace).stays <==> IsStay(trace, Read(rule, trace).start, a, b)
  {
    if |trace| > 0 {
      var n := |trace| - 1;
      ReadStays(rule, trace[..n], a, b);
      if b == n {
        NewestStay(rule, trace, a);
      } else if b < n {
        StayOfPrefix(trace, n, Read(rule, trace[..n]).start, a, b);
      }
    }
  }

  /** Stays in order, each over before the next begins. */
  ghost predicate InOrder(stays: seq<(nat, nat)>) {
    forall i, j :: 0 <= i < j < |stays| ==> stays[i].1 < stays[j].0
  }

  ghost predicate AllBefore(stays: seq<(nat, nat)>, n: nat) {
    forall i :: 0 <= i < |stays| ==> stays[i].1 < n
  }

  lemma OneMoreStay(stays: seq<(nat, nat)>, a: nat, n: nat)
    requires InOrder(stays) && AllBefore(stays, a)
    ensures InOrder(stays + [(a, n)])
  {
  }

  lemma {:induction false} ReadOrdered(rule: ZoneRule, trace: seq<ZoneSample>)
    ensures var r := Read(rule, trace);
            InOrder(r.stays) && AllBefore(r.stays, |trace|) && (r.run.Some? ==> AllBefore(r.stays, r.run.value))
  {
    if |trace| > 0 {
      var n := |trace| - 1;
      var before := Read(rule, trace[..n]);
      ReadOrdered(rule, trace[..n]);
      if before.run.Some? {
        OneMoreStay(before.stays, before.run.value, n);
      }
    }
  }

  // ---------------------------------------------------------------- the machine follows the reading

  function StayAt(rule: ZoneRule, track: string, trace: seq<ZoneSample>, stay: (nat, nat)): ZoneEpisode
    requires stay.0 < |trace| && stay.1 < |trace|
  {
    Stay(rule, track, trace[stay.0].timeMs, trace[stay.1].timeMs)
  }

  ghost predicate Follows(rule: ZoneRule, track: string, trace: seq<ZoneSample>, r: ZoneReading, ts: ZoneTrack)
    requires r.run.Some? ==> r.run.value < |trace|
    requires forall k :: 0 <= k < |r.stays| ==> r.stays[k].0 < |trace| && r.stays[k].1 < |trace|
  {
    && ts.lastTimeMs == (if |trace| == 0 then None else Some(trace[|trace| - 1].timeMs))
    && ts.inside == (if |trace| == 0 then None else Some(trace[|trace| - 1].inside))
    && (r.run.Some? ==> ts.entryMs == Some(trace[r.run.value].timeMs))
    && |ts.episodes| == |r.stays|
    && forall k :: 0 <= k < |r.stays| ==> ts.episodes[k] == StayAt(rule, track, trace, r.stays[k])
  }

  lemma {:induction false} FoldFollows(rule: ZoneRule, track: string, trace: seq<ZoneSample>)
    requires FoldZone(rule, track, trace).Ok?
    ensures Follows(rule, track, trace, Read(rule, trace), FoldZone(rule, track, trace).value)
  {
    if |trace| > 0 {
      hide Read, Follows, ZoneTrackState;
      var n := |trace| - 1;
      FoldFollows(rule, track, trace[..n]);
      ReadRun(rule, trace[..n]);
      StepFollows(rule, track, trace, Read(rule, trace[..n]), FoldZone(rule, track, trace[..n]).value);
    } else {
      EmptyFollows(rule, track);
    }
  }

  lemma EmptyFollows(rule: ZoneRule, track: string)
    ensures Follows(rule, track, [], Read(rule, []), EMPTY_ZONE_TRACK)
  {
  }

  lemma StepFollows(rule: ZoneRule, track: string, trace: seq<ZoneSample>, r: ZoneReading, ts: ZoneTrack)
    requires |trace| > 0 && r == Read(rule, trace[..|trace| - 1]) && Coherent(ts)
    requires |trace| > 1 ==> (r.run.Some? <==> trace[|trace| - 2].inside)
    requires Follows(rule, track, trace[..|trace| - 1], r, ts)
    requires ZoneTrackState(rule, track, ts, trace[|trace| - 1]).Ok?
    ensures Follows(rule, track, trace, Read(rule, trace), ZoneTrackState(rule, track, ts, trace[|trace| - 1]).value)
  {
    hide ZoneTrackState, Resets, Read, StayAt;
    var n := |trace| - 1;
    StateAfter(rule, track, trace, r, ts);
    ReadingAfter(rule, trace, r);
    EpisodesOfPrefix(rule, track, trace, n, r.stays, ts.episodes);
  }

  lemma ReadingAfter(rule: ZoneRule, trace: seq<ZoneSample>, r: ZoneReading)
    requires |trace| > 0 && r == Read(rule, trace[..|trace| - 1])
    ensures var n, next := |trace| - 1, Read(rule, trace);
            && next.run == (if !trace[n].inside then None
                            else if r.run.Some? && !Resets(rule, trace, n) then r.run else Some(n))
            && next.stays == (if Resets(rule, trace, n) then []
                              else if !trace[n].inside && r.run.Some? then r.stays + [(r.run.value, n)] else r.stays)
  {
  }

  /** What one sample does to the state, in terms of the run going on. */
  lemma StateAfter(rule: ZoneRule, track: string, trace: seq<ZoneSample>, r: ZoneReading, ts: ZoneTrack)
    requires |trace| > 0 && Coherent(ts) && (r.run.Some? ==> r.run.value < |trace| - 1)
    requires |trace| > 1 ==> (r.run.Some? <==> trace[|trace| - 2].inside)
    requires ts.lastTimeMs == (if |trace| == 1 then None else Some(trace[|trace| - 2].timeMs))
    requires ts.inside == (if |trace| == 1 then None else Some(trace[|trace| - 2].inside))
    requires r.run.Some? ==> ts.entryMs == Some(trace[r.run.value].timeMs)
    requires ZoneTrackState(rule, track, ts, trace[|trace| - 1]).Ok?
    ensures var n := |trace| - 1;
            var after := ZoneTrackState(rule, track, ts, trace[n]).value;
            && after.lastTimeMs == Some(trace[n].timeMs) && after.inside == Some(trace[n].inside)
            && (trace[n].inside ==>
                  after.entryMs ==
                  Some(trace[if r.run.Some? && !Resets(rule, trace, n) then r.run.value else n].timeMs))
            && after.episodes ==
               if Resets(rule, trace, n) then []
               else if !trace[n].inside && r.run.Some? then ts.episodes + [StayAt(rule, track, trace, (r.run.value, n))]
               else ts.episodes
  {
  }

  lemma EpisodesOfPrefix(rule: ZoneRule, track: string, trace: seq<ZoneSample>, n: nat, stays: seq<(nat, nat)>,
                         episodes: seq<ZoneEpisode>)
    requires n <= |trace| && |episodes| == |stays|
    requires forall k :: 0 <= k < |stays| ==> stays[k].0 < n && stays[k].1 < n
                                              && episodes[k] == StayAt(rule, track, trace[..n], stays[k])
    ensures forall k :: 0 <= k < |stays| ==> episodes[k] == StayAt(rule, track, trace, stays[k])
  {
  }

  // ---------------------------------------------------------------- main results

  /** The episodes held for a track are, in order, exactly the stays since its last resetting gap. */
  lemma HeldStays(rule: ZoneRule, track: string, trace: seq<ZoneSample>) returns (s: nat, stays: seq<(nat, nat)>)
    requires FoldZone(rule, track, trace).Ok?
    ensures StartsStretch(rule, trace, s)
    ensures forall a: nat, b: nat :: (a, b) in stays <==> IsStay(trace, s, a, b)
    ensures InOrder(stays)
    ensures var episodes := FoldZone(rule, track, trace).value.episodes;
            |episodes| == |stays| && forall k :: 0 <= k < |stays| ==>
              stays[k].0 < |trace| && stays[k].1 < |trace| && episodes[k] == StayAt(rule, track, trace, stays[k])
  {
    s, stays := Read(rule, trace).start, Read(rule, trace).stays;
    ReadStart(rule, trace);
    ReadOrdered(rule, trace);
    FoldFollows(rule, track, trace);
    forall a: nat, b: nat ensures (a, b) in stays <==> IsStay(trace, s, a, b) {
      ReadStays(rule, trace, a, b);
    }
  }

  /** Sample m is inside and nothing before it belongs to the same run. */
  predicate Enters(rule: ZoneRule, trace: seq<ZoneSample>, m: nat)
    requires m < |trace|
  {
    trace[m].inside && (m == 0 || !trace[m - 1].inside || Resets(rule, trace, m))
  }

  /** Samples a..i are one run, from its first sample on. */
  predicate OneRun(rule: ZoneRule, trace: seq<ZoneSample>, a: nat, i: nat) {
    a < i <= |trace| && Enters(rule, trace, a) && forall m :: a < m < i ==> trace[m].inside && !Resets(rule, trace, m)
  }

  /** The run from a to i is ended by sample i, by a reset or outside, but has no positive length. */
  predicate EmptyStay(rule: ZoneRule, trace: seq<ZoneSample>, a: nat, i: nat) {
    i < |trace| && OneRun(rule, trace, a, i)
    && if Resets(rule, trace, i) then trace[a].timeMs >= trace[i - 1].timeMs
       else !trace[i].inside && trace[a].timeMs >= trace[i].timeMs
  }

  ghost predicate RefusesAt(rule: ZoneRule, trace: seq<ZoneSample>, i: nat) {
    exists a: nat :: EmptyStay(rule, trace, a, i)
  }

  lemma RunOfPrefix(rule: ZoneRule, trace: seq<ZoneSample>, n: nat, a: nat, i: nat)
    requires n <= |trace| && i <= n
    ensures OneRun(rule, trace[..n], a, i) <==> OneRun(rule, trace, a, i)
    ensures i < n ==> (EmptyStay(rule, trace[..n], a, i) <==> EmptyStay(rule, trace, a, i))
  {
    assert forall m :: 0 <= m < n ==> trace[..n][m] == trace[m];
    assert forall m :: 0 <= m < n ==> Resets(rule, trace[..n], m) == Resets(rule, trace, m);
    if a < n {
      assert Enters(rule, trace[..n], a) == Enters(rule, trace, a);
    }
  }

  /** The run going on in the reading is the run that ends with the trace. */
  lemma {:induction false} ReadOneRun(rule: ZoneRule, trace: seq<ZoneSample>, a: nat)
    ensures Read(rule, trace).run == Some(a) <==> OneRun(rule, trace, a, |trace|)
  {
    if |trace| > 0 {
      var n := |trace| - 1;
      ReadOneRun(rule, trace[..n], a);
      RunOfPrefix(rule, trace, n, a, n);
      ReadRun(rule, trace[..n]);
      ReadRun(rule, trace);
    }
  }

  lemma LastStep(rule: ZoneRule, track: string, trace: seq<ZoneSample>)
    requires |trace| > 0 && FoldZone(rule, track, trace[..|trace| - 1]).Ok?
    ensures FoldZone(rule, track, trace).Ok? <==> !RefusesAt(rule, trace, |trace| - 1)
  {
    var n, r := |trace| - 1, Read(rule, trace[..|trace| - 1]);
    FoldFollows(rule, track, trace[..n]);
    ReadRun(rule, trace[..n]);
    forall a: nat ensures OneRun(rule, trace, a, n) <==> r.run == Some(a) {
      ReadOneRun(rule, trace[..n], a);
      RunOfPrefix(rule, trace, n, a, n);
    }
    LastRefusal(rule, track, trace, n, r);
  }

  /** Whether the last sample is refused, from the reading of the samples before it. */
  lemma LastRefusal(rule: ZoneRule, track: string, trace: seq<ZoneSample>, n: nat, r: ZoneReading)
    requires |trace| == n + 1 && FoldZone(rule, track, trace[..n]).Ok? && r == Read(rule, trace[..n])
    requires Follows(rule, track, trace[..n], r, FoldZone(rule, track, trace[..n]).value)
    requires n > 0 ==> (r.run.Some? <==> trace[n - 1].inside)
    requires forall a: nat :: OneRun(rule, trace, a, n) <==> r.run == Some(a)
    ensures FoldZone(rule, track, trace).Ok? <==> !RefusesAt(rule, trace, n)
  {
    hide OneRun, Read;
    assert forall m :: 0 <= m < n ==> trace[..n][m] == trace[m];
    if r.run.Some? {
      var a := r.run.value;
      assert OneRun(rule, trace, a, n);
      assert FoldZone(rule, track, trace).Ok? <==> !EmptyStay(rule, trace, a, n);
      assert RefusesAt(rule, trace, n) <==> EmptyStay(rule, trace, a, n);
    } else {
      assert !RefusesAt(rule, trace, n);
      assert FoldZone(rule, track, trace).Ok?;
    }
  }

  /** A trace is refused exactly when some stay in it, ended by a sample outside or cut off by an
      over-long gap, has no positive length. */
  lemma {:induction false} RefusedExactly(rule: ZoneRule, track: string, trace: seq<ZoneSample>)
    ensures FoldZone(rule, track, trace).Ok? <==> !exists i: nat :: RefusesAt(rule, trace, i)
  {
    hide EmptyStay;
    if |trace| > 0 {
      var n := |trace| - 1;
      RefusedExactly(rule, track, trace[..n]);
      forall i: nat | i < n ensures RefusesAt(rule, trace[..n], i) <==> RefusesAt(rule, trace, i) {
        RefusalOfPrefix(rule, trace, n, i);
      }
      NoneBeyond(rule, trace);
      NoneBeyond(rule, trace[..n]);
      if FoldZone(rule, track, trace[..n]).Ok? {
        LastStep(rule, track, trace);
      }
    } else {
      NoneBeyond(rule, trace);
    }
  }

  lemma RefusalOfPrefix(rule: ZoneRule, trace: seq<ZoneSample>, n: nat, i: nat)
    requires i < n <= |trace|
    ensures RefusesAt(rule, trace[..n], i) <==> RefusesAt(rule, trace, i)
  {
    hide EmptyStay;
    forall a: nat ensures EmptyStay(rule, trace[..n], a, i) <==> EmptyStay(rule, trace, a, i) {
      RunOfPrefix(rule, trace, n, a, i);
    }
  }

  lemma NoneBeyond(rule: ZoneRule, trace: seq<ZoneSample>)
    ensures forall i: nat :: RefusesAt(rule, trace, i) ==> i < |trace|
  {
  }

  predicate StrictlyTimed(trace: seq<ZoneSample>) {
    forall i, j :: 0 <= i < j < |trace| ==> trace[i].timeMs < trace[j].timeMs
  }

  /** With strictly increasing times the only such stay is a single sample before an over-long gap. */
  lemma LoneSampleRefused(rule: ZoneRule, trace: seq<ZoneSample>, a: nat, i: nat)
    requires StrictlyTimed(trace)
    ensures EmptyStay(rule, trace, a, i) <==> 0 < i < |trace| && a == i - 1 && Enters(rule, trace, a) && Resets(rule, trace, i)
  {
  }

  // ---------------------------------------------------------------- the end of the source

  datatype ZoneCandidate = ZoneCandidate(ruleId: string, episodeId: EpisodeId, persistence: TimeRange, trackId: string)

  /** The held episodes and the stay still going on. */
  function Pending(rule: ZoneRule, track: string, ts: ZoneTrack, endMs: nat): Result<seq<ZoneEpisode>, ZoneError> {
    if ts.inside == Some(true) && ts.entryMs.Some? then
      if ts.entryMs.value >= endMs then Err(EmptyRange) else Ok(ts.episodes + [Stay(rule, track, ts.entryMs.value, endMs)])
    else Ok(ts.episodes)
  }

  function Persistences(episodes: seq<ZoneEpisode>): (r: seq<TimeRange>)
    ensures |r| == |episodes| && forall k :: 0 <= k < |episodes| ==> r[k] == episodes[k].persistence
  {
    seq(|episodes|, k requires 0 <= k < |episodes| => episodes[k].persistence)
  }

  function StaysOf(rule: ZoneRule, track: string, ranges: seq<TimeRange>): (r: seq<ZoneEpisode>)
    ensures |r| == |ranges|
    ensures forall k :: 0 <= k < |ranges| ==> r[k] == Stay(rule, track, ranges[k].startMs, ranges[k].endMs)
  {
    if |ranges| == 0 then []
    else StaysOf(rule, track, ranges[..|ranges| - 1]) + [Stay(rule, track, ranges[|ranges| - 1].startMs, ranges[|ranges| - 1].endMs)]
  }

  function CandidateFromZone(rule: ZoneRule, ep: ZoneEpisode): ZoneCandidate {
    ZoneCandidate(rule.ruleId, ep.id, ep.persistence, ep.trackId)
  }

  function CandidatesFrom(rule: ZoneRule, episodes: seq<ZoneEpisode>): (r: seq<ZoneCandidate>)
    ensures |r| == |episodes| && forall k :: 0 <= k < |episodes| ==> r[k] == CandidateFromZone(rule, episodes[k])
  {
    if |episodes| == 0 then []
    else CandidatesFrom(rule, episodes[..|episodes| - 1]) + [CandidateFromZone(rule, episodes[|episodes| - 1])]
  }

  /** Merged episodes belong to the track of the first one. */
  function MergedEpisodes(rule: ZoneRule, episodes: seq<ZoneEpisode>): seq<ZoneEpisode> {
    if |episodes| == 0 then []
    else StaysOf(rule, episodes[0].trackId, Merged(Persistences(episodes), rule.mergeGapMs))
  }

  lemma StaysNext(rule: ZoneRule, track: string, ranges: seq<TimeRange>, k: nat)
    requires k < |ranges|
    ensures StaysOf(rule, track, ranges[..k + 1]) ==
            StaysOf(rule, track, ranges[..k]) + [Stay(rule, track, ranges[k].startMs, ranges[k].endMs)]
  {
    assert ranges[..k + 1][..k] == ranges[..k];
  }

  /** One episode per merged range. */
  method NameStays(rule: ZoneRule, track: string, ranges: seq<TimeRange>) returns (result: seq<ZoneEpisode>)
    ensures result == StaysOf(rule, track, ranges)
  {
    result := [];
    for k := 0 to |ranges|
      invariant result == StaysOf(rule, track, ranges[..k])
    {
      StaysNext(rule, track, ranges, k);
      result := result + [Stay(rule, track, ranges[k].startMs, ranges[k].endMs)];
    }
    assert ranges[..|ranges|] == ranges;
  }

  method MergeZoneEpisodes(rule: ZoneRule, episodes: seq<ZoneEpisode>) returns (result: seq<ZoneEpisode>)
    ensures result == MergedEpisodes(rule, episodes)
  {
    if |episodes| == 0 {
      return [];
    }
    var ranges := MergeTimeRanges(Persistences(episodes), rule.mergeGapMs);
    result := NameStays(rule, episodes[0].trackId, ranges);
  }

  /** What the flush emits for one track: its merged episodes, or a refusal when the last would be empty. */
  function TrackCandidates(rule: ZoneRule, track: string, ts: ZoneTrack, endMs: nat): Result<seq<ZoneCandidate>, ZoneError> {
    var pending := Pending(rule, track, ts, endMs);
    if pending.Err? then Err(pending.error) else Ok(CandidatesFrom(rule, MergedEpisodes(rule, pending.value)))
  }

  method FlushTrack(rule: ZoneRule, track: string, ts: ZoneTrack, endMs: nat) returns (r: Result<seq<ZoneCandidate>, ZoneError>)
    ensures r == TrackCandidates(rule, track, ts, endMs)
  {
    var episodes := ts.episodes;
    if ts.inside == Some(true) && ts.entryMs.Some? {
      if ts.entryMs.value >= endMs {
        return Err(EmptyRange);
      }
      episodes := episodes + [Stay(rule, track, ts.entryMs.value, endMs)];
    }
    var merged := MergeZoneEpisodes(rule, episodes);
    var candidates := EmitZones(rule, merged);
    r := Ok(candidates);
  }

  lemma CandidatesNext(rule: ZoneRule, episodes: seq<ZoneEpisode>, k: nat)
    requires k < |episodes|
    ensures CandidatesFrom(rule, episodes[..k + 1]) == CandidatesFrom(rule, episodes[..k]) + [CandidateFromZone(rule, episodes[k])]
  {
    assert episodes[..k + 1][..k] == episodes[..k];
  }

  method EmitZones(rule: ZoneRule, episodes: seq<ZoneEpisode>) returns (candidates: seq<ZoneCandidate>)
    ensures candidates == CandidatesFrom(rule, episodes)
  {
    candidates := [];
    for k := 0 to |episodes|
      invariant candidates == CandidatesFrom(rule, episodes[..k])
    {
      CandidatesNext(rule, episodes, k);
      candidates := candidates + [CandidateFromZone(rule, episodes[k])];
    }
    assert episodes[..|episodes|] == episodes;
  }

  predicate Proper(track: string, ep: ZoneEpisode) {
    ep.trackId == track && ep.persistence.Ordered()
  }

  lemma {:induction false} EpisodesProper(rule: ZoneRule, track: string, trace: seq<ZoneSample>)
    requires FoldZone(rule, track, trace).Ok?
    ensures forall ep :: ep in FoldZone(rule, track, trace).value.episodes ==> Proper(track, ep)
  {
    if |trace| > 0 {
      EpisodesProper(rule, track, trace[..|trace| - 1]);
    }
  }

  /** t lies in a stay since the last reset, or in the one going on when the source ends. */
  ghost predicate StayedAt(rule: ZoneRule, trace: seq<ZoneSample>, endMs: nat, t: int) {
    exists s: nat :: StartsStretch(rule, trace, s) && StayedSince(trace, s, endMs, t)
  }

  ghost predicate StayedSince(trace: seq<ZoneSample>, s: nat, endMs: nat, t: int) {
    || (exists a: nat, b: nat :: IsStay(trace, s, a, b) && trace[a].timeMs <= t < trace[b].timeMs)
    || (exists a: nat :: IsRun(trace, s, a, |trace|) && trace[a].timeMs <= t < endMs)
  }

  /** The last stretch and the run at its end are those of the reading. */
  lemma StayedSinceRead(rule: ZoneRule, trace: seq<ZoneSample>, endMs: nat, t: int)
    ensures StayedAt(rule, trace, endMs, t) <==> StayedSince(trace, Read(rule, trace).start, endMs, t)
    ensures forall a: nat :: IsRun(trace, Read(rule, trace).start, a, |trace|) <==> Read(rule, trace).run == Some(a)
  {
    hide IsStay;
    var r := Read(rule, trace);
    ReadStart(rule, trace);
    ReadRun(rule, trace);
    forall s: nat | StartsStretch(rule, trace, s) ensures s == r.start {
    }
    forall a: nat | IsRun(trace, r.start, a, |trace|) ensures r.run == Some(a) {
      assert r.run.Some?;
      assert IsRun(trace, r.start, r.run.value, |trace|);
    }
  }

  lemma CoveredIsStay(rule: ZoneRule, track: string, trace: seq<ZoneSample>, endMs: nat, t: int)
    requires FoldZone(rule, track, trace).Ok? && Pending(rule, track, FoldZone(rule, track, trace).value, endMs).Ok?
    requires Covered(Persistences(Pending(rule, track, FoldZone(rule, track, trace).value, endMs).value), t)
    ensures StayedSince(trace, Read(rule, trace).start, endMs, t)
  {
    var ts, r := FoldZone(rule, track, trace).value, Read(rule, trace);
    var ranges := Persistences(Pending(rule, track, ts, endMs).value);
    FoldFollows(rule, track, trace);
    ReadRun(rule, trace);
    var k :| 0 <= k < |ranges| && ranges[k].Contains(t);
    if k < |r.stays| {
      var (a, b) := r.stays[k];
      assert (a, b) in r.stays && ts.episodes[k] == StayAt(rule, track, trace, r.stays[k]);
      ReadStays(rule, trace, a, b);
    }
  }

  lemma StayIsCovered(rule: ZoneRule, track: string, trace: seq<ZoneSample>, endMs: nat, t: int, a: nat, b: nat)
    requires FoldZone(rule, track, trace).Ok? && Pending(rule, track, FoldZone(rule, track, trace).value, endMs).Ok?
    requires IsStay(trace, Read(rule, trace).start, a, b) && trace[a].timeMs <= t < trace[b].timeMs
    ensures Covered(Persistences(Pending(rule, track, FoldZone(rule, track, trace).value, endMs).value), t)
  {
    var ts, r := FoldZone(rule, track, trace).value, Read(rule, trace);
    var ranges := Persistences(Pending(rule, track, ts, endMs).value);
    FoldFollows(rule, track, trace);
    ReadStays(rule, trace, a, b);
    var k :| 0 <= k < |r.stays| && r.stays[k] == (a, b);
    assert ts.episodes[k] == StayAt(rule, track, trace, r.stays[k]);
    assert ranges[k].Contains(t);
  }

  lemma PendingCovers(rule: ZoneRule, track: string, trace: seq<ZoneSample>, endMs: nat, t: int)
    requires FoldZone(rule, track, trace).Ok? && Pending(rule, track, FoldZone(rule, track, trace).value, endMs).Ok?
    ensures var pending := Pending(rule, track, FoldZone(rule, track, trace).value, endMs).value;
            Covered(Persistences(pending), t) <==> StayedAt(rule, trace, endMs, t)
  {
    var ts, r := FoldZone(rule, track, trace).value, Read(rule, trace);
    var ranges := Persistences(Pending(rule, track, ts, endMs).value);
    StayedSinceRead(rule, trace, endMs, t);
    if Covered(ranges, t) {
      CoveredIsStay(rule, track, trace, endMs, t);
    }
    if a: nat, b: nat :| IsStay(trace, r.start, a, b) && trace[a].timeMs <= t < trace[b].timeMs {
      StayIsCovered(rule, track, trace, endMs, t, a, b);
    }
    if r.run.Some? && trace[r.run.value].timeMs <= t < endMs {
      FoldFollows(rule, track, trace);
      ReadRun(rule, trace);
      assert ranges[|ts.episodes|] == TimeRange(trace[r.run.value].timeMs, endMs);
      assert ranges[|ts.episodes|].Contains(t);
    }
  }

  function RangesOf(candidates: seq<ZoneCandidate>): (r: seq<TimeRange>)
    ensures |r| == |candidates| && forall k :: 0 <= k < |candidates| ==> r[k] == candidates[k].persistence
  {
    seq(|candidates|, k requires 0 <= k < |candidates| => candidates[k].persistence)
  }

  lemma MergedRanges(rule: ZoneRule, episodes: seq<ZoneEpisode>)
    ensures RangesOf(CandidatesFrom(rule, MergedEpisodes(rule, episodes))) == Merged(Persistences(episodes), rule.mergeGapMs)
  {
    if |episodes| == 0 {
      assert Persistences(episodes) == [];
    } else {
      var merged := Merged(Persistences(episodes), rule.mergeGapMs);
      forall k | 0 <= k < |merged| ensures TimeRange(merged[k].startMs, merged[k].endMs) == merged[k] {
      }
    }
  }

  lemma PendingOrdered(rule: ZoneRule, track: string, trace: seq<ZoneSample>, endMs: nat)
    requires FoldZone(rule, track, trace).Ok? && Pending(rule, track, FoldZone(rule, track, trace).value, endMs).Ok?
    ensures AllOrdered(Persistences(Pending(rule, track, FoldZone(rule, track, trace).value, endMs).value))
  {
    var episodes := Pending(rule, track, FoldZone(rule, track, trace).value, endMs).value;
    EpisodesProper(rule, track, trace);
    forall k | 0 <= k < |episodes| ensures episodes[k].persistence.Ordered() {
      if k < |FoldZone(rule, track, trace).value.episodes| {
        assert episodes[k] in FoldZone(rule, track, trace).value.episodes;
      }
    }
  }

  /** Without a merge gap the candidates of a track cover exactly the instants it stayed inside since
      its last resetting gap. */
  lemma CandidatesAreStays(rule: ZoneRule, track: string, trace: seq<ZoneSample>, endMs: nat, t: int)
    requires FoldZone(rule, track, trace).Ok? && Pending(rule, track, FoldZone(rule, track, trace).value, endMs).Ok?
    requires rule.mergeGapMs == 0
    ensures var pending := Pending(rule, track, FoldZone(rule, track, trace).value, endMs).value;
            Covered(RangesOf(CandidatesFrom(rule, MergedEpisodes(rule, pending))), t) <==> StayedAt(rule, trace, endMs, t)
  {
    var pending := Pending(rule, track, FoldZone(rule, track, trace).value, endMs).value;
    MergedRanges(rule, pending);
    PendingOrdered(rule, track, trace, endMs);
    ExactUnion(Persistences(pending), t);
    PendingCovers(rule, track, trace, endMs, t);
  }

  /** With one, they are the merge of those stays: what they add is only time between two stays no
      further apart than the gap. */
  lemma CandidatesMergeStays(rule: ZoneRule, track: string, trace: seq<ZoneSample>, endMs: nat)
    requires FoldZone(rule, track, trace).Ok? && Pending(rule, track, FoldZone(rule, track, trace).value, endMs).Ok?
    ensures var pending := Pending(rule, track, FoldZone(rule, track, trace).value, endMs).value;
            IsMerge(Persistences(pending), rule.mergeGapMs, RangesOf(CandidatesFrom(rule, MergedEpisodes(rule, pending))))
  {
    var pending := Pending(rule, track, FoldZone(rule, track, trace).value, endMs).value;
    MergedRanges(rule, pending);
    PendingOrdered(rule, track, trace, endMs);
    MergedIsMerge(Persistences(pending), rule.mergeGapMs);
  }
}
