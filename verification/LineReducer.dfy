/** The line-crossing half of the rule reducer: one state machine per track. */
module LineReducer {
  import opened Contracts

  datatype AnchorPolicy = BottomCenter | BottomLeft | Center

  datatype Capability = LineCrossing | RedPhaseCrossing

  datatype LineRule = LineRule(
    ruleId: string, capability: Capability, lineStart: Point, lineEnd: Point,
    anchorPolicy: AnchorPolicy, bandWidth: real, maxGapMs: int,
    fromSide: int, toSide: int, marginMs: int)

  datatype Observation = Observation(
    trackId: string, timeMs: nat, observed: bool, predictedOnly: bool, box: Box)

  datatype RuleError = DegenerateLine | UnorderedBracket

  /** The inputs of the hash that names an episode. */
  datatype EpisodeId = EpisodeId(ruleId: string, trackId: string, kind: string, first: nat, last: nat)

  datatype CrossingEpisode = CrossingEpisode(
    id: EpisodeId, trackId: string, bracket: CrossingBracket, predictedInBracket: bool)

  datatype TrackState = TrackState(
    lastAnchor: Option<Point>, lastTimeMs: Option<nat>, confirmedSide: Option<int>,
    lastPreMs: Option<nat>, lastPrePredicted: bool, lastPostMs: Option<nat>,
    episodes: seq<CrossingEpisode>)

  const EMPTY_TRACK := TrackState(None, None, None, None, false, None, [])

  // ---------------------------------------------------------------- classification

  function BoxAnchor(box: Box, policy: AnchorPolicy): Point {
    match policy
    case BottomCenter => Point((box.x1 + box.x2) / 2.0, box.y2)
    case BottomLeft => Point(box.x1, box.y2)
    case Center => Point((box.x1 + box.x2) / 2.0, (box.y1 + box.y2) / 2.0)
  }

  /** Cross product of the directed line with the vector to `p`; positive on the left. */
  function LineCross(p: Point, a: Point, b: Point): real {
    (b.x - a.x) * (p.y - a.y) - (b.y - a.y) * (p.x - a.x)
  }

  /** |cross / length| <= width, without the square root. */
  predicate InDeadBand(p: Point, a: Point, b: Point, width: real) {
    var cross := LineCross(p, a, b);
    width >= 0.0 &&
    cross * cross <= width * width * ((b.x - a.x) * (b.x - a.x) + (b.y - a.y) * (b.y - a.y))
  }

  function LineSide(anchor: Point, a: Point, b: Point, width: real): int {
    if InDeadBand(anchor, a, b, width) then 0
    else if LineCross(anchor, a, b) > 0.0 then 1
    else -1
  }

  /** What the state machine reads off one observation. */
  datatype Sample = Sample(timeMs: nat, side: int, predicted: bool, anchor: Point)

  function Classify(rule: LineRule, obs: Observation): Sample {
    var anchor := BoxAnchor(obs.box, rule.anchorPolicy);
    Sample(obs.timeMs, LineSide(anchor, rule.lineStart, rule.lineEnd, rule.bandWidth),
           !obs.observed || obs.predictedOnly, anchor)
  }

  function ClassifyAll(rule: LineRule, trace: seq<Observation>): (samples: seq<Sample>)
    ensures |samples| == |trace|
    ensures forall i :: 0 <= i < |trace| ==> samples[i] == Classify(rule, trace[i])
  {
    seq(|trace|, i requires 0 <= i < |trace| => Classify(rule, trace[i]))
  }

  // ---------------------------------------------------------------- one step

  predicate IsValidCrossing(pre: int, post: int, from: int, to: int) {
    pre == from && post == to
  }

  function Episode(rule: LineRule, track: string, pre: nat, post: nat, predicted: bool): CrossingEpisode {
    CrossingEpisode(EpisodeId(rule.ruleId, track, "crossing", pre, post), track,
                    CrossingBracket(pre, post), predicted)
  }

  /** A gap longer than the rule allows forgets everything held for the track. */
  function AfterGap(ts: TrackState, rule: LineRule, s: Sample): TrackState {
    if ts.lastTimeMs.Some? && s.timeMs - ts.lastTimeMs.value > rule.maxGapMs
    then EMPTY_TRACK.(lastAnchor := Some(s.anchor), lastTimeMs := Some(s.timeMs))
    else ts
  }

  function LineTrackState(before: TrackState, rule: LineRule, track: string, s: Sample): Result<TrackState, RuleError> {
    var ts := AfterGap(before, rule, s).(lastAnchor := Some(s.anchor), lastTimeMs := Some(s.timeMs));
    if s.side == 0 then Ok(ts)
    else if ts.confirmedSide.None? || s.side == ts.confirmedSide.value then
      Ok(ts.(confirmedSide := Some(s.side),
             lastPreMs := if s.side == rule.fromSide then Some(s.timeMs) else ts.lastPreMs,
             lastPrePredicted := if s.side == rule.fromSide then s.predicted else ts.lastPrePredicted,
             lastPostMs := if s.side == rule.toSide then Some(s.timeMs) else ts.lastPostMs))
    else if IsValidCrossing(ts.confirmedSide.value, s.side, rule.fromSide, rule.toSide) then
      var pre := if ts.lastPreMs.None? then s.timeMs else ts.lastPreMs.value;
      var prePredicted := if ts.lastPreMs.None? then s.predicted else ts.lastPrePredicted;
      if pre >= s.timeMs then Err(UnorderedBracket)
      else Ok(ts.(confirmedSide := Some(s.side), lastPreMs := None, lastPrePredicted := false,
                  lastPostMs := Some(s.timeMs),
                  episodes := ts.episodes + [Episode(rule, track, pre, s.timeMs, prePredicted || s.predicted)]))
    else if IsValidCrossing(ts.confirmedSide.value, s.side, rule.toSide, rule.fromSide) then
      Ok(ts.(confirmedSide := Some(s.side), lastPreMs := Some(s.timeMs),
             lastPrePredicted := s.predicted, lastPostMs := None))
    else if s.side == rule.fromSide then
      Ok(ts.(confirmedSide := Some(s.side), lastPreMs := Some(s.timeMs), lastPrePredicted := s.predicted))
    else
      Ok(ts.(confirmedSide := Some(s.side), lastPostMs := Some(s.timeMs)))
  }

  /** The state after a whole trace of one track, oldest sample first. */
  function Fold(ts: TrackState, rule: LineRule, track: string, trace: seq<Sample>): Result<TrackState, RuleError> {
    if |trace| == 0 then Ok(ts)
    else
      var before := Fold(ts, rule, track, trace[..|trace| - 1]);
      if before.Err? then before else LineTrackState(before.value, rule, track, trace[|trace| - 1])
  }

  // ---------------------------------------------------------------- brackets, stated on the trace alone

  /** The step into position m is not an over-long gap. */
  predicate Continuous(rule: LineRule, trace: seq<Sample>, m: nat)
    requires 0 < m < |trace|
  {
    trace[m].timeMs - trace[m - 1].timeMs <= rule.maxGapMs
  }

  /** A from-side sample, then only dead-band samples, then a to-side sample, with no over-long gap. */
  ghost predicate IsBracket(rule: LineRule, trace: seq<Sample>, i: nat, k: nat) {
    i < k < |trace|
    && trace[i].side == rule.fromSide && trace[k].side == rule.toSide
    && (forall m :: i < m < k ==> trace[m].side == 0)
    && (forall m :: i < m <= k ==> Continuous(rule, trace, m))
  }

  /** Position s starts the stretch of the trace after its last over-long gap. */
  ghost predicate StartsLastStretch(rule: LineRule, trace: seq<Sample>, s: nat) {
    s <= |trace|
    && (s == 0 || (s < |trace| && !Continuous(rule, trace, s)))
    && (forall m :: s < m < |trace| ==> Continuous(rule, trace, m))
  }

  function EpisodeAt(rule: LineRule, track: string, trace: seq<Sample>, i: nat, k: nat): CrossingEpisode
    requires i < |trace| && k < |trace|
  {
    Episode(rule, track, trace[i].timeMs, trace[k].timeMs, trace[i].predicted || trace[k].predicted)
  }

  /** The sides a rule names are two different sides of its line, neither being the dead band. */
  predicate DirectedRule(rule: LineRule) {
    rule.fromSide != rule.toSide && rule.fromSide != 0 && rule.toSide != 0
  }

  /** `pairs` lists exactly the brackets of the stretch starting at `s`, in trace order. */
  ghost predicate ListsBrackets(rule: LineRule, trace: seq<Sample>, s: nat, pairs: seq<(nat, nat)>) {
    (forall i: nat, k: nat :: (i, k) in pairs <==> IsBracket(rule, trace, i, k) && s <= i)
    && (forall a, b :: 0 <= a < b < |pairs| ==> pairs[a].1 < pairs[b].0)
  }

  // ---------------------------------------------------------------- reading a trace without the state machine

  /** Where a trace stands: its last stretch, the last sided sample in it and the brackets so far. */
  datatype Reading = Reading(start: nat, last: Option<nat>, pairs: seq<(nat, nat)>)

  function Read(rule: LineRule, trace: seq<Sample>): (r: Reading)
    ensures r.last.Some? ==> r.last.value < |trace|
    ensures forall n :: 0 <= n < |r.pairs| ==> r.pairs[n].0 < |trace| && r.pairs[n].1 < |trace|
  {
    if |trace| == 0 then Reading(0, None, [])
    else
      var n := |trace| - 1;
      var before := Read(rule, trace[..n]);
      ReadOn(rule, trace, if n > 0 && !Continuous(rule, trace, n) then Reading(n, None, []) else before)
  }

  /** Takes the newest sample into a reading that reaches up to it. */
  function ReadOn(rule: LineRule, trace: seq<Sample>, kept: Reading): Reading
    requires |trace| > 0 && (kept.last.Some? ==> kept.last.value < |trace| - 1)
  {
    var n := |trace| - 1;
    if trace[n].side == 0 then kept
    else
      Reading(kept.start, Some(n),
              if kept.last.Some? && trace[kept.last.value].side == rule.fromSide && trace[n].side == rule.toSide
              then kept.pairs + [(kept.last.value, n)] else kept.pairs)
  }

  ghost predicate ReadsRight(rule: LineRule, trace: seq<Sample>, r: Reading) {
    && StartsLastStretch(rule, trace, r.start)
    && IsLastSided(trace, r.start, r.last)
    && ListsBrackets(rule, trace, r.start, r.pairs)
  }

  /** `last` is the last sample from `start` on that is on a side of the line. */
  ghost predicate IsLastSided(trace: seq<Sample>, start: nat, last: Option<nat>) {
    && (last.None? ==> forall m :: start <= m < |trace| ==> trace[m].side == 0)
    && (last.Some? ==>
          start <= last.value < |trace| && trace[last.value].side != 0
          && forall m :: last.value < m < |trace| ==> trace[m].side == 0)
  }

  lemma BracketsOfPrefix(rule: LineRule, trace: seq<Sample>, n: nat)
    requires n <= |trace|
    ensures forall m :: 0 < m < n ==> (Continuous(rule, trace[..n], m) <==> Continuous(rule, trace, m))
    ensures forall i: nat, k: nat :: k < n ==> (IsBracket(rule, trace[..n], i, k) <==> IsBracket(rule, trace, i, k))
  {
    forall m | 0 < m < n ensures Continuous(rule, trace[..n], m) <==> Continuous(rule, trace, m) {
    }
    forall i: nat, k: nat | k < n
      ensures IsBracket(rule, trace[..n], i, k) <==> IsBracket(rule, trace, i, k)
    {
      if i < k {
        assert forall m :: i < m <= k ==> (Continuous(rule, trace[..n], m) <==> Continuous(rule, trace, m));
        assert forall m :: i <= m <= k ==> trace[..n][m] == trace[m];
      }
    }
  }

  /** A bracket closing at the newest sample opens at the last sided sample of the stretch. */
  lemma NewestBracket(rule: LineRule, trace: seq<Sample>, r: Reading, i: nat)
    requires DirectedRule(rule) && |trace| > 0
    requires ReadsRight(rule, trace[..|trace| - 1], r)
    requires |trace| > 1 ==> Continuous(rule, trace, |trace| - 1)
    ensures IsBracket(rule, trace, i, |trace| - 1) <==>
            r.last == Some(i) && trace[i].side == rule.fromSide && trace[|trace| - 1].side == rule.toSide
  {
    var n := |trace| - 1;
    BracketsOfPrefix(rule, trace, n);
    assert forall m :: 0 <= m < n ==> trace[..n][m] == trace[m];
    if IsBracket(rule, trace, i, n) {
      assert r.start == 0 || !Continuous(rule, trace, r.start);
      assert r.start <= i;
      assert r.last.Some?;
    }
  }

  lemma {:induction false} ReadIsRight(rule: LineRule, trace: seq<Sample>)
    requires DirectedRule(rule)
    ensures ReadsRight(rule, trace, Read(rule, trace))
  {
    if |trace| > 0 {
      var n := |trace| - 1;
      ReadIsRight(rule, trace[..n]);
      if n > 0 && !Continuous(rule, trace, n) {
        ReadsFirst(rule, trace);
      } else {
        PairsAreRight(rule, trace);
        ReadsOn(rule, trace);
      }
    }
  }

  /** A sample after an over-long gap starts a stretch with no bracket yet. */
  lemma ReadsFirst(rule: LineRule, trace: seq<Sample>)
    requires DirectedRule(rule) && |trace| > 1 && !Continuous(rule, trace, |trace| - 1)
    ensures ReadsRight(rule, trace, Read(rule, trace))
  {
    var n := |trace| - 1;
    assert Read(rule, trace) == Reading(n, if trace[n].side == 0 then None else Some(n), []);
  }

  lemma ReadsOn(rule: LineRule, trace: seq<Sample>)
    requires DirectedRule(rule) && |trace| > 0
    requires ReadsRight(rule, trace[..|trace| - 1], Read(rule, trace[..|trace| - 1]))
    requires |trace| > 1 ==> Continuous(rule, trace, |trace| - 1)
    requires ListsBrackets(rule, trace, Read(rule, trace).start, Read(rule, trace).pairs)
    ensures ReadsRight(rule, trace, Read(rule, trace))
  {
    hide ListsBrackets, StartsLastStretch, IsLastSided, Continuous;
    var n := |trace| - 1;
    var before, r := Read(rule, trace[..n]), Read(rule, trace);
    StretchGoesOn(rule, trace, before.start);
    LastSidedGoesOn(trace, before.start, before.last);
  }

  lemma LastSidedGoesOn(trace: seq<Sample>, start: nat, last: Option<nat>)
    requires |trace| > 0 && start < |trace| && IsLastSided(trace[..|trace| - 1], start, last)
    ensures IsLastSided(trace, start, if trace[|trace| - 1].side == 0 then last else Some(|trace| - 1))
  {
    assert forall m :: 0 <= m < |trace| - 1 ==> trace[..|trace| - 1][m] == trace[m];
  }

  lemma StretchGoesOn(rule: LineRule, trace: seq<Sample>, s: nat)
    requires |trace| > 0 && StartsLastStretch(rule, trace[..|trace| - 1], s)
    requires |trace| > 1 ==> Continuous(rule, trace, |trace| - 1)
    ensures s < |trace| && StartsLastStretch(rule, trace, s)
  {
    hide Continuous;
    BracketsOfPrefix(rule, trace, |trace| - 1);
  }

  /** A sample leaves the brackets closed before it alone, if no over-long gap leads to it. */
  lemma OtherPairsKept(rule: LineRule, trace: seq<Sample>, i: nat, k: nat)
    requires |trace| > 0 && k != |trace| - 1
    requires |trace| > 1 ==> Continuous(rule, trace, |trace| - 1)
    ensures (i, k) in Read(rule, trace).pairs <==> (i, k) in Read(rule, trace[..|trace| - 1]).pairs
    ensures Read(rule, trace).start == Read(rule, trace[..|trace| - 1]).start
  {
  }

  lemma PairListed(rule: LineRule, trace: seq<Sample>, i: nat, k: nat)
    requires DirectedRule(rule) && |trace| > 0
    requires ReadsRight(rule, trace[..|trace| - 1], Read(rule, trace[..|trace| - 1]))
    requires |trace| > 1 ==> Continuous(rule, trace, |trace| - 1)
    ensures (i, k) in Read(rule, trace).pairs <==> IsBracket(rule, trace, i, k) && Read(rule, trace).start <= i
  {
    var n := |trace| - 1;
    var before := Read(rule, trace[..n]);
    if k == n {
      NewestBracket(rule, trace, before, i);
      assert (i, k) !in before.pairs;
    } else {
      OtherPairsKept(rule, trace, i, k);
      EarlierPairListed(rule, trace, before, i, k);
    }
  }

  lemma EarlierPairListed(rule: LineRule, trace: seq<Sample>, before: Reading, i: nat, k: nat)
    requires |trace| > 0 && k != |trace| - 1 && ReadsRight(rule, trace[..|trace| - 1], before)
    ensures (i, k) in before.pairs <==> IsBracket(rule, trace, i, k) && before.start <= i
  {
    hide Continuous;
    var n := |trace| - 1;
    BracketsOfPrefix(rule, trace, n);
    assert (i, k) in before.pairs <==> IsBracket(rule, trace[..n], i, k) && before.start <= i;
  }

  /** A from-side sample lies after the close of every bracket listed before it. */
  lemma PairsPrecede(rule: LineRule, trace: seq<Sample>, r: Reading, a: nat)
    requires DirectedRule(rule) && ReadsRight(rule, trace, r)
    requires r.last.Some? && trace[r.last.value].side == rule.fromSide
    requires a < |r.pairs|
    ensures r.pairs[a].1 < r.last.value
  {
    var (i, k) := r.pairs[a];
    assert r.pairs[a] in r.pairs;
    assert IsBracket(rule, trace, i, k);
  }

  lemma PairsAreRight(rule: LineRule, trace: seq<Sample>)
    requires DirectedRule(rule) && |trace| > 0
    requires ReadsRight(rule, trace[..|trace| - 1], Read(rule, trace[..|trace| - 1]))
    requires |trace| > 1 ==> Continuous(rule, trace, |trace| - 1)
    ensures ListsBrackets(rule, trace, Read(rule, trace).start, Read(rule, trace).pairs)
  {
    var before, pairs := Read(rule, trace[..|trace| - 1]), Read(rule, trace).pairs;
    forall i: nat, k: nat
      ensures (i, k) in pairs <==> IsBracket(rule, trace, i, k) && Read(rule, trace).start <= i
    {
      PairListed(rule, trace, i, k);
    }
    forall a, b | 0 <= a < b < |pairs| ensures pairs[a].1 < pairs[b].0 {
      if b == |before.pairs| {
        PairsPrecede(rule, trace[..|trace| - 1], before, a);
      }
    }
  }

  // ---------------------------------------------------------------- the state machine follows the reading

  /** No bracket of the trace closes at or before the instant it opens. */
  ghost predicate AllBracketsOrdered(rule: LineRule, trace: seq<Sample>) {
    forall i: nat, k: nat :: IsBracket(rule, trace, i, k) ==> trace[i].timeMs < trace[k].timeMs
  }

  ghost predicate Follows(rule: LineRule, track: string, trace: seq<Sample>, ts: TrackState) {
    && ts.lastTimeMs == (if |trace| == 0 then None else Some(trace[|trace| - 1].timeMs))
    && Mirrors(rule, track, trace, Read(rule, trace), ts)
  }

  /** The state holds what the reading says: the last sided sample, its time if it counts, and the brackets. */
  ghost predicate Mirrors(rule: LineRule, track: string, trace: seq<Sample>, r: Reading, ts: TrackState)
    requires r.last.Some? ==> r.last.value < |trace|
    requires forall n :: 0 <= n < |r.pairs| ==> r.pairs[n].0 < |trace| && r.pairs[n].1 < |trace|
  {
    && ts.confirmedSide == (if r.last.None? then None else Some(trace[r.last.value].side))
    && (r.last.Some? && trace[r.last.value].side == rule.fromSide ==>
          ts.lastPreMs == Some(trace[r.last.value].timeMs)
          && ts.lastPrePredicted == trace[r.last.value].predicted)
    && ts.episodes == EpisodesAt(rule, track, trace, r.pairs)
  }

  lemma {:induction false} FoldFollows(rule: LineRule, track: string, trace: seq<Sample>)
    requires DirectedRule(rule)
    ensures var after := Fold(EMPTY_TRACK, rule, track, trace);
            (after.Ok? <==> AllBracketsOrdered(rule, trace))
            && (after.Ok? ==> Follows(rule, track, trace, after.value))
  {
    if |trace| > 0 {
      var n := |trace| - 1;
      var before, r := Read(rule, trace[..n]), Read(rule, trace);
      FoldFollows(rule, track, trace[..n]);
      ReadIsRight(rule, trace[..n]);
      BracketsOfPrefix(rule, trace, n);
      assert forall m :: 0 <= m < n ==> trace[..n][m] == trace[m];
      if AllBracketsOrdered(rule, trace) {
        PrefixOrdered(rule, trace, n);
      }
      if AllBracketsOrdered(rule, trace[..n]) {
        StepFollows(rule, track, trace);
      }
    }
  }

  lemma PrefixOrdered(rule: LineRule, trace: seq<Sample>, n: nat)
    requires n <= |trace| && AllBracketsOrdered(rule, trace)
    ensures AllBracketsOrdered(rule, trace[..n])
  {
    BracketsOfPrefix(rule, trace, n);
    forall i: nat, k: nat | IsBracket(rule, trace[..n], i, k)
      ensures trace[..n][i].timeMs < trace[..n][k].timeMs
    {
      assert IsBracket(rule, trace, i, k);
    }
  }

  lemma StepFollows(rule: LineRule, track: string, trace: seq<Sample>)
    requires DirectedRule(rule) && |trace| > 0
    requires var before := Fold(EMPTY_TRACK, rule, track, trace[..|trace| - 1]);
             before.Ok? && Follows(rule, track, trace[..|trace| - 1], before.value)
    requires AllBracketsOrdered(rule, trace[..|trace| - 1])
    ensures var after := Fold(EMPTY_TRACK, rule, track, trace);
            (after.Ok? <==> AllBracketsOrdered(rule, trace))
            && (after.Ok? ==> Follows(rule, track, trace, after.value))
  {
    hide Read, Follows, Mirrors, LineTrackState, AllBracketsOrdered;
    var n := |trace| - 1;
    var before, after := Fold(EMPTY_TRACK, rule, track, trace[..n]).value, Fold(EMPTY_TRACK, rule, track, trace);
    var kept := if n > 0 && !Continuous(rule, trace, n) then Reading(n, None, []) else Read(rule, trace[..n]);
    NewestOrdered(rule, trace);
    GapFollows(rule, track, trace, before, kept);
    SampleAccepted(rule, track, trace, kept, before);
    assert after == LineTrackState(before, rule, track, trace[n]);
    if after.Ok? {
      EpisodesFollow(rule, track, trace, before, after.value);
    }
  }

  /** A sample is refused when it would close a bracket of no positive length. */
  lemma SampleAccepted(rule: LineRule, track: string, trace: seq<Sample>, kept: Reading, before: TrackState)
    requires DirectedRule(rule) && |trace| > 0 && (kept.last.Some? ==> kept.last.value < |trace| - 1)
    requires forall n :: 0 <= n < |kept.pairs| ==> kept.pairs[n].0 < |trace| && kept.pairs[n].1 < |trace|
    requires Mirrors(rule, track, trace, kept, AfterGap(before, rule, trace[|trace| - 1]))
    ensures LineTrackState(before, rule, track, trace[|trace| - 1]).Ok? <==>
            (kept.last.Some? && trace[kept.last.value].side == rule.fromSide
             && trace[|trace| - 1].side == rule.toSide ==>
             trace[kept.last.value].timeMs < trace[|trace| - 1].timeMs)
  {
    hide AfterGap, EpisodesAt;
  }

  /** Adding a sample adds at most one bracket to check. */
  lemma NewestOrdered(rule: LineRule, trace: seq<Sample>)
    requires DirectedRule(rule) && |trace| > 0
    requires AllBracketsOrdered(rule, trace[..|trace| - 1])
    ensures var n := |trace| - 1;
            var before := Read(rule, trace[..n]);
            AllBracketsOrdered(rule, trace) <==>
            ((n > 0 ==> Continuous(rule, trace, n)) && before.last.Some?
             && trace[before.last.value].side == rule.fromSide && trace[n].side == rule.toSide ==>
             trace[before.last.value].timeMs < trace[n].timeMs)
  {
    var n := |trace| - 1;
    var before := Read(rule, trace[..n]);
    hide Read, ReadsRight, Continuous;
    ReadIsRight(rule, trace[..n]);
    NewestBracketOrdered(rule, trace, before);
    forall i: nat, k: nat | IsBracket(rule, trace, i, k) && k < n
      ensures trace[i].timeMs < trace[k].timeMs
    {
      BracketsOfPrefix(rule, trace, n);
      assert IsBracket(rule, trace[..n], i, k);
      assert trace[..n][i].timeMs < trace[..n][k].timeMs;
    }
  }

  lemma NewestBracketOrdered(rule: LineRule, trace: seq<Sample>, before: Reading)
    requires DirectedRule(rule) && |trace| > 0 && ReadsRight(rule, trace[..|trace| - 1], before)
    ensures (forall i: nat :: IsBracket(rule, trace, i, |trace| - 1) ==> trace[i].timeMs < trace[|trace| - 1].timeMs) <==>
            ((|trace| > 1 ==> Continuous(rule, trace, |trace| - 1)) && before.last.Some?
             && trace[before.last.value].side == rule.fromSide && trace[|trace| - 1].side == rule.toSide ==>
             trace[before.last.value].timeMs < trace[|trace| - 1].timeMs)
  {
    hide ReadsRight;
    var n := |trace| - 1;
    LastIsBefore(rule, trace[..n], before);
    if n == 0 || Continuous(rule, trace, n) {
      forall i: nat
        ensures IsBracket(rule, trace, i, n) <==>
                before.last == Some(i) && trace[i].side == rule.fromSide && trace[n].side == rule.toSide
      {
        NewestBracket(rule, trace, before, i);
      }
    }
  }

  lemma LastIsBefore(rule: LineRule, trace: seq<Sample>, r: Reading)
    requires ReadsRight(rule, trace, r)
    ensures r.last.Some? ==> r.last.value < |trace|
  {
  }

  function EpisodesAt(rule: LineRule, track: string, trace: seq<Sample>, pairs: seq<(nat, nat)>): seq<CrossingEpisode>
    requires forall n :: 0 <= n < |pairs| ==> pairs[n].0 < |trace| && pairs[n].1 < |trace|
  {
    seq(|pairs|, n requires 0 <= n < |pairs| => EpisodeAt(rule, track, trace, pairs[n].0, pairs[n].1))
  }

  lemma EpisodesOfPrefix(rule: LineRule, track: string, trace: seq<Sample>, n: nat, pairs: seq<(nat, nat)>)
    requires n <= |trace| && forall q :: 0 <= q < |pairs| ==> pairs[q].0 < n && pairs[q].1 < n
    ensures EpisodesAt(rule, track, trace[..n], pairs) == EpisodesAt(rule, track, trace, pairs)
  {
    forall q | 0 <= q < |pairs|
      ensures EpisodeAt(rule, track, trace[..n], pairs[q].0, pairs[q].1) ==
              EpisodeAt(rule, track, trace, pairs[q].0, pairs[q].1)
    {
    }
  }

  lemma EpisodesGrow(rule: LineRule, track: string, trace: seq<Sample>, pairs: seq<(nat, nat)>, pair: (nat, nat))
    requires forall n :: 0 <= n < |pairs| ==> pairs[n].0 < |trace| && pairs[n].1 < |trace|
    requires pair.0 < |trace| && pair.1 < |trace|
    ensures EpisodesAt(rule, track, trace, pairs + [pair]) ==
            EpisodesAt(rule, track, trace, pairs) + [EpisodeAt(rule, track, trace, pair.0, pair.1)]
  {
  }

  /** Forgetting what was held after a gap is reading from the newest sample on. */
  lemma GapFollows(rule: LineRule, track: string, trace: seq<Sample>, before: TrackState, kept: Reading)
    requires |trace| > 0 && Follows(rule, track, trace[..|trace| - 1], before)
    requires kept == if |trace| > 1 && !Continuous(rule, trace, |trace| - 1) then Reading(|trace| - 1, None, [])
                     else Read(rule, trace[..|trace| - 1])
    ensures Mirrors(rule, track, trace, kept, AfterGap(before, rule, trace[|trace| - 1]))
  {
    var n := |trace| - 1;
    assert forall m :: 0 <= m < n ==> trace[..n][m] == trace[m];
    EpisodesOfPrefix(rule, track, trace, n, Read(rule, trace[..n]).pairs);
  }

  lemma EpisodesFollow(rule: LineRule, track: string, trace: seq<Sample>, before: TrackState, after: TrackState)
    requires DirectedRule(rule) && |trace| > 0
    requires Follows(rule, track, trace[..|trace| - 1], before)
    requires LineTrackState(before, rule, track, trace[|trace| - 1]) == Ok(after)
    ensures Follows(rule, track, trace, after)
  {
    var n := |trace| - 1;
    var r0 := Read(rule, trace[..n]);
    var kept := if n > 0 && !Continuous(rule, trace, n) then Reading(n, None, []) else r0;
    GapFollows(rule, track, trace, before, kept);
    SampleFollows(rule, track, trace, kept, Read(rule, trace), before, after);
  }

  lemma SampleFollows(rule: LineRule, track: string, trace: seq<Sample>, kept: Reading, r: Reading,
                      before: TrackState, after: TrackState)
    requires DirectedRule(rule) && |trace| > 0 && (kept.last.Some? ==> kept.last.value < |trace| - 1)
    requires forall n :: 0 <= n < |kept.pairs| ==> kept.pairs[n].0 < |trace| && kept.pairs[n].1 < |trace|
    requires Mirrors(rule, track, trace, kept, AfterGap(before, rule, trace[|trace| - 1]))
    requires LineTrackState(before, rule, track, trace[|trace| - 1]) == Ok(after)
    requires r == ReadOn(rule, trace, kept)
    ensures Mirrors(rule, track, trace, r, after)
    ensures after.lastTimeMs == Some(trace[|trace| - 1].timeMs)
  {
    hide AfterGap, EpisodesAt;
    var n := |trace| - 1;
    if kept.last.Some? {
      EpisodesGrow(rule, track, trace, kept.pairs, (kept.last.value, n));
    }
  }

  // ---------------------------------------------------------------- main results

  /** The episodes held are the brackets of the last stretch, and nothing else, in trace order. */
  ghost predicate HoldsExactly(rule: LineRule, track: string, trace: seq<Sample>, held: seq<CrossingEpisode>) {
    exists start: nat, pairs: seq<(nat, nat)> ::
      && StartsLastStretch(rule, trace, start)
      && ListsBrackets(rule, trace, start, pairs)
      && Depicts(rule, track, trace, pairs, held)
  }

  ghost predicate Depicts(rule: LineRule, track: string, trace: seq<Sample>, pairs: seq<(nat, nat)>,
                          held: seq<CrossingEpisode>) {
    |held| == |pairs|
    && forall n :: 0 <= n < |pairs| ==>
         pairs[n].0 < |trace| && pairs[n].1 < |trace|
         && held[n] == EpisodeAt(rule, track, trace, pairs[n].0, pairs[n].1)
  }

  /** For a directed rule the reducer accepts a trace unless one of its brackets has no positive
      length, and then holds exactly the brackets of the last stretch. */
  lemma HeldEpisodes(rule: LineRule, track: string, trace: seq<Sample>)
    requires DirectedRule(rule)
    ensures var after := Fold(EMPTY_TRACK, rule, track, trace);
            (after.Ok? <==> AllBracketsOrdered(rule, trace))
            && (after.Ok? ==> HoldsExactly(rule, track, trace, after.value.episodes))
  {
    var after := Fold(EMPTY_TRACK, rule, track, trace);
    FoldFollows(rule, track, trace);
    ReadIsRight(rule, trace);
    if after.Ok? {
      var r := Read(rule, trace);
      assert Depicts(rule, track, trace, r.pairs, after.value.episodes);
    }
  }

  /** A rule that is not directed has a two-sample bracket that the reducer does not hold. */
  lemma UndirectedRuleMissesBracket(rule: LineRule, track: string) returns (trace: seq<Sample>)
    requires !DirectedRule(rule)
    ensures IsBracket(rule, trace, 0, 1)
    ensures var after := Fold(EMPTY_TRACK, rule, track, trace);
            after.Ok? && !HoldsExactly(rule, track, trace, after.value.episodes)
  {
    var first: nat, second: nat := if rule.maxGapMs >= 1 then 0 else -rule.maxGapMs, if rule.maxGapMs >= 1 then 1 else 0;
    var origin := Point(0.0, 0.0);
    trace := [Sample(first, rule.fromSide, false, origin), Sample(second, rule.toSide, false, origin)];
    assert trace[..1] == [trace[0]] && trace[..1][..0] == [];
    assert Fold(EMPTY_TRACK, rule, track, trace[..1]) == LineTrackState(EMPTY_TRACK, rule, track, trace[0]);
    assert IsBracket(rule, trace, 0, 1);
    var after := Fold(EMPTY_TRACK, rule, track, trace);
    assert after.Ok? && after.value.episodes == [];
    forall start: nat, pairs: seq<(nat, nat)> |
      StartsLastStretch(rule, trace, start) && ListsBrackets(rule, trace, start, pairs)
      ensures |pairs| > 0
    {
      assert Continuous(rule, trace, 1);
      assert start == 0;
      assert (0, 1) in pairs;
    }
  }

  /** Directedness is exactly what the reducer needs to hold every bracket of every trace. */
  lemma ExactForDirectedRules(rule: LineRule, track: string)
    ensures DirectedRule(rule) <==>
            (forall trace: seq<Sample> :: Fold(EMPTY_TRACK, rule, track, trace).Ok? ==>
               HoldsExactly(rule, track, trace, Fold(EMPTY_TRACK, rule, track, trace).value.episodes))
  {
    if DirectedRule(rule) {
      forall trace: seq<Sample> | Fold(EMPTY_TRACK, rule, track, trace).Ok?
        ensures HoldsExactly(rule, track, trace, Fold(EMPTY_TRACK, rule, track, trace).value.episodes)
      {
        HeldEpisodes(rule, track, trace);
      }
    } else {
      var trace := UndirectedRuleMissesBracket(rule, track);
      assert Fold(EMPTY_TRACK, rule, track, trace).Ok?;
    }
  }

  predicate StrictlyTimed(trace: seq<Sample>) {
    forall i, j :: 0 <= i < j < |trace| ==> trace[i].timeMs < trace[j].timeMs
  }

  /** A track observed at strictly increasing times is never refused. */
  lemma StrictTimesAreAccepted(rule: LineRule, track: string, trace: seq<Sample>)
    requires DirectedRule(rule) && StrictlyTimed(trace)
    ensures Fold(EMPTY_TRACK, rule, track, trace).Ok?
  {
    HeldEpisodes(rule, track, trace);
  }
}
