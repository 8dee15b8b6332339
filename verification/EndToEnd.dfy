/** What the candidates of a run say about the raw observations and samples. */
module EndToEnd {
  import opened Contracts
  import opened LineReducer
  import opened RuleReducer
  import Signals = SignalIntervals
  import opened Disposition
  import opened RuleFlush
  import opened TrackedRules
  import opened RunEngine
  import Zones = ZoneRules
  import ZoneReducer

  // ---------------------------------------------------------------- statements about raw data

  /** Every sample from one at or before lo showed red, up to a sample of another colour after hi
      or to an end of the source after hi. */
  ghost predicate RedAround(trace: seq<Signals.SignalObservation>, endMs: nat, lo: int, hi: int) {
    exists k, j :: 0 <= k < j <= |trace| && RedUntil(trace, k, j)
                   && trace[k].timeMs <= lo && hi < (if j < |trace| then trace[j].timeMs else endMs)
  }

  ghost predicate RedUntil(trace: seq<Signals.SignalObservation>, k: nat, j: nat)
    requires k < j <= |trace|
  {
    (forall m :: k <= m < j ==> trace[m].state == Signals.Red)
    && (j < |trace| ==> trace[j].state != Signals.Red)
  }

  /** What the observations of one track looked like, in the order they were processed. */
  function TrackTrace(rule: LineRule, batches: seq<seq<Observation>>, track: string): seq<Sample> {
    ClassifyAll(rule, OfTrack(FlattenSorted(batches), track))
  }

  /** A bracket of the track's last stretch whose two ends were really observed. */
  ghost predicate ObservedCrossing(rule: LineRule, trace: seq<Sample>, i: nat, k: nat) {
    IsBracket(rule, trace, i, k) && !trace[i].predicted && !trace[k].predicted
    && exists s: nat :: StartsLastStretch(rule, trace, s) && s <= i
  }

  /** The candidate is a really observed crossing and, for a red-phase rule, some region was red throughout. */
  ghost predicate Proven(rule: LineRule, batches: seq<seq<Observation>>,
                         traces: seq<seq<Signals.SignalObservation>>, endMs: nat, c: RuleCandidate)
  {
    exists track: string, i: nat, k: nat :: ProvenBy(rule, TrackTrace(rule, batches, track), track, traces, endMs, c, i, k)
  }

  ghost predicate ProvenBy(rule: LineRule, trace: seq<Sample>, track: string,
                           traces: seq<seq<Signals.SignalObservation>>, endMs: nat, c: RuleCandidate, i: nat, k: nat)
  {
    && ObservedCrossing(rule, trace, i, k)
    && (rule.capability == RedPhaseCrossing ==>
          RedSomewhere(traces, endMs, trace[i].timeMs - rule.marginMs, trace[k].timeMs + rule.marginMs))
    && c == RuleCandidate(rule.ruleId, EpisodeAt(rule, track, trace, i, k).id,
                          CrossingBracket(trace[i].timeMs, trace[k].timeMs),
                          [Crossing(trace[i].timeMs, trace[k].timeMs),
                           if rule.capability == RedPhaseCrossing then RedSignal else ValidDirection,
                           Fact.Track(track)], Supported)
  }

  ghost predicate RedSomewhere(traces: seq<seq<Signals.SignalObservation>>, endMs: nat, lo: int, hi: int) {
    exists g :: 0 <= g < |traces| && RedAround(traces[g], endMs, lo, hi)
  }

  // ---------------------------------------------------------------- signals

  /** The first sample of the run that contains k. */
  lemma {:induction false} RunStart(trace: seq<Signals.SignalObservation>, k: nat, j: nat) returns (i: nat)
    requires k < j <= |trace| && RedUntil(trace, k, j)
    ensures i <= k && Signals.IsRun(trace, i, j) && trace[i].state == Signals.Red
  {
    if k > 0 && trace[k - 1].state == Signals.Red {
      i := RunStart(trace, k - 1, j);
    } else {
      i := k;
    }
  }

  lemma RedIsReported(trace: seq<Signals.SignalObservation>, endMs: nat, bracket: CrossingBracket, marginMs: int, k: nat, j: nat)
    requires Signals.Run(0, trace).Ok? && bracket.Ordered() && marginMs >= 0
    requires k < j <= |trace| && RedUntil(trace, k, j)
    requires trace[k].timeMs <= bracket.lastPreMs - marginMs
    requires bracket.firstPostMs + marginMs < (if j < |trace| then trace[j].timeMs else endMs)
    ensures exists x :: x in OnlyRed(Signals.Intervals(0, trace, endMs)) && IntervalCovers(x, bracket, marginMs)
  {
    hide Signals.Run, Signals.Intervals, Signals.Witnessed, IntervalCovers, OnlyRed;
    var i := RunStart(trace, k, j);
    Signals.AcceptedIsOrdered(0, trace);
    assert trace[i].timeMs <= trace[k].timeMs;
    var run := Signals.Interval(i, i, j);
    assert Signals.ConfirmsAt(0, trace, i, i);
    Signals.RunIsReported(0, trace, endMs, run);
    ReportCovers(trace, endMs, bracket, marginMs, run);
  }

  lemma ReportCovers(trace: seq<Signals.SignalObservation>, endMs: nat, bracket: CrossingBracket, marginMs: int, run: Signals.Interval)
    requires Signals.Run(0, trace).Ok?
    requires run.i < run.j <= |trace| && run.k < |trace| && trace[run.i].state == Signals.Red
    requires trace[run.k].timeMs <= bracket.lastPreMs - marginMs
    requires bracket.firstPostMs + marginMs < (if run.j < |trace| then trace[run.j].timeMs else endMs)
    requires exists n :: 0 <= n < |Signals.Intervals(0, trace, endMs)|
               && Signals.Witnessed(0, trace, endMs, Signals.Intervals(0, trace, endMs)[n], run)
    ensures exists x :: x in OnlyRed(Signals.Intervals(0, trace, endMs)) && IntervalCovers(x, bracket, marginMs)
  {
    hide Signals.Run, Signals.Intervals;
    var intervals := Signals.Intervals(0, trace, endMs);
    var n :| 0 <= n < |intervals| && Signals.Witnessed(0, trace, endMs, intervals[n], run);
    assert intervals[n] in OnlyRed(intervals);
    assert IntervalCovers(intervals[n], bracket, marginMs);
  }

  /** Some reported red interval covers the bracket and its margin exactly when red was seen around it. */
  lemma CoveredMeansRed(trace: seq<Signals.SignalObservation>, endMs: nat, bracket: CrossingBracket, marginMs: int)
    requires Signals.Run(0, trace).Ok? && bracket.Ordered() && marginMs >= 0
    ensures (exists x :: x in OnlyRed(Signals.Intervals(0, trace, endMs)) && IntervalCovers(x, bracket, marginMs)) <==>
            RedAround(trace, endMs, bracket.lastPreMs - marginMs, bracket.firstPostMs + marginMs)
  {
    hide Signals.Run, Signals.Intervals;
    var intervals := Signals.Intervals(0, trace, endMs);
    var lo, hi := bracket.lastPreMs - marginMs, bracket.firstPostMs + marginMs;
    if x :| x in OnlyRed(intervals) && IntervalCovers(x, bracket, marginMs) {
      var n :| 0 <= n < |intervals| && intervals[n] == x;
      Signals.IntervalIsWitnessed(0, trace, endMs, n);
      var run :| Signals.Witnessed(0, trace, endMs, x, run);
      assert RedUntil(trace, run.k, run.j);
    }
    if RedAround(trace, endMs, lo, hi) {
      var k, j :| 0 <= k < j <= |trace| && RedUntil(trace, k, j)
                  && trace[k].timeMs <= lo && hi < (if j < |trace| then trace[j].timeMs else endMs);
      RedIsReported(trace, endMs, bracket, marginMs, k, j);
    }
  }

  ghost predicate AllRed(trace: seq<Signals.SignalObservation>, lo: int, hi: int) {
    forall m :: 0 <= m < |trace| && lo <= trace[m].timeMs <= hi ==> trace[m].state == Signals.Red
  }

  /** Red around a window makes every sample in it red exactly when every sample at its first instant
      is red; when no two samples share a time they all are. */
  lemma RedInWindow(trace: seq<Signals.SignalObservation>, endMs: nat, lo: int, hi: int)
    requires Signals.TimeOrdered(trace) && RedAround(trace, endMs, lo, hi) && lo <= hi
    ensures AllRed(trace, lo, hi) <==> AllRed(trace, lo, lo)
    ensures Signals.StrictlyTimed(trace) ==> AllRed(trace, lo, hi)
  {
    var k, j :| 0 <= k < j <= |trace| && RedUntil(trace, k, j)
                && trace[k].timeMs <= lo && hi < (if j < |trace| then trace[j].timeMs else endMs);
    forall m | 0 <= m < |trace| && lo <= trace[m].timeMs <= hi && (lo < trace[m].timeMs || Signals.StrictlyTimed(trace))
      ensures trace[m].state == Signals.Red
    {
      assert k <= m < j;
    }
  }

  /** x is confirmed red of one of the first `count` regions. */
  ghost predicate RedOfSome(traces: seq<seq<Signals.SignalObservation>>, endMs: nat, count: nat, x: Signals.SignalInterval)
    requires count <= |traces| && SignalsAccepted(traces)
  {
    exists g :: 0 <= g < count && x in OnlyRed(Signals.Intervals(0, traces[g], endMs))
  }

  lemma RedOfNext(traces: seq<seq<Signals.SignalObservation>>, endMs: nat, count: nat, x: Signals.SignalInterval)
    requires 0 < count <= |traces| && SignalsAccepted(traces)
    ensures RedOfSome(traces, endMs, count, x) <==>
            RedOfSome(traces, endMs, count - 1, x) || x in OnlyRed(Signals.Intervals(0, traces[count - 1], endMs))
  {
  }

  lemma {:induction false} PooledReds(traces: seq<seq<Signals.SignalObservation>>, endMs: nat, count: nat, x: Signals.SignalInterval)
    requires count <= |traces| && SignalsAccepted(traces)
    ensures x in FinalReds(traces, endMs, count) <==> RedOfSome(traces, endMs, count, x)
  {
    if count > 0 {
      PooledReds(traces, endMs, count - 1, x);
      RedOfNext(traces, endMs, count, x);
    }
  }

  /** The hard gate says supported exactly when some region was red around the bracket. */
  lemma SupportedMeansRed(traces: seq<seq<Signals.SignalObservation>>, endMs: nat, bracket: CrossingBracket, marginMs: int)
    requires SignalsAccepted(traces) && bracket.Ordered() && marginMs >= 0
    ensures RedPhaseDisposition(bracket, FinalReds(traces, endMs, |traces|), marginMs).0 == Supported <==>
            RedSomewhere(traces, endMs, bracket.lastPreMs - marginMs, bracket.firstPostMs + marginMs)
  {
    var reds := FinalReds(traces, endMs, |traces|);
    forall g | 0 <= g < |traces|
      ensures (exists x :: x in OnlyRed(Signals.Intervals(0, traces[g], endMs)) && IntervalCovers(x, bracket, marginMs)) <==>
              RedAround(traces[g], endMs, bracket.lastPreMs - marginMs, bracket.firstPostMs + marginMs)
    {
      CoveredMeansRed(traces[g], endMs, bracket, marginMs);
    }
    forall x ensures x in reds <==> RedOfSome(traces, endMs, |traces|, x) {
      PooledReds(traces, endMs, |traces|, x);
    }
  }

  // ---------------------------------------------------------------- tracks

  lemma {:induction false} FramesAreOneTrace(rule: LineRule, batches: seq<seq<Observation>>)
    ensures ApplyFrames(EMPTY_STATE, rule, batches) == ObserveAll(EMPTY_STATE, rule, FlattenSorted(batches))
  {
    if |batches| > 0 {
      FramesAreOneTrace(rule, batches[..|batches| - 1]);
      ObserveAllSplits(EMPTY_STATE, rule, FlattenSorted(batches[..|batches| - 1]), SortByTime(batches[|batches| - 1]));
    }
  }

  /** A rule whose line is a point refuses the first observation. */
  lemma DegenerateSeesNothing(rule: LineRule, ordered: seq<Observation>)
    requires Degenerate(rule) && ObserveAll(EMPTY_STATE, rule, ordered).Ok?
    ensures ordered == []
  {
  }

  /** Every track of an accepted run holds exactly the brackets of its own last stretch. */
  lemma TracksHoldExactly(rule: LineRule, batches: seq<seq<Observation>>, track: string)
    requires DirectedRule(rule)
    requires ApplyFrames(EMPTY_STATE, rule, batches).Ok?
    ensures var state := ApplyFrames(EMPTY_STATE, rule, batches).value;
            HoldsExactly(rule, track, TrackTrace(rule, batches, track), TrackOf(state, track).episodes)
            && AllBracketsOrdered(rule, TrackTrace(rule, batches, track))
  {
    FramesAreOneTrace(rule, batches);
    if Degenerate(rule) {
      DegenerateSeesNothing(rule, FlattenSorted(batches));
      HeldEpisodes(rule, track, []);
      return;
    }
    TracksAreIndependent(EMPTY_STATE, rule, FlattenSorted(batches));
    assert FoldOf(EMPTY_STATE, rule, FlattenSorted(batches), track).Ok?;
    HeldEpisodes(rule, track, TrackTrace(rule, batches, track));
  }

  // ---------------------------------------------------------------- the theorem

  ghost predicate FromBracket(rule: LineRule, track: string, trace: seq<Sample>, reds: seq<Signals.SignalInterval>,
                              c: RuleCandidate, i: nat, k: nat)
  {
    && IsBracket(rule, trace, i, k)
    && (exists s: nat :: StartsLastStretch(rule, trace, s) && s <= i)
    && c == CandidateFromCrossing(rule, EpisodeAt(rule, track, trace, i, k), reds)
  }

  lemma StartIsUnique(rule: LineRule, trace: seq<Sample>, s: nat, s': nat)
    requires StartsLastStretch(rule, trace, s) && StartsLastStretch(rule, trace, s')
    ensures s == s'
  {
  }

  /** The candidates of one track are exactly those of the brackets in its last stretch. */
  lemma TrackCandidatesAreBrackets(rule: LineRule, track: string, trace: seq<Sample>, held: seq<CrossingEpisode>,
                                   reds: seq<Signals.SignalInterval>, c: RuleCandidate)
    requires HoldsExactly(rule, track, trace, held)
    ensures ComesFrom(c, rule, held, reds) <==> exists i: nat, k: nat :: FromBracket(rule, track, trace, reds, c, i, k)
  {
    var start: nat, pairs: seq<(nat, nat)> :|
      StartsLastStretch(rule, trace, start) && ListsBrackets(rule, trace, start, pairs)
      && Depicts(rule, track, trace, pairs, held);
    if e :| 0 <= e < |held| && c == CandidateFromCrossing(rule, held[e], reds) {
      assert (pairs[e].0, pairs[e].1) in pairs;
      assert FromBracket(rule, track, trace, reds, c, pairs[e].0, pairs[e].1);
    }
    if i: nat, k: nat :| FromBracket(rule, track, trace, reds, c, i, k) {
      var s: nat :| StartsLastStretch(rule, trace, s) && s <= i;
      StartIsUnique(rule, trace, s, start);
      assert (i, k) in pairs;
      var e :| 0 <= e < |pairs| && pairs[e] == (i, k);
      assert held[e] == EpisodeAt(rule, track, trace, i, k);
    }
  }

  /** An episode of a known track and an episode of a listed position are the same thing. */
  lemma ListedTracks(state: RuleState, rule: LineRule, reds: seq<Signals.SignalInterval>, c: RuleCandidate)
    requires WellOrdered(state)
    ensures (exists n :: 0 <= n < |state.order| && ComesFrom(c, rule, state.tracks[state.order[n]].episodes, reds)) <==>
            (exists track: string :: ComesFrom(c, rule, TrackOf(state, track).episodes, reds))
  {
    hide ComesFrom;
    if track: string :| ComesFrom(c, rule, TrackOf(state, track).episodes, reds) {
      if track !in state.tracks {
        NothingComesFrom(c, rule, reds);
      }
      var n :| 0 <= n < |state.order| && state.order[n] == track;
      assert ComesFrom(c, rule, state.tracks[state.order[n]].episodes, reds);
    }
    if n :| 0 <= n < |state.order| && ComesFrom(c, rule, state.tracks[state.order[n]].episodes, reds) {
      assert ComesFrom(c, rule, TrackOf(state, state.order[n]).episodes, reds);
    }
  }

  lemma NothingComesFrom(c: RuleCandidate, rule: LineRule, reds: seq<Signals.SignalInterval>)
    ensures !ComesFrom(c, rule, EMPTY_TRACK.episodes, reds)
  {
  }

  /** What a line rule emits: never refused, and always crossings. */
  lemma LineEmission(rule: LineRule, batches: seq<seq<Observation>>, reds: seq<Signals.SignalInterval>, endMs: nat, c: Candidate)
    requires ApplyFrames(EMPTY_STATE, rule, batches).Ok?
    ensures Fed(Line(rule), batches).Ok? && EmissionOf(Line(rule), batches, reds, endMs).Ok?
    ensures var state := ApplyFrames(EMPTY_STATE, rule, batches).value;
            && WellOrdered(state)
            && (c in EmissionOf(Line(rule), batches, reds, endMs).value <==>
                Emittable(c) && c.Crossed? && c.crossing in Candidates(state, rule, reds, |state.order|))
  {
    hide ApplyFrames;
    FedIsReduced(Line(rule), batches);
  }

  /** The candidates of a rule are exactly those of the brackets of the tracks it has seen. */
  lemma CandidatesAreBrackets(rule: LineRule, batches: seq<seq<Observation>>, reds: seq<Signals.SignalInterval>, endMs: nat, c: RuleCandidate)
    requires DirectedRule(rule)
    requires ApplyFrames(EMPTY_STATE, rule, batches).Ok?
    ensures Fed(Line(rule), batches).Ok? && EmissionOf(Line(rule), batches, reds, endMs).Ok?
    ensures Crossed(c) in EmissionOf(Line(rule), batches, reds, endMs).value <==>
            Emittable(Crossed(c)) && exists track: string, i: nat, k: nat ::
              FromBracket(rule, track, TrackTrace(rule, batches, track), reds, c, i, k)
  {
    hide ApplyFrames, FromBracket, ComesFrom, HoldsExactly, TrackTrace, Candidates, EmissionOf, Fed;
    LineEmission(rule, batches, reds, endMs, Crossed(c));
    var state := ApplyFrames(EMPTY_STATE, rule, batches).value;
    CandidateHasEpisode(state, rule, reds, |state.order|, c);
    ListedTracks(state, rule, reds, c);
    forall track: string
      ensures ComesFrom(c, rule, TrackOf(state, track).episodes, reds) <==>
              exists i: nat, k: nat :: FromBracket(rule, track, TrackTrace(rule, batches, track), reds, c, i, k)
    {
      TracksHoldExactly(rule, batches, track);
      TrackCandidatesAreBrackets(rule, track, TrackTrace(rule, batches, track), TrackOf(state, track).episodes, reds, c);
    }
  }

  lemma SupportedBracketIsProven(rule: LineRule, track: string, trace: seq<Sample>,
                                 traces: seq<seq<Signals.SignalObservation>>, endMs: nat, c: RuleCandidate, i: nat, k: nat)
    requires SignalsAccepted(traces) && rule.marginMs >= 0 && AllBracketsOrdered(rule, trace)
    ensures FromBracket(rule, track, trace, FinalReds(traces, endMs, |traces|), c, i, k) && c.verdict == Supported <==>
            ProvenBy(rule, trace, track, traces, endMs, c, i, k)
  {
    hide FinalReds, IntervalCovers, RedSomewhere, StartsLastStretch;
    if IsBracket(rule, trace, i, k) && (exists s: nat :: StartsLastStretch(rule, trace, s) && s <= i) {
      SupportedMeansRed(traces, endMs, CrossingBracket(trace[i].timeMs, trace[k].timeMs), rule.marginMs);
    }
  }

  /** A rule has a supported candidate exactly when the raw observations contain a really observed
      crossing and, for a red-phase rule, some region was red throughout and around it. */
  lemma SupportedIsProven(rule: LineRule, batches: seq<seq<Observation>>,
                          traces: seq<seq<Signals.SignalObservation>>, endMs: nat, c: RuleCandidate)
    requires DirectedRule(rule) && rule.marginMs >= 0
    requires SignalsAccepted(traces) && ApplyFrames(EMPTY_STATE, rule, batches).Ok?
    ensures var reds := FinalReds(traces, endMs, |traces|);
            && Fed(Line(rule), batches).Ok? && EmissionOf(Line(rule), batches, reds, endMs).Ok?
            && (Crossed(c) in EmissionOf(Line(rule), batches, reds, endMs).value && c.verdict == Supported <==>
                Proven(rule, batches, traces, endMs, c))
  {
    hide FromBracket, ProvenBy, EmissionOf, Fed, FinalReds, TrackTrace, ApplyFrames;
    CandidatesAreBrackets(rule, batches, FinalReds(traces, endMs, |traces|), endMs, c);
    forall track: string, i: nat, k: nat
      ensures FromBracket(rule, track, TrackTrace(rule, batches, track), FinalReds(traces, endMs, |traces|), c, i, k)
              && c.verdict == Supported <==>
              ProvenBy(rule, TrackTrace(rule, batches, track), track, traces, endMs, c, i, k)
    {
      TracksHoldExactly(rule, batches, track);
      SupportedBracketIsProven(rule, track, TrackTrace(rule, batches, track), traces, endMs, c, i, k);
    }
  }

  /** Every sample of a track's trace is an observation of that track in some frame. */
  lemma {:induction false} OfTrackMembers(s: seq<Observation>, track: string)
    ensures forall o :: o in OfTrack(s, track) <==> o in s && o.trackId == track
  {
    if |s| > 0 {
      OfTrackMembers(s[..|s| - 1], track);
      assert s == s[..|s| - 1] + [s[|s| - 1]];
    }
  }

  lemma {:induction false} FlattenSortedMembers(batches: seq<seq<Observation>>, o: Observation)
    ensures o in FlattenSorted(batches) <==> exists b :: 0 <= b < |batches| && o in batches[b]
  {
    if |batches| > 0 {
      FlattenSortedMembers(batches[..|batches| - 1], o);
      SortMembers(batches[|batches| - 1]);
    }
  }

  /** A supported crossing rests on two observations that were really made: one on the approach
      side, and a later one on the far side. */
  lemma ProvenHasObservations(rule: LineRule, batches: seq<seq<Observation>>, track: string, i: nat, k: nat)
    requires ObservedCrossing(rule, TrackTrace(rule, batches, track), i, k)
    ensures exists o, b :: 0 <= b < |batches| && o in batches[b] && o.trackId == track && o.observed && !o.predictedOnly
              && Classify(rule, o).side == rule.fromSide && o.timeMs == TrackTrace(rule, batches, track)[i].timeMs
    ensures exists o, b :: 0 <= b < |batches| && o in batches[b] && o.trackId == track && o.observed && !o.predictedOnly
              && Classify(rule, o).side == rule.toSide && o.timeMs == TrackTrace(rule, batches, track)[k].timeMs
  {
    var all := FlattenSorted(batches);
    var mine := OfTrack(all, track);
    OfTrackMembers(all, track);
    assert mine[i] in mine && mine[k] in mine;
    FlattenSortedMembers(batches, mine[i]);
    FlattenSortedMembers(batches, mine[k]);
  }

  ghost predicate DistinctRules(rules: seq<Rule>) {
    forall p, q :: 0 <= p < q < |rules| ==> rules[p].Id() != rules[q].Id()
  }

  /** The candidates of a rule carry its id, and say of which kind it is. */
  lemma NamesItsRule(rule: Rule, batches: seq<seq<Observation>>, reds: seq<Signals.SignalInterval>, endMs: nat, c: Candidate)
    requires Fed(rule, batches).Ok? && EmissionOf(rule, batches, reds, endMs).Ok?
    requires c in EmissionOf(rule, batches, reds, endMs).value
    ensures c.RuleId() == rule.Id() && (c.Crossed? <==> rule.Line?)
  {
    hide Fed;
    var state := Fed(rule, batches).value;
    if rule.Line? {
      CandidateHasEpisode(state.lines, rule.line, reds, |state.lines.order|, c.crossing);
    } else {
      var stays := Zones.Candidates(state.zones, rule.zone, endMs, |state.zones.order|).value;
      var i :| 0 <= i < |stays| && c == Stayed(stays[i]);
      Zones.CandidatesNameRule(state.zones, rule.zone, endMs, |state.zones.order|);
    }
  }

  /** What a completed run emits under the id of a rule is what that rule emits. */
  lemma EmittedUnderId(rules: seq<Rule>, traces: seq<seq<Signals.SignalObservation>>, batches: seq<seq<Observation>>,
                       endMs: nat, emitted: seq<Candidate>, q: nat, c: Candidate)
    requires Yields(rules, traces, batches, endMs, emitted) && DistinctRules(rules)
    requires q < |rules| && c.RuleId() == rules[q].Id()
    ensures var reds := FinalReds(traces, endMs, |traces|);
            && Fed(rules[q], batches).Ok? && EmissionOf(rules[q], batches, reds, endMs).Ok?
            && (c in emitted <==> c in EmissionOf(rules[q], batches, reds, endMs).value)
  {
    hide EmissionOf, Emitted, Fed, FinalReds;
    var reds := FinalReds(traces, endMs, |traces|);
    EmittedMembers(rules, batches, reds, endMs, |rules|, c);
    assert forall p :: 0 <= p < |rules| ==> EmissionOf(rules[p], batches, reds, endMs).Ok?;
    forall p | 0 <= p < |rules| && c in EmissionOf(rules[p], batches, reds, endMs).value ensures p == q {
      NamesItsRule(rules[p], batches, reds, endMs, c);
    }
  }

  /** The whole run, whatever its mix of rules: the supported crossings under the id of a line rule
      are exactly those that the raw input proves for it. */
  lemma RunIsSound(rules: seq<Rule>, traces: seq<seq<Signals.SignalObservation>>,
                   batches: seq<seq<Observation>>, endMs: nat, emitted: seq<Candidate>, q: nat, c: RuleCandidate)
    requires Yields(rules, traces, batches, endMs, emitted) && DistinctRules(rules)
    requires q < |rules| && rules[q].Line? && DirectedRule(rules[q].line) && rules[q].line.marginMs >= 0
    requires c.ruleId == rules[q].Id()
    ensures Crossed(c) in emitted && c.verdict == Supported <==> Proven(rules[q].line, batches, traces, endMs, c)
  {
    hide EmissionOf, Emitted, Fed, Proven, FinalReds, ApplyFrames;
    EmittedUnderId(rules, traces, batches, endMs, emitted, q, Crossed(c));
    FedIsReduced(rules[q], batches);
    SupportedIsProven(rules[q].line, batches, traces, endMs, c);
  }

  /** Some stay of the track emitted under the id contains t. */
  ghost predicate StayReported(emitted: seq<Candidate>, ruleId: string, track: string, t: int) {
    exists z: ZoneReducer.ZoneCandidate ::
      Stayed(z) in emitted && z.ruleId == ruleId && z.trackId == track && z.persistence.Contains(t)
  }

  /** And the stays under the id of a zone rule cover exactly the instants at which the raw
      observations show the track staying in the polygon. */
  lemma RunReportsStays(rules: seq<Rule>, traces: seq<seq<Signals.SignalObservation>>,
                        batches: seq<seq<Observation>>, endMs: nat, emitted: seq<Candidate>, q: nat, track: string, t: int)
    requires Yields(rules, traces, batches, endMs, emitted) && DistinctRules(rules)
    requires q < |rules| && rules[q].Zone? && |rules[q].zone.polygon| >= 3 && rules[q].zone.mergeGapMs == 0
    ensures StayReported(emitted, rules[q].Id(), track, t) <==>
            ZoneReducer.StayedAt(rules[q].zone, Zones.TrackSamples(rules[q].zone, FlattenSorted(batches), track), endMs, t)
  {
    hide EmissionOf, Emitted, Fed, FinalReds, ZoneReducer.StayedAt, Zones.TrackSamples, Zones.Candidates, Zones.ApplyFrames;
    var rule, reds := rules[q].zone, FinalReds(traces, endMs, |traces|);
    assert Fed(rules[q], batches).Ok? && EmissionOf(rules[q], batches, reds, endMs).Ok?;
    ZoneEmission(rule, batches, reds, endMs);
    var state := Zones.ApplyFrames(rule, batches).value;
    var stays := Zones.Candidates(state, rule, endMs, |state.order|).value;
    forall z: ZoneReducer.ZoneCandidate | z.ruleId == rule.ruleId
      ensures Stayed(z) in emitted <==> z in stays
    {
      EmittedUnderId(rules, traces, batches, endMs, emitted, q, Stayed(z));
    }
    Zones.CandidatesNameRule(state, rule, endMs, |state.order|);
    Zones.ZonesAreStays(rule, batches, endMs, track, t);
  }

  lemma ZoneEmission(rule: ZoneReducer.ZoneRule, batches: seq<seq<Observation>>, reds: seq<Signals.SignalInterval>, endMs: nat)
    requires Fed(Zone(rule), batches).Ok? && EmissionOf(Zone(rule), batches, reds, endMs).Ok?
    ensures Zones.ApplyFrames(rule, batches).Ok?
    ensures var state := Zones.ApplyFrames(rule, batches).value;
            && Zones.Candidates(state, rule, endMs, |state.order|).Ok?
            && forall z :: Stayed(z) in EmissionOf(Zone(rule), batches, reds, endMs).value <==>
                           z in Zones.Candidates(state, rule, endMs, |state.order|).value
  {
    hide Zones.ApplyFrames, Zones.Candidates;
    FedIsReduced(Zone(rule), batches);
    var state := Zones.ApplyFrames(rule, batches).value;
    var stays := Zones.Candidates(state, rule, endMs, |state.order|).value;
    forall z ensures Stayed(z) in EmittedStays(stays) <==> z in stays {
      if z in stays {
        var i :| 0 <= i < |stays| && stays[i] == z;
        assert EmittedStays(stays)[i] == Stayed(z);
      }
    }
  }

  // ---------------------------------------------------------------- from the specification

  /** What a specification and its calibration come to is fit for the theorems above. */
  lemma ConfiguredRun(spec: seq<TrackedRule>, calibration: Calibration, rules: seq<Rule>)
    requires RunEngine.DistinctIds(spec) && AllConfigured(spec, calibration, rules)
    ensures DistinctRules(rules)
    ensures forall q :: 0 <= q < |rules| ==>
              if rules[q].Line? then DirectedRule(rules[q].line) && rules[q].line.marginMs >= 0
              else |rules[q].zone.polygon| >= 3 && rules[q].zone.mergeGapMs == 0
  {
    forall q | 0 <= q < |rules|
      ensures rules[q].Id() == spec[q].ruleId
      ensures if rules[q].Line? then DirectedRule(rules[q].line) && rules[q].line.marginMs >= 0
              else |rules[q].zone.polygon| >= 3 && rules[q].zone.mergeGapMs == 0
    {
      ConfiguredIsSound(spec[q], calibration, rules[q]);
    }
  }

  /** Everything a completed run of a specification reports, at once: the crossings of its line rules
      and the stays of its zone rules, in terms of the raw input. */
  lemma SpecificationIsSound(spec: seq<TrackedRule>, calibration: Calibration, rules: seq<Rule>,
                             frames: seq<Frame>, regions: nat, durationMs: nat,
                             cancelled: nat -> bool, late: nat -> bool, maxFrames: nat,
                             emitted: seq<Candidate>, reports: seq<Report>)
    requires RunEngine.DistinctIds(spec) && AllConfigured(spec, calibration, rules) && Regular(frames, regions)
    requires Ends(rules, frames, regions, durationMs, cancelled, late, maxFrames, Completed, emitted, reports)
    ensures forall q, c: RuleCandidate :: 0 <= q < |rules| && rules[q].Line? && c.ruleId == spec[q].ruleId ==>
              (Crossed(c) in emitted && c.verdict == Supported <==>
               Proven(rules[q].line, Batches(frames), SignalTraces(frames, regions), EndTime(frames, durationMs), c))
    ensures forall q :: 0 <= q < |rules| && rules[q].Zone? ==> |rules[q].zone.polygon| >= 3
    ensures forall q, track, t :: 0 <= q < |rules| && rules[q].Zone? ==>
              (StayReported(emitted, spec[q].ruleId, track, t) <==>
               ZoneReducer.StayedAt(rules[q].zone, Zones.TrackSamples(rules[q].zone, FlattenSorted(Batches(frames)), track),
                                    EndTime(frames, durationMs), t))
  {
    hide Proven, StayReported, ZoneReducer.StayedAt, Zones.TrackSamples, Yields, Ends, Configured;
    var traces, batches, endMs := SignalTraces(frames, regions), Batches(frames), EndTime(frames, durationMs);
    CompletedYields(rules, frames, regions, durationMs, cancelled, late, maxFrames, emitted, reports);
    ConfiguredRun(spec, calibration, rules);
    forall q | 0 <= q < |rules| ensures rules[q].Id() == spec[q].ruleId {
      ConfiguredIsSound(spec[q], calibration, rules[q]);
    }
    forall q, c: RuleCandidate | 0 <= q < |rules| && rules[q].Line? && c.ruleId == spec[q].ruleId
      ensures Crossed(c) in emitted && c.verdict == Supported <==> Proven(rules[q].line, batches, traces, endMs, c)
    {
      RunIsSound(rules, traces, batches, endMs, emitted, q, c);
    }
    forall q, track, t | 0 <= q < |rules| && rules[q].Zone?
      ensures StayReported(emitted, spec[q].ruleId, track, t) <==>
              ZoneReducer.StayedAt(rules[q].zone, Zones.TrackSamples(rules[q].zone, FlattenSorted(batches), track), endMs, t)
    {
      RunReportsStays(rules, traces, batches, endMs, emitted, q, track, t);
    }
  }
}
