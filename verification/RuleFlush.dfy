/** Turning held crossing episodes into rule candidates. */
module RuleFlush {
  import opened Contracts
  import opened LineReducer
  import opened RuleReducer
  import opened SignalIntervals
  import opened Disposition

  datatype RuleCandidate = RuleCandidate(
    ruleId: string, episodeId: EpisodeId, crossing: CrossingBracket, facts: seq<Fact>, verdict: Verdict)

  function CandidateFromCrossing(rule: LineRule, ep: CrossingEpisode, reds: seq<SignalInterval>): RuleCandidate {
    var (verdict, facts) := if rule.capability == RedPhaseCrossing
                            then RedPhaseDisposition(ep.bracket, reds, rule.marginMs)
                            else LineCrossingDisposition(ep.bracket);
    RuleCandidate(rule.ruleId, ep.id, ep.bracket,
                  (if ep.predictedInBracket then facts + [PredictedOnly] else facts) + [Fact.Track(ep.trackId)],
                  if ep.predictedInBracket then Inconclusive else verdict)
  }

  function TrackCandidates(rule: LineRule, episodes: seq<CrossingEpisode>, reds: seq<SignalInterval>): seq<RuleCandidate> {
    seq(|episodes|, n requires 0 <= n < |episodes| => CandidateFromCrossing(rule, episodes[n], reds))
  }

  /** Candidates of the first `count` tracks, in the order the tracks were first seen. */
  function Candidates(state: RuleState, rule: LineRule, reds: seq<SignalInterval>, count: nat): seq<RuleCandidate>
    requires count <= |state.order| && forall t :: t in state.order ==> t in state.tracks
  {
    if count == 0 then []
    else Candidates(state, rule, reds, count - 1)
         + TrackCandidates(rule, state.tracks[state.order[count - 1]].episodes, reds)
  }

  method Flush(state: RuleState, rule: LineRule, reds: seq<SignalInterval>) returns (candidates: seq<RuleCandidate>)
    requires WellOrdered(state)
    ensures candidates == Candidates(state, rule, reds, |state.order|)
  {
    candidates := [];
    for n := 0 to |state.order|
      invariant candidates == Candidates(state, rule, reds, n)
    {
      var episodes := state.tracks[state.order[n]].episodes;
      var before := candidates;
      for e := 0 to |episodes|
        invariant candidates == before + TrackCandidates(rule, episodes, reds)[..e]
      {
        candidates := candidates + [CandidateFromCrossing(rule, episodes[e], reds)];
      }
      assert TrackCandidates(rule, episodes, reds)[..|episodes|] == TrackCandidates(rule, episodes, reds);
    }
  }

  ghost predicate ComesFrom(c: RuleCandidate, rule: LineRule, episodes: seq<CrossingEpisode>, reds: seq<SignalInterval>) {
    exists e :: 0 <= e < |episodes| && c == CandidateFromCrossing(rule, episodes[e], reds)
  }

  lemma TrackMembers(rule: LineRule, episodes: seq<CrossingEpisode>, reds: seq<SignalInterval>, c: RuleCandidate)
    ensures c in TrackCandidates(rule, episodes, reds) <==> ComesFrom(c, rule, episodes, reds)
  {
    var cs := TrackCandidates(rule, episodes, reds);
    if e :| 0 <= e < |episodes| && c == CandidateFromCrossing(rule, episodes[e], reds) {
      assert cs[e] == c;
    }
  }

  /** The candidates are those of the episodes held by the tracks. */
  lemma {:induction false} CandidateHasEpisode(state: RuleState, rule: LineRule, reds: seq<SignalInterval>, count: nat, c: RuleCandidate)
    requires count <= |state.order| && forall t :: t in state.order ==> t in state.tracks
    ensures c in Candidates(state, rule, reds, count) <==>
            exists n :: 0 <= n < count && ComesFrom(c, rule, state.tracks[state.order[n]].episodes, reds)
  {
    if count > 0 {
      CandidateHasEpisode(state, rule, reds, count - 1, c);
      TrackMembers(rule, state.tracks[state.order[count - 1]].episodes, reds, c);
    }
  }
}
