/** Bounded semantic analysis of a source, window by window. */
module SemanticReasoning {
  import opened Contracts
  import opened IntervalMerge
  import opened Windows

  datatype Decision = Present | Absent | Uncertain

  datatype Observation = Observation(requested: TimeRange, conditionId: string, decision: Decision,
                                     observed: seq<TimeRange>, refs: set<string>)

  /** What the reasoner does with one request. */
  datatype Reply = TimedOut | Answered(obs: Observation)

  datatype ReasoningError = BadWindows | RangeMismatch | ConditionMismatch | NoEvidence | OutsideWindow | RangesWithoutPresence

  datatype Disposition = PresentFound | AbsentFound | UncertainFound | PartialFound

  datatype Episode = Episode(conditionId: string, range: TimeRange, refs: set<string>)

  datatype Analysis = Analysis(disposition: Disposition, episodes: seq<Episode>, observations: seq<Observation>,
                               unknown: seq<TimeRange>, requestedWindows: nat, completedWindows: nat)

  // ---------------------------------------------------------------- one observation

  predicate AllWithin(observed: seq<TimeRange>, window: TimeRange) {
    forall i :: 0 <= i < |observed| ==> window.startMs <= observed[i].startMs && observed[i].endMs <= window.endMs
  }

  function Validate(obs: Observation, window: TimeRange, conditionId: string): Option<ReasoningError> {
    if obs.requested != window then Some(RangeMismatch)
    else if obs.conditionId != conditionId then Some(ConditionMismatch)
    else if obs.refs == {} then Some(NoEvidence)
    else if !AllWithin(obs.observed, window) then Some(OutsideWindow)
    else if obs.decision != Present && obs.observed != [] then Some(RangesWithoutPresence)
    else None
  }

  // ---------------------------------------------------------------- the scan over the windows

  datatype Scan = Scan(observations: seq<Observation>, unknown: seq<TimeRange>)

  function ScanOne(s: Scan, window: TimeRange, reply: Reply, conditionId: string): Result<Scan, ReasoningError> {
    if reply.TimedOut? then Ok(s.(unknown := s.unknown + [window]))
    else
      var error := Validate(reply.obs, window, conditionId);
      if error.Some? then Err(error.value)
      else Ok(Scan(s.observations + [reply.obs], if reply.obs.decision == Uncertain then s.unknown + [window] else s.unknown))
  }

  function ScanAll(windows: seq<TimeRange>, replies: seq<Reply>, conditionId: string): Result<Scan, ReasoningError>
    requires |windows| == |replies|
  {
    if |windows| == 0 then Ok(Scan([], []))
    else
      var n := |windows| - 1;
      var before := ScanAll(windows[..n], replies[..n], conditionId);
      if before.Err? then before else ScanOne(before.value, windows[n], replies[n], conditionId)
  }

  /** Windows beyond the call budget are not requested. */
  function Budgeted(windows: seq<TimeRange>, maxCalls: nat): nat {
    Min(|windows|, maxCalls)
  }

  function ScanWithin(windows: seq<TimeRange>, replies: seq<Reply>, conditionId: string, maxCalls: nat): Result<Scan, ReasoningError>
    requires |windows| == |replies|
  {
    var k := Budgeted(windows, maxCalls);
    var scanned := ScanAll(windows[..k], replies[..k], conditionId);
    if scanned.Err? then scanned else Ok(scanned.value.(unknown := scanned.value.unknown + windows[k..]))
  }

  /** The observed ranges of the present observations, in order. */
  function PresentRanges(observations: seq<Observation>): seq<TimeRange> {
    if |observations| == 0 then []
    else
      var last := observations[|observations| - 1];
      PresentRanges(observations[..|observations| - 1]) + (if last.decision == Present then last.observed else [])
  }

  predicate Meets(observed: seq<TimeRange>, item: TimeRange) {
    exists i :: 0 <= i < |observed| && observed[i].startMs < item.endMs && observed[i].endMs > item.startMs
  }

  /** The evidence of the present observations with a range that meets the episode. */
  function RefsFor(observations: seq<Observation>, item: TimeRange): set<string> {
    if |observations| == 0 then {}
    else
      var last := observations[|observations| - 1];
      RefsFor(observations[..|observations| - 1], item)
      + (if last.decision == Present && Meets(last.observed, item) then last.refs else {})
  }

  function EpisodesOf(observations: seq<Observation>, merged: seq<TimeRange>, conditionId: string): seq<Episode> {
    if |merged| == 0 then []
    else
      var last := merged[|merged| - 1];
      EpisodesOf(observations, merged[..|merged| - 1], conditionId)
      + [Episode(conditionId, last, RefsFor(observations, last))]
  }

  predicate AllAbsent(observations: seq<Observation>) {
    forall i :: 0 <= i < |observations| ==> observations[i].decision == Absent
  }

  function Conclude(s: Scan, conditionId: string, requested: nat): Analysis {
    var episodes := EpisodesOf(s.observations, Merged(PresentRanges(s.observations), 0), conditionId);
    var disposition :=
      if s.unknown != [] then PartialFound
      else if episodes != [] then PresentFound
      else if s.observations != [] && AllAbsent(s.observations) then AbsentFound
      else UncertainFound;
    Analysis(disposition, episodes, s.observations, Merged(s.unknown, 0), requested, |s.observations|)
  }

  function AnalysisOf(range: TimeRange, windowMs: int, strideMs: int, conditionId: string, replies: seq<Reply>,
                      maxCalls: nat): Result<Analysis, ReasoningError>
    requires windowMs > 0 && strideMs > 0 ==> |replies| == |WindowsFrom(range.startMs, range.endMs, windowMs, strideMs)|
  {
    if windowMs <= 0 || strideMs <= 0 then Err(BadWindows)
    else
      var windows := WindowsFrom(range.startMs, range.endMs, windowMs, strideMs);
      var scanned := ScanWithin(windows, replies, conditionId, maxCalls);
      if scanned.Err? then Err(scanned.error) else Ok(Conclude(scanned.value, conditionId, |windows|))
  }

  // ---------------------------------------------------------------- the service

  lemma ScanNext(windows: seq<TimeRange>, replies: seq<Reply>, conditionId: string, i: nat)
    requires |windows| == |replies| && i < |windows|
    ensures var before := ScanAll(windows[..i], replies[..i], conditionId);
            ScanAll(windows[..i + 1], replies[..i + 1], conditionId) ==
            if before.Err? then before else ScanOne(before.value, windows[i], replies[i], conditionId)
  {
    assert windows[..i + 1][..i] == windows[..i] && replies[..i + 1][..i] == replies[..i];
  }

  lemma {:induction false} ErrorStays(windows: seq<TimeRange>, replies: seq<Reply>, conditionId: string, i: nat)
    requires |windows| == |replies| && i <= |windows| && ScanAll(windows[..i], replies[..i], conditionId).Err?
    ensures ScanAll(windows, replies, conditionId) == ScanAll(windows[..i], replies[..i], conditionId)
    decreases |windows|
  {
    if i == |windows| {
      assert windows[..i] == windows && replies[..i] == replies;
    } else {
      var n := |windows| - 1;
      assert windows[..n][..i] == windows[..i] && replies[..n][..i] == replies[..i];
      ErrorStays(windows[..n], replies[..n], conditionId, i);
    }
  }

  class SemanticReasoningService {
    const maxCalls: nat
    /** Requests made to the reasoner. */
    var calls: nat

    constructor (maxCalls: nat)
      ensures this.maxCalls == maxCalls && calls == 0
    {
      this.maxCalls, calls := maxCalls, 0;
    }

    /** `replies[i]` is what the reasoner answers about window i, if it is asked. */
    method Analyze(conditionId: string, range: TimeRange, windowMs: int, strideMs: int, replies: seq<Reply>)
      returns (r: Result<Analysis, ReasoningError>)
      requires windowMs > 0 && strideMs > 0 ==> |replies| == |WindowsFrom(range.startMs, range.endMs, windowMs, strideMs)|
      modifies this
      ensures r == AnalysisOf(range, windowMs, strideMs, conditionId, replies, maxCalls)
      ensures calls - old(calls) <= maxCalls
      ensures r.Ok? ==> calls - old(calls) == Min(r.value.requestedWindows, maxCalls)
    {
      var cut := CutWindows(range, windowMs, strideMs);
      if cut.Err? {
        return Err(BadWindows);
      }
      var windows := cut.value;
      ghost var k := Budgeted(windows, maxCalls);
      var s := Scan([], []);
      var index := 0;
      while index < |windows|
        invariant index <= k && calls == old(calls) + index
        invariant ScanAll(windows[..index], replies[..index], conditionId) == Ok(s)
      {
        if index >= maxCalls {
          s := s.(unknown := s.unknown + windows[index..]);
          return Ok(Conclude(s, conditionId, |windows|));
        }
        calls := calls + 1;
        ScanNext(windows, replies, conditionId, index);
        var next := ScanOne(s, windows[index], replies[index], conditionId);
        if next.Err? {
          PrefixError(windows, replies, conditionId, k, index + 1);
          return Err(next.error);
        }
        s := next.value;
        index := index + 1;
      }
      assert s.unknown + windows[k..] == s.unknown;
      r := Ok(Conclude(s, conditionId, |windows|));
    }
  }

  lemma PrefixError(windows: seq<TimeRange>, replies: seq<Reply>, conditionId: string, k: nat, i: nat)
    requires |windows| == |replies| && i <= k <= |windows| && ScanAll(windows[..i], replies[..i], conditionId).Err?
    ensures ScanAll(windows[..k], replies[..k], conditionId) == ScanAll(windows[..i], replies[..i], conditionId)
  {
    assert windows[..k][..i] == windows[..i] && replies[..k][..i] == replies[..i];
    ErrorStays(windows[..k], replies[..k], conditionId, i);
  }

  // ---------------------------------------------------------------- what a scan holds

  /** Window i was requested, answered and decided. */
  predicate Decided(replies: seq<Reply>, maxCalls: nat, i: nat)
    requires i < |replies|
  {
    i < maxCalls && replies[i].Answered? && replies[i].obs.decision != Uncertain
  }

  ghost predicate IsAnswer(replies: seq<Reply>, obs: Observation, i: nat) {
    i < |replies| && replies[i] == Answered(obs)
  }

  ghost predicate IsUndecided(windows: seq<TimeRange>, replies: seq<Reply>, w: TimeRange, i: nat)
    requires |windows| == |replies|
  {
    i < |windows| && windows[i] == w && !Decided(replies, |replies|, i)
  }

  ghost predicate HoldsAnswers(replies: seq<Reply>, s: Scan) {
    forall obs :: obs in s.observations <==> exists i: nat :: IsAnswer(replies, obs, i)
  }

  ghost predicate HoldsUndecided(windows: seq<TimeRange>, replies: seq<Reply>, s: Scan)
    requires |windows| == |replies|
  {
    forall w :: w in s.unknown <==> exists i: nat :: IsUndecided(windows, replies, w, i)
  }

  lemma AnswerOfPrefix(replies: seq<Reply>, n: nat, obs: Observation)
    requires n + 1 == |replies|
    ensures (exists i: nat :: IsAnswer(replies, obs, i)) <==>
            (exists i: nat :: IsAnswer(replies[..n], obs, i)) || replies[n] == Answered(obs)
  {
    if i: nat :| IsAnswer(replies[..n], obs, i) {
      assert IsAnswer(replies, obs, i);
    }
    if i: nat :| IsAnswer(replies, obs, i) {
      assert i < n ==> IsAnswer(replies[..n], obs, i);
    }
    if replies[n] == Answered(obs) {
      assert IsAnswer(replies, obs, n);
    }
  }

  lemma UndecidedOfPrefix(windows: seq<TimeRange>, replies: seq<Reply>, n: nat, w: TimeRange)
    requires |windows| == |replies| == n + 1
    ensures (exists i: nat :: IsUndecided(windows, replies, w, i)) <==>
            (exists i: nat :: IsUndecided(windows[..n], replies[..n], w, i)) || (windows[n] == w && !Decided(replies, n + 1, n))
  {
    if i: nat :| IsUndecided(windows[..n], replies[..n], w, i) {
      assert IsUndecided(windows, replies, w, i);
    }
    if i: nat :| IsUndecided(windows, replies, w, i) {
      assert i < n ==> IsUndecided(windows[..n], replies[..n], w, i);
    }
    if windows[n] == w && !Decided(replies, n + 1, n) {
      assert IsUndecided(windows, replies, w, n);
    }
  }

  /** A scan keeps exactly the answers, and as unknown exactly the windows not decided. */
  lemma {:induction false} ScanHolds(windows: seq<TimeRange>, replies: seq<Reply>, conditionId: string)
    requires |windows| == |replies| && ScanAll(windows, replies, conditionId).Ok?
    ensures HoldsAnswers(replies, ScanAll(windows, replies, conditionId).value)
    ensures HoldsUndecided(windows, replies, ScanAll(windows, replies, conditionId).value)
  {
    if |windows| > 0 {
      var n := |windows| - 1;
      ScanHolds(windows[..n], replies[..n], conditionId);
      forall obs ensures obs in ScanAll(windows, replies, conditionId).value.observations <==> exists i: nat :: IsAnswer(replies, obs, i) {
        AnswerOfPrefix(replies, n, obs);
      }
      forall w ensures w in ScanAll(windows, replies, conditionId).value.unknown <==> exists i: nat :: IsUndecided(windows, replies, w, i) {
        UndecidedOfPrefix(windows, replies, n, w);
      }
    }
  }

  /** Every kept answer is about its window and its condition, has evidence, and stays inside its window. */
  lemma {:induction false} AnswersAreValid(windows: seq<TimeRange>, replies: seq<Reply>, conditionId: string, i: nat)
    requires |windows| == |replies| && ScanAll(windows, replies, conditionId).Ok?
    requires i < |windows| && replies[i].Answered?
    ensures Validate(replies[i].obs, windows[i], conditionId).None?
  {
    if i < |windows| - 1 {
      AnswersAreValid(windows[..|windows| - 1], replies[..|windows| - 1], conditionId, i);
    }
  }

  /** The reply to window i, if there is to be one, is `obs`. */
  ghost predicate Answers(replies: seq<Reply>, maxCalls: nat, obs: Observation, i: nat) {
    i < |replies| && i < maxCalls && replies[i] == Answered(obs)
  }

  ghost predicate Undecided(windows: seq<TimeRange>, replies: seq<Reply>, maxCalls: nat, w: TimeRange, i: nat)
    requires |windows| == |replies|
  {
    i < |windows| && windows[i] == w && !Decided(replies, maxCalls, i)
  }

  lemma WithinHolds(windows: seq<TimeRange>, replies: seq<Reply>, conditionId: string, maxCalls: nat)
    requires |windows| == |replies| && ScanWithin(windows, replies, conditionId, maxCalls).Ok?
    ensures var s := ScanWithin(windows, replies, conditionId, maxCalls).value;
            && (forall obs :: obs in s.observations <==> exists i: nat :: Answers(replies, maxCalls, obs, i))
            && (forall w :: w in s.unknown <==> exists i: nat :: Undecided(windows, replies, maxCalls, w, i))
  {
    var k := Budgeted(windows, maxCalls);
    var s := ScanWithin(windows, replies, conditionId, maxCalls).value;
    ScanHolds(windows[..k], replies[..k], conditionId);
    forall obs ensures obs in s.observations <==> exists i: nat :: Answers(replies, maxCalls, obs, i) {
      AnswersWithin(replies, maxCalls, k, obs);
    }
    forall w ensures w in s.unknown <==> exists i: nat :: Undecided(windows, replies, maxCalls, w, i) {
      UndecidedWithin(windows, replies, maxCalls, k, w);
    }
  }

  lemma AnswersWithin(replies: seq<Reply>, maxCalls: nat, k: nat, obs: Observation)
    requires k == Min(|replies|, maxCalls)
    ensures (exists i: nat :: Answers(replies, maxCalls, obs, i)) <==> exists i: nat :: IsAnswer(replies[..k], obs, i)
  {
    if i: nat :| Answers(replies, maxCalls, obs, i) {
      assert IsAnswer(replies[..k], obs, i);
    }
    if i: nat :| IsAnswer(replies[..k], obs, i) {
      assert Answers(replies, maxCalls, obs, i);
    }
  }

  lemma UndecidedWithin(windows: seq<TimeRange>, replies: seq<Reply>, maxCalls: nat, k: nat, w: TimeRange)
    requires |windows| == |replies| && k == Budgeted(windows, maxCalls)
    ensures (exists i: nat :: Undecided(windows, replies, maxCalls, w, i)) <==>
            (exists i: nat :: IsUndecided(windows[..k], replies[..k], w, i)) || w in windows[k..]
  {
    if i: nat :| Undecided(windows, replies, maxCalls, w, i) {
      if i < k {
        assert IsUndecided(windows[..k], replies[..k], w, i);
      } else {
        assert windows[k..][i - k] == w;
      }
    }
    if i: nat :| IsUndecided(windows[..k], replies[..k], w, i) {
      assert Undecided(windows, replies, maxCalls, w, i);
    }
    if w in windows[k..] {
      var i :| 0 <= i < |windows[k..]| && windows[k..][i] == w;
      assert Undecided(windows, replies, maxCalls, w, i + k);
    }
  }

  // ---------------------------------------------------------------- main results

  /** Observed ranges are well-formed ranges. */
  ghost predicate WellFormed(replies: seq<Reply>) {
    forall i :: 0 <= i < |replies| && replies[i].Answered? ==> AllOrdered(replies[i].obs.observed)
  }

  /** The unknown ranges cover exactly the instants of windows without a decision: over budget, timed
      out or uncertain. */
  lemma UnknownIsExact(range: TimeRange, windowMs: nat, strideMs: nat, conditionId: string, replies: seq<Reply>, maxCalls: nat, t: int)
    requires windowMs > 0 && strideMs > 0
    requires |replies| == |WindowsFrom(range.startMs, range.endMs, windowMs, strideMs)|
    requires AnalysisOf(range, windowMs, strideMs, conditionId, replies, maxCalls).Ok?
    ensures var windows := WindowsFrom(range.startMs, range.endMs, windowMs, strideMs);
            Covered(AnalysisOf(range, windowMs, strideMs, conditionId, replies, maxCalls).value.unknown, t) <==>
            exists i :: 0 <= i < |windows| && windows[i].Contains(t) && !Decided(replies, maxCalls, i)
  {
    var windows := WindowsFrom(range.startMs, range.endMs, windowMs, strideMs);
    var unknown := ScanWithin(windows, replies, conditionId, maxCalls).value.unknown;
    WithinHolds(windows, replies, conditionId, maxCalls);
    WindowsFit(range.startMs, range.endMs, windowMs, strideMs);
    forall j | 0 <= j < |unknown| ensures unknown[j].Ordered() {
      assert unknown[j] in unknown;
      var i: nat :| Undecided(windows, replies, maxCalls, unknown[j], i);
      assert windows[i] in windows;
    }
    ExactUnion(unknown, t);
    if Covered(unknown, t) {
      var j :| 0 <= j < |unknown| && unknown[j].Contains(t);
      assert unknown[j] in unknown;
      var i: nat :| Undecided(windows, replies, maxCalls, unknown[j], i);
    }
    if i :| 0 <= i < |windows| && windows[i].Contains(t) && !Decided(replies, maxCalls, i) {
      assert Undecided(windows, replies, maxCalls, windows[i], i);
      assert windows[i] in unknown;
    }
  }

  lemma {:induction false} PresentMembers(observations: seq<Observation>, r: TimeRange)
    ensures r in PresentRanges(observations) <==>
            exists obs :: obs in observations && obs.decision == Present && r in obs.observed
  {
    if |observations| > 0 {
      var init, last := observations[..|observations| - 1], observations[|observations| - 1];
      PresentMembers(init, r);
      assert observations == init + [last];
    }
  }

  lemma {:induction false} RefsMembers(observations: seq<Observation>, item: TimeRange, ref: string)
    ensures ref in RefsFor(observations, item) <==>
            exists obs :: obs in observations && obs.decision == Present && Meets(obs.observed, item) && ref in obs.refs
  {
    if |observations| > 0 {
      var init, last := observations[..|observations| - 1], observations[|observations| - 1];
      RefsMembers(init, item, ref);
      assert observations == init + [last];
    }
  }

  lemma {:induction false} EpisodeAt(observations: seq<Observation>, merged: seq<TimeRange>, conditionId: string)
    ensures |EpisodesOf(observations, merged, conditionId)| == |merged|
    ensures forall n :: 0 <= n < |merged| ==>
              EpisodesOf(observations, merged, conditionId)[n] == Episode(conditionId, merged[n], RefsFor(observations, merged[n]))
  {
    if |merged| > 0 {
      EpisodeAt(observations, merged[..|merged| - 1], conditionId);
    }
  }

  /** The reply to window i is present and has an observed range containing t. */
  ghost predicate SeenAt(replies: seq<Reply>, maxCalls: nat, t: int, i: nat) {
    i < |replies| && i < maxCalls && replies[i].Answered? && replies[i].obs.decision == Present
    && Covered(replies[i].obs.observed, t)
  }

  function Ranges(episodes: seq<Episode>): (r: seq<TimeRange>)
    ensures |r| == |episodes| && forall n :: 0 <= n < |episodes| ==> r[n] == episodes[n].range
  {
    seq(|episodes|, n requires 0 <= n < |episodes| => episodes[n].range)
  }

  lemma PresentOrdered(windows: seq<TimeRange>, replies: seq<Reply>, conditionId: string, maxCalls: nat)
    requires |windows| == |replies| && ScanWithin(windows, replies, conditionId, maxCalls).Ok? && WellFormed(replies)
    ensures AllOrdered(PresentRanges(ScanWithin(windows, replies, conditionId, maxCalls).value.observations))
  {
    var observations := ScanWithin(windows, replies, conditionId, maxCalls).value.observations;
    var ranges := PresentRanges(observations);
    WithinHolds(windows, replies, conditionId, maxCalls);
    forall j | 0 <= j < |ranges| ensures ranges[j].Ordered() {
      assert ranges[j] in ranges;
      PresentMembers(observations, ranges[j]);
      var obs :| obs in observations && obs.decision == Present && ranges[j] in obs.observed;
      var i: nat :| Answers(replies, maxCalls, obs, i);
    }
  }

  lemma PresentCovers(windows: seq<TimeRange>, replies: seq<Reply>, conditionId: string, maxCalls: nat, t: int)
    requires |windows| == |replies| && ScanWithin(windows, replies, conditionId, maxCalls).Ok?
    ensures Covered(PresentRanges(ScanWithin(windows, replies, conditionId, maxCalls).value.observations), t) <==>
            exists i: nat :: SeenAt(replies, maxCalls, t, i)
  {
    var observations := ScanWithin(windows, replies, conditionId, maxCalls).value.observations;
    var ranges := PresentRanges(observations);
    WithinHolds(windows, replies, conditionId, maxCalls);
    if Covered(ranges, t) {
      var j :| 0 <= j < |ranges| && ranges[j].Contains(t);
      assert ranges[j] in ranges;
      PresentMembers(observations, ranges[j]);
      var obs :| obs in observations && obs.decision == Present && ranges[j] in obs.observed;
      var i: nat :| Answers(replies, maxCalls, obs, i);
      assert SeenAt(replies, maxCalls, t, i);
    }
    if i: nat :| SeenAt(replies, maxCalls, t, i) {
      var obs := replies[i].obs;
      assert Answers(replies, maxCalls, obs, i);
      var j :| 0 <= j < |obs.observed| && obs.observed[j].Contains(t);
      PresentMembers(observations, obs.observed[j]);
      assert obs.observed[j] in ranges;
    }
  }

  /** The episodes cover exactly the instants some present answer reports. */
  lemma EpisodesAreExact(range: TimeRange, windowMs: nat, strideMs: nat, conditionId: string, replies: seq<Reply>, maxCalls: nat, t: int)
    requires windowMs > 0 && strideMs > 0 && WellFormed(replies)
    requires |replies| == |WindowsFrom(range.startMs, range.endMs, windowMs, strideMs)|
    requires AnalysisOf(range, windowMs, strideMs, conditionId, replies, maxCalls).Ok?
    ensures Covered(Ranges(AnalysisOf(range, windowMs, strideMs, conditionId, replies, maxCalls).value.episodes), t) <==>
            exists i: nat :: SeenAt(replies, maxCalls, t, i)
  {
    var windows := WindowsFrom(range.startMs, range.endMs, windowMs, strideMs);
    var observations := ScanWithin(windows, replies, conditionId, maxCalls).value.observations;
    var merged := Merged(PresentRanges(observations), 0);
    PresentOrdered(windows, replies, conditionId, maxCalls);
    PresentCovers(windows, replies, conditionId, maxCalls, t);
    ExactUnion(PresentRanges(observations), t);
    EpisodeAt(observations, merged, conditionId);
    assert Ranges(EpisodesOf(observations, merged, conditionId)) == merged;
  }

  /** The reply to window i is present, meets the episode and has this evidence. */
  ghost predicate Backs(replies: seq<Reply>, maxCalls: nat, episode: Episode, ref: string, i: nat) {
    i < |replies| && i < maxCalls && replies[i].Answered? && replies[i].obs.decision == Present
    && Meets(replies[i].obs.observed, episode.range) && ref in replies[i].obs.refs
  }

  /** An episode carries exactly the evidence of the present answers that meet it, and never none. */
  lemma EpisodeEvidence(range: TimeRange, windowMs: nat, strideMs: nat, conditionId: string, replies: seq<Reply>, maxCalls: nat,
                        n: nat, ref: string)
    requires windowMs > 0 && strideMs > 0 && WellFormed(replies)
    requires |replies| == |WindowsFrom(range.startMs, range.endMs, windowMs, strideMs)|
    requires var r := AnalysisOf(range, windowMs, strideMs, conditionId, replies, maxCalls); r.Ok? && n < |r.value.episodes|
    ensures var episode := AnalysisOf(range, windowMs, strideMs, conditionId, replies, maxCalls).value.episodes[n];
            && episode.conditionId == conditionId
            && (ref in episode.refs <==> exists i: nat :: Backs(replies, maxCalls, episode, ref, i))
            && episode.refs != {}
  {
    var windows := WindowsFrom(range.startMs, range.endMs, windowMs, strideMs);
    var observations := ScanWithin(windows, replies, conditionId, maxCalls).value.observations;
    var ranges := PresentRanges(observations);
    var merged := Merged(ranges, 0);
    WithinHolds(windows, replies, conditionId, maxCalls);
    EpisodeAt(observations, merged, conditionId);
    var episode := EpisodesOf(observations, merged, conditionId)[n];
    EvidenceMembers(replies, maxCalls, observations, episode, ref);
    PresentOrdered(windows, replies, conditionId, maxCalls);
    MergedIsMerge(ranges, 0);
    assert StartOf(ranges, merged[n].startMs);
    SomeEvidence(windows, replies, conditionId, maxCalls, observations, merged[n]);
  }

  lemma EvidenceMembers(replies: seq<Reply>, maxCalls: nat, observations: seq<Observation>, episode: Episode, ref: string)
    requires forall obs :: obs in observations <==> exists i: nat :: Answers(replies, maxCalls, obs, i)
    requires episode.refs == RefsFor(observations, episode.range)
    ensures ref in episode.refs <==> exists i: nat :: Backs(replies, maxCalls, episode, ref, i)
  {
    RefsMembers(observations, episode.range, ref);
    if ref in episode.refs {
      var obs :| obs in observations && obs.decision == Present && Meets(obs.observed, episode.range) && ref in obs.refs;
      var i: nat :| Answers(replies, maxCalls, obs, i);
      assert Backs(replies, maxCalls, episode, ref, i);
    }
    if i: nat :| Backs(replies, maxCalls, episode, ref, i) {
      assert Answers(replies, maxCalls, replies[i].obs, i);
    }
  }

  lemma SomeEvidence(windows: seq<TimeRange>, replies: seq<Reply>, conditionId: string, maxCalls: nat,
                     observations: seq<Observation>, item: TimeRange)
    requires |windows| == |replies| && ScanWithin(windows, replies, conditionId, maxCalls).Ok? && WellFormed(replies)
    requires observations == ScanWithin(windows, replies, conditionId, maxCalls).value.observations
    requires item.Ordered() && StartOf(PresentRanges(observations), item.startMs)
    ensures RefsFor(observations, item) != {}
  {
    var ranges := PresentRanges(observations);
    WithinHolds(windows, replies, conditionId, maxCalls);
    var j :| 0 <= j < |ranges| && ranges[j].startMs == item.startMs;
    assert ranges[j] in ranges;
    PresentMembers(observations, ranges[j]);
    var obs :| obs in observations && obs.decision == Present && ranges[j] in obs.observed;
    var i: nat :| Answers(replies, maxCalls, obs, i);
    var k := Budgeted(windows, maxCalls);
    AnswersAreValid(windows[..k], replies[..k], conditionId, i);
    var q :| 0 <= q < |obs.observed| && obs.observed[q] == ranges[j];
    assert Meets(obs.observed, item);
    var ref :| ref in obs.refs;
    RefsMembers(observations, item, ref);
  }

  /** Window i was answered absent. */
  predicate AbsentAt(replies: seq<Reply>, maxCalls: nat, i: nat)
    requires i < |replies|
  {
    Decided(replies, maxCalls, i) && replies[i].obs.decision == Absent
  }

  ghost predicate AllDecided(replies: seq<Reply>, maxCalls: nat) {
    forall i :: 0 <= i < |replies| ==> Decided(replies, maxCalls, i)
  }

  /** What each disposition says: partial exactly when some window is undecided; absent exactly when
      every window was answered absent; present exactly when all are decided and a range was reported. */
  lemma DispositionMeans(range: TimeRange, windowMs: nat, strideMs: nat, conditionId: string, replies: seq<Reply>, maxCalls: nat)
    requires windowMs > 0 && strideMs > 0 && WellFormed(replies) && range.Ordered()
    requires |replies| == |WindowsFrom(range.startMs, range.endMs, windowMs, strideMs)|
    requires AnalysisOf(range, windowMs, strideMs, conditionId, replies, maxCalls).Ok?
    ensures var a := AnalysisOf(range, windowMs, strideMs, conditionId, replies, maxCalls).value;
            && (a.disposition == PartialFound <==> !AllDecided(replies, maxCalls))
            && (a.disposition == AbsentFound <==> forall i :: 0 <= i < |replies| ==> AbsentAt(replies, maxCalls, i))
            && (a.disposition == PresentFound <==>
                  AllDecided(replies, maxCalls) && exists t, i: nat :: SeenAt(replies, maxCalls, t, i))
  {
    var windows := WindowsFrom(range.startMs, range.endMs, windowMs, strideMs);
    var s := ScanWithin(windows, replies, conditionId, maxCalls).value;
    var a := AnalysisOf(range, windowMs, strideMs, conditionId, replies, maxCalls).value;
    assert |windows| > 0;
    WithinHolds(windows, replies, conditionId, maxCalls);
    PartialMeans(windows, replies, maxCalls, s);
    EpisodeAt(s.observations, Merged(PresentRanges(s.observations), 0), conditionId);
    PresentOrdered(windows, replies, conditionId, maxCalls);
    SomethingSeen(windows, replies, conditionId, maxCalls, s.observations);
    if AllDecided(replies, maxCalls) {
      AbsentMeans(replies, maxCalls, s.observations);
      if t, i: nat :| SeenAt(replies, maxCalls, t, i) {
        assert !AbsentAt(replies, maxCalls, i);
      }
    } else {
      var i: nat :| i < |replies| && !Decided(replies, maxCalls, i);
      assert !AbsentAt(replies, maxCalls, i);
    }
  }

  lemma PartialMeans(windows: seq<TimeRange>, replies: seq<Reply>, maxCalls: nat, s: Scan)
    requires |windows| == |replies|
    requires forall w :: w in s.unknown <==> exists i: nat :: Undecided(windows, replies, maxCalls, w, i)
    ensures s.unknown != [] <==> !AllDecided(replies, maxCalls)
  {
    if s.unknown != [] {
      assert s.unknown[0] in s.unknown;
      var i: nat :| Undecided(windows, replies, maxCalls, s.unknown[0], i);
    }
    if !AllDecided(replies, maxCalls) {
      var i: nat :| i < |replies| && !Decided(replies, maxCalls, i);
      assert Undecided(windows, replies, maxCalls, windows[i], i);
      assert windows[i] in s.unknown;
    }
  }

  lemma SomethingSeen(windows: seq<TimeRange>, replies: seq<Reply>, conditionId: string, maxCalls: nat, observations: seq<Observation>)
    requires |windows| == |replies| && ScanWithin(windows, replies, conditionId, maxCalls).Ok? && WellFormed(replies)
    requires observations == ScanWithin(windows, replies, conditionId, maxCalls).value.observations
    ensures Merged(PresentRanges(observations), 0) != [] <==> exists t, i: nat :: SeenAt(replies, maxCalls, t, i)
  {
    var ranges := PresentRanges(observations);
    var merged := Merged(ranges, 0);
    PresentOrdered(windows, replies, conditionId, maxCalls);
    MergedIsMerge(ranges, 0);
    if merged != [] {
      var t := merged[0].startMs;
      assert merged[0].Contains(t);
      ExactUnion(ranges, t);
      PresentCovers(windows, replies, conditionId, maxCalls, t);
    }
    if t, i: nat :| SeenAt(replies, maxCalls, t, i) {
      PresentCovers(windows, replies, conditionId, maxCalls, t);
      ExactUnion(ranges, t);
    }
  }

  lemma AbsentMeans(replies: seq<Reply>, maxCalls: nat, observations: seq<Observation>)
    requires |replies| > 0 && AllDecided(replies, maxCalls)
    requires forall obs :: obs in observations <==> exists i: nat :: Answers(replies, maxCalls, obs, i)
    ensures observations != []
    ensures AllAbsent(observations) <==> forall i :: 0 <= i < |replies| ==> AbsentAt(replies, maxCalls, i)
  {
    assert Decided(replies, maxCalls, 0);
    assert Answers(replies, maxCalls, replies[0].obs, 0);
    assert replies[0].obs in observations;
    if AllAbsent(observations) {
      forall i: nat | i < |replies| ensures AbsentAt(replies, maxCalls, i) {
        assert Decided(replies, maxCalls, i);
        assert Answers(replies, maxCalls, replies[i].obs, i);
        assert replies[i].obs in observations;
      }
    }
    if forall i :: 0 <= i < |replies| ==> AbsentAt(replies, maxCalls, i) {
      forall j | 0 <= j < |observations| ensures observations[j].decision == Absent {
        assert observations[j] in observations;
        var i: nat :| Answers(replies, maxCalls, observations[j], i);
        assert AbsentAt(replies, maxCalls, i);
      }
    }
  }

  /** An absent analysis speaks for every instant of the source exactly when the windows leave nothing
      out: the stride is no longer than the window, or one window is enough. */
  lemma AbsenceIsComplete(range: TimeRange, windowMs: nat, strideMs: nat, conditionId: string, replies: seq<Reply>, maxCalls: nat)
    requires windowMs > 0 && strideMs > 0 && WellFormed(replies) && range.Ordered()
    requires |replies| == |WindowsFrom(range.startMs, range.endMs, windowMs, strideMs)|
    requires var r := AnalysisOf(range, windowMs, strideMs, conditionId, replies, maxCalls); r.Ok? && r.value.disposition == AbsentFound
    ensures var windows := WindowsFrom(range.startMs, range.endMs, windowMs, strideMs);
            (forall t :: range.Contains(t) ==>
               exists i :: 0 <= i < |windows| && windows[i].Contains(t) && AbsentAt(replies, maxCalls, i)) <==>
            strideMs <= windowMs || range.endMs - range.startMs <= windowMs
  {
    var windows := WindowsFrom(range.startMs, range.endMs, windowMs, strideMs);
    DispositionMeans(range, windowMs, strideMs, conditionId, replies, maxCalls);
    CoverageIsExact(range.startMs, range.endMs, windowMs, strideMs);
    forall t | range.Contains(t)
      ensures Covered(windows, t) <==>
              exists i :: 0 <= i < |windows| && windows[i].Contains(t) && AbsentAt(replies, maxCalls, i)
    {
    }
  }
}
