/** One tracked run: frames in, signals confirmed, rules advanced, candidates flushed and gated. */
module RunEngine {
  import opened Contracts
  import opened LineReducer
  import opened RuleReducer
  import Signals = SignalIntervals
  import opened TrackedRules

  /** What tracker and signal observer report for one decoded frame; one signal per region. */
  datatype Frame = Frame(timeMs: nat, observations: seq<Observation>, signals: seq<Signals.SignalObservation>)

  datatype RunError =
    | NotConfigured(config: ConfigError)
    | LimitReached
    | SignalRefused
    | RuleRefused(failure: Failure)
    | EmptyReport

  datatype Outcome = Completed | Cancelled | Failed(error: RunError)

  datatype Phase = Running | Ended(cancelled: bool)

  /** A progress update: the range it speaks of, the frames processed so far and its number. */
  datatype Report = Report(phase: Phase, range: TimeRange, processed: nat, sequence: nat)

  predicate Regular(frames: seq<Frame>, regions: nat) {
    forall n :: 0 <= n < |frames| ==> |frames[n].signals| == regions
  }

  /** The signal samples of every region, frame by frame. */
  function SignalTraces(frames: seq<Frame>, regions: nat): (traces: seq<seq<Signals.SignalObservation>>)
    requires Regular(frames, regions)
    ensures |traces| == regions
    ensures forall g :: 0 <= g < regions ==> |traces[g]| == |frames|
    ensures forall g, n :: 0 <= g < regions && 0 <= n < |frames| ==> traces[g][n] == frames[n].signals[g]
  {
    seq(regions, g requires 0 <= g < regions =>
      seq(|frames|, n requires 0 <= n < |frames| => frames[n].signals[g]))
  }

  function Batches(frames: seq<Frame>): (b: seq<seq<Observation>>)
    ensures |b| == |frames| && forall n :: 0 <= n < |frames| ==> b[n] == frames[n].observations
  {
    seq(|frames|, n requires 0 <= n < |frames| => frames[n].observations)
  }

  function LastTime(frames: seq<Frame>): nat {
    if |frames| == 0 then 0 else frames[|frames| - 1].timeMs
  }

  /** The source end: its duration, or a short while after the last frame when it is unknown. */
  function EndTime(frames: seq<Frame>, durationMs: nat): nat {
    if durationMs != 0 then durationMs else LastTime(frames) + 100
  }

  // ---------------------------------------------------------------- progress updates

  /** Whether an update follows frame n. */
  predicate ReportDue(n: nat, durationMs: nat) {
    (n + 1) % 10 == 0 || durationMs == 0
  }

  /** The frame and what is shown of it: at most 100 ms, and nothing beyond the end of the source. */
  function FrameRange(timeMs: nat, durationMs: nat): TimeRange {
    TimeRange(timeMs, Min(timeMs + Max(1, Min(100, durationMs - timeMs)), durationMs))
  }

  /** The updates that follow the first n frames. */
  function Reports(frames: seq<Frame>, durationMs: nat, n: nat): seq<Report>
    requires n <= |frames|
  {
    if n == 0 then []
    else
      var before := Reports(frames, durationMs, n - 1);
      if ReportDue(n - 1, durationMs)
      then before + [Report(Running, FrameRange(frames[n - 1].timeMs, durationMs), n, |before|)] else before
  }

  /** Every update due after one of the first n frames has a range of positive length. */
  ghost predicate ReportsFit(frames: seq<Frame>, durationMs: nat, n: nat)
    requires n <= |frames|
  {
    forall i :: 0 <= i < n && ReportDue(i, durationMs) ==> FrameRange(frames[i].timeMs, durationMs).Ordered()
  }

  /** The last update of a run that ends by itself or by cancellation covers the source up to there. */
  function LastReport(fed: seq<Frame>, durationMs: nat, cancelled: bool, sequence: nat): Report {
    var reached := if cancelled then LastTime(fed) else durationMs;
    Report(Ended(cancelled), TimeRange(0, if reached == 0 then EndTime(fed, durationMs) else reached), |fed|, sequence)
  }

  /** Numbered from 0 without a gap, with growing frame counts up to n, and never showing nothing. */
  ghost predicate Numbered(reports: seq<Report>, n: nat) {
    && (forall i :: 0 <= i < |reports| ==>
          reports[i].sequence == i && reports[i].range.Ordered() && 0 < reports[i].processed <= n)
    && (forall i, j :: 0 <= i < j < |reports| ==> reports[i].processed < reports[j].processed)
  }

  lemma OneMoreReport(reports: seq<Report>, n: nat, last: Report)
    requires Numbered(reports, n) && last.sequence == |reports| && last.range.Ordered() && last.processed == n + 1
    ensures Numbered(reports + [last], n + 1)
  {
  }

  /** The updates of a run are numbered, whatever the frames. */
  lemma {:induction false} ReportsAreNumbered(frames: seq<Frame>, durationMs: nat, n: nat)
    requires n <= |frames| && ReportsFit(frames, durationMs, n)
    ensures Numbered(Reports(frames, durationMs, n), n)
  {
    hide FrameRange;
    if n > 0 {
      ReportsAreNumbered(frames, durationMs, n - 1);
      if ReportDue(n - 1, durationMs) {
        var before := Reports(frames, durationMs, n - 1);
        OneMoreReport(before, n - 1, Report(Running, FrameRange(frames[n - 1].timeMs, durationMs), n, |before|));
      }
    }
  }

  /** An update fails exactly when its frame comes at or after the end of the source. So a source of
      unknown duration fails at its first frame. */
  lemma ReportsFitExactly(frames: seq<Frame>, durationMs: nat, n: nat)
    requires n <= |frames|
    ensures ReportsFit(frames, durationMs, n) <==>
            forall i :: 0 <= i < n && ReportDue(i, durationMs) ==> frames[i].timeMs < durationMs
    ensures durationMs == 0 ==> (ReportsFit(frames, durationMs, n) <==> n == 0)
  {
    assert n > 0 && durationMs == 0 ==> ReportDue(0, durationMs);
  }

  function OnlyRed(intervals: seq<Signals.SignalInterval>): (r: seq<Signals.SignalInterval>)
    ensures forall x :: x in r <==> x in intervals && x.state == Signals.Red
  {
    if |intervals| == 0 then []
    else
      var last := intervals[|intervals| - 1];
      assert intervals == intervals[..|intervals| - 1] + [last];
      OnlyRed(intervals[..|intervals| - 1]) + (if last.state == Signals.Red then [last] else [])
  }

  ghost predicate SignalsAccepted(traces: seq<seq<Signals.SignalObservation>>) {
    forall g :: 0 <= g < |traces| ==> Signals.Run(0, traces[g]).Ok?
  }

  /** Confirmed red of the first `count` regions, pooled. */
  function FinalReds(traces: seq<seq<Signals.SignalObservation>>, endMs: nat, count: nat): seq<Signals.SignalInterval>
    requires count <= |traces|
    requires forall g :: 0 <= g < |traces| ==> Signals.Run(0, traces[g]).Ok?
  {
    if count == 0 then []
    else FinalReds(traces, endMs, count - 1) + OnlyRed(Signals.Intervals(0, traces[count - 1], endMs))
  }

  ghost predicate RulesAccepted(batches: seq<seq<Observation>>, rules: seq<Rule>) {
    forall q :: 0 <= q < |rules| ==> Fed(rules[q], batches).Ok?
  }

  /** What one rule emits at the end of the source, from the batches it was fed. */
  function EmissionOf(rule: Rule, batches: seq<seq<Observation>>, reds: seq<Signals.SignalInterval>, endMs: nat): Result<seq<Candidate>, Failure>
    requires Fed(rule, batches).Ok?
  {
    Emission(rule, Fed(rule, batches).value, reds, endMs)
  }

  /** None of the first `count` rules refuses at the end of the source. */
  ghost predicate AllEmit(rules: seq<Rule>, batches: seq<seq<Observation>>, reds: seq<Signals.SignalInterval>, endMs: nat, count: nat)
    requires count <= |rules| && RulesAccepted(batches, rules)
  {
    forall q :: 0 <= q < count ==> EmissionOf(rules[q], batches, reds, endMs).Ok?
  }

  /** What the first `count` rules emit, rule by rule. */
  ghost function Emitted(rules: seq<Rule>, batches: seq<seq<Observation>>, reds: seq<Signals.SignalInterval>, endMs: nat, count: nat): seq<Candidate>
    requires count <= |rules| && RulesAccepted(batches, rules) && AllEmit(rules, batches, reds, endMs, count)
  {
    if count == 0 then []
    else Emitted(rules, batches, reds, endMs, count - 1) + EmissionOf(rules[count - 1], batches, reds, endMs).value
  }

  /** c is emitted by one of the first `count` rules. */
  ghost predicate EmittedBySome(rules: seq<Rule>, batches: seq<seq<Observation>>, reds: seq<Signals.SignalInterval>,
                                endMs: nat, count: nat, c: Candidate)
    requires count <= |rules| && RulesAccepted(batches, rules) && AllEmit(rules, batches, reds, endMs, count)
  {
    exists q :: 0 <= q < count && c in EmissionOf(rules[q], batches, reds, endMs).value
  }

  lemma EmittedByNext(rules: seq<Rule>, batches: seq<seq<Observation>>, reds: seq<Signals.SignalInterval>,
                      endMs: nat, count: nat, c: Candidate)
    requires 0 < count <= |rules| && RulesAccepted(batches, rules) && AllEmit(rules, batches, reds, endMs, count)
    ensures EmittedBySome(rules, batches, reds, endMs, count, c) <==>
            EmittedBySome(rules, batches, reds, endMs, count - 1, c)
            || c in EmissionOf(rules[count - 1], batches, reds, endMs).value
  {
    hide EmissionOf, Fed;
  }

  /** An emitted candidate comes from some rule. */
  lemma {:induction false} EmittedMembers(rules: seq<Rule>, batches: seq<seq<Observation>>, reds: seq<Signals.SignalInterval>,
                                          endMs: nat, count: nat, c: Candidate)
    requires count <= |rules| && RulesAccepted(batches, rules) && AllEmit(rules, batches, reds, endMs, count)
    ensures c in Emitted(rules, batches, reds, endMs, count) <==> EmittedBySome(rules, batches, reds, endMs, count, c)
  {
    hide EmissionOf, Fed;
    if count > 0 {
      EmittedMembers(rules, batches, reds, endMs, count - 1, c);
      EmittedByNext(rules, batches, reds, endMs, count, c);
      hide EmittedBySome;
    }
  }

  // ---------------------------------------------------------------- where the frame loop stops

  /** The first of the frames n up to `count` at which the run is found cancelled, or `count`. */
  function FirstCancelled(cancelled: nat -> bool, n: nat, count: nat): (m: nat)
    requires n <= count
    ensures n <= m <= count && (m < count ==> cancelled(m))
    ensures forall i :: n <= i < m ==> !cancelled(i)
    decreases count - n
  {
    if n == count || cancelled(n) then n else FirstCancelled(cancelled, n + 1, count)
  }

  /** The frames are within the limit and none comes after the deadline. */
  ghost predicate WithinLimits(late: nat -> bool, maxFrames: nat, count: nat) {
    count <= maxFrames && forall n :: 0 <= n < count ==> !late(n)
  }

  // ---------------------------------------------------------------- refusals are final

  lemma {:induction false} SignalRefusalIsFinal(trace: seq<Signals.SignalObservation>, n: nat)
    requires n <= |trace| && Signals.Run(0, trace[..n]).Err?
    ensures Signals.Run(0, trace).Err?
    decreases |trace|
  {
    if n < |trace| {
      assert trace[..|trace| - 1][..n] == trace[..n];
      SignalRefusalIsFinal(trace[..|trace| - 1], n);
    } else {
      assert trace[..n] == trace;
    }
  }

  lemma {:induction false} RuleRefusalIsFinal(rule: Rule, batches: seq<seq<Observation>>, n: nat)
    requires n <= |batches| && Fed(rule, batches[..n]).Err?
    ensures Fed(rule, batches).Err?
    decreases |batches|
  {
    hide Advance;
    if n < |batches| {
      assert batches[..|batches| - 1][..n] == batches[..n];
      RuleRefusalIsFinal(rule, batches[..|batches| - 1], n);
    } else {
      assert batches[..n] == batches;
    }
  }

  lemma NextSignal(trace: seq<Signals.SignalObservation>, n: nat)
    requires n < |trace|
    ensures var before := Signals.Run(0, trace[..n]);
            Signals.Run(0, trace[..n + 1]) ==
            if before.Err? then before else Signals.Step(before.value, 0, trace[n])
  {
    assert trace[..n + 1][..n] == trace[..n];
  }

  lemma NextBatch(rule: Rule, batches: seq<seq<Observation>>, n: nat)
    requires n < |batches|
    ensures var before := Fed(rule, batches[..n]);
            Fed(rule, batches[..n + 1]) == if before.Err? then before else Advance(rule, before.value, batches[n])
  {
    hide Advance;
    assert batches[..n + 1][..n] == batches[..n];
  }

  // ---------------------------------------------------------------- the run

  ghost predicate Distinct(confirmers: seq<Signals.ConfirmedSignalIntervals>) {
    forall g, h :: 0 <= g < h < |confirmers| ==> confirmers[g] != confirmers[h]
  }

  ghost predicate HasSeen(c: Signals.ConfirmedSignalIntervals, trace: seq<Signals.SignalObservation>)
    reads c
  {
    c.stabilityMs == 0 && Signals.Run(0, trace) == Ok(c.State())
  }

  /** Every confirmer has seen the first n samples of its region. */
  ghost predicate AllHaveSeen(confirmers: seq<Signals.ConfirmedSignalIntervals>,
                              traces: seq<seq<Signals.SignalObservation>>, n: nat)
    reads confirmers
  {
    |confirmers| == |traces|
    && forall g :: 0 <= g < |confirmers| ==> n <= |traces[g]| && HasSeen(confirmers[g], traces[g][..n])
  }

  /** Feeds the n-th sample of every region to its confirmer. */
  method ObserveSignals(confirmers: seq<Signals.ConfirmedSignalIntervals>, signals: seq<Signals.SignalObservation>,
                        ghost traces: seq<seq<Signals.SignalObservation>>, ghost n: nat)
    returns (ok: bool)
    requires Distinct(confirmers) && AllHaveSeen(confirmers, traces, n) && |signals| == |confirmers|
    requires forall g :: 0 <= g < |traces| ==> n < |traces[g]| && traces[g][n] == signals[g]
    modifies confirmers
    ensures ok ==> AllHaveSeen(confirmers, traces, n + 1)
    ensures !ok ==> !SignalsAccepted(traces)
  {
    hide Signals.Run, Signals.Step;
    for g := 0 to |confirmers|
      invariant forall h :: 0 <= h < g ==> HasSeen(confirmers[h], traces[h][..n + 1])
      invariant forall h :: g <= h < |confirmers| ==> HasSeen(confirmers[h], traces[h][..n])
    {
      NextSignal(traces[g], n);
      var r := confirmers[g].Update(signals[g]);
      if r.Err? {
        SignalRefusalIsFinal(traces[g], n + 1);
        return false;
      }
    }
    ok := true;
  }

  /** Every rule has been advanced by the first n batches. */
  ghost predicate AllAdvanced(rules: seq<Rule>, states: seq<State>, batches: seq<seq<Observation>>, n: nat) {
    |states| == |rules| && n <= |batches|
    && forall q :: 0 <= q < |rules| ==> Fed(rules[q], batches[..n]) == Ok(states[q])
  }

  method MakeStates(rules: seq<Rule>, ghost batches: seq<seq<Observation>>) returns (states: seq<State>)
    ensures AllAdvanced(rules, states, batches, 0)
  {
    states := [];
    for q := 0 to |rules|
      invariant |states| == q && forall p :: 0 <= p < q ==> Fed(rules[p], []) == Ok(states[p])
    {
      states := states + [NewState(rules[q])];
    }
    assert batches[..0] == [];
  }

  /** Advances every rule by one batch. */
  method AdvanceRules(rules: seq<Rule>, states: seq<State>, batch: seq<Observation>,
                      ghost batches: seq<seq<Observation>>, ghost n: nat)
    returns (r: Result<seq<State>, Failure>)
    requires n < |batches| && batches[n] == batch && AllAdvanced(rules, states, batches, n)
    ensures r.Ok? ==> AllAdvanced(rules, r.value, batches, n + 1)
    ensures r.Err? ==> !RulesAccepted(batches, rules)
  {
    hide Advance, Fed;
    var current := states;
    for q := 0 to |rules|
      invariant |current| == |rules|
      invariant forall p :: 0 <= p < q ==> Fed(rules[p], batches[..n + 1]) == Ok(current[p])
      invariant forall p :: q <= p < |rules| ==> current[p] == states[p]
    {
      NextBatch(rules[q], batches, n);
      var after := AdvanceRule(rules[q], current[q], batch);
      if after.Err? {
        RuleRefusalIsFinal(rules[q], batches, n + 1);
        return Err(after.error);
      }
      current := current[q := after.value];
    }
    r := Ok(current);
  }

  method MakeConfirmers(regions: nat, ghost traces: seq<seq<Signals.SignalObservation>>)
    returns (confirmers: seq<Signals.ConfirmedSignalIntervals>)
    requires |traces| == regions
    ensures fresh(confirmers) && Distinct(confirmers) && AllHaveSeen(confirmers, traces, 0)
  {
    confirmers := [];
    for g := 0 to regions
      invariant |confirmers| == g && fresh(confirmers) && Distinct(confirmers)
      invariant forall h :: 0 <= h < g ==> HasSeen(confirmers[h], [])
    {
      var c := new Signals.ConfirmedSignalIntervals(0);
      confirmers := confirmers + [c];
    }
    assert forall g :: 0 <= g < regions ==> traces[g][..0] == [];
  }

  method CollectReds(confirmers: seq<Signals.ConfirmedSignalIntervals>,
                     ghost traces: seq<seq<Signals.SignalObservation>>, endMs: nat)
    returns (reds: seq<Signals.SignalInterval>)
    requires Distinct(confirmers) && |confirmers| == |traces|
    requires forall g :: 0 <= g < |confirmers| ==> HasSeen(confirmers[g], traces[g])
    modifies confirmers
    ensures SignalsAccepted(traces) && reds == FinalReds(traces, endMs, |traces|)
  {
    assert SignalsAccepted(traces) by {
      assert forall g :: 0 <= g < |confirmers| ==> HasSeen(confirmers[g], traces[g]);
    }
    reds := [];
    for g := 0 to |confirmers|
      invariant reds == FinalReds(traces, endMs, g)
      invariant forall h :: g <= h < |confirmers| ==> HasSeen(confirmers[h], traces[h])
    {
      var intervals := confirmers[g].Flush(endMs);
      reds := reds + OnlyRed(intervals);
    }
  }

  /** Emits rule by rule until one refuses; what was emitted before stays emitted. */
  method EmitCandidates(rules: seq<Rule>, states: seq<State>, ghost batches: seq<seq<Observation>>,
                        reds: seq<Signals.SignalInterval>, endMs: nat)
    returns (refused: Option<Failure>, emitted: seq<Candidate>, ghost count: nat)
    requires RulesAccepted(batches, rules) && |states| == |rules|
    requires forall q :: 0 <= q < |rules| ==> Fed(rules[q], batches) == Ok(states[q])
    ensures count <= |rules| && AllEmit(rules, batches, reds, endMs, count)
    ensures emitted == Emitted(rules, batches, reds, endMs, count)
    ensures refused.None? <==> count == |rules|
    ensures refused.Some? ==> EmissionOf(rules[count], batches, reds, endMs) == Err(refused.value)
  {
    hide Fed, Emission;
    emitted, count := [], 0;
    for q := 0 to |rules|
      invariant count == q && AllEmit(rules, batches, reds, endMs, q)
      invariant emitted == Emitted(rules, batches, reds, endMs, q)
    {
      var more := EmitRule(rules[q], states[q], reds, endMs);
      assert more == EmissionOf(rules[q], batches, reds, endMs);
      if more.Err? {
        return Some(more.error), emitted, count;
      }
      emitted, count := emitted + more.value, count + 1;
    }
    refused := None;
  }

  /** The input of the first m frames is accepted: limits, signals and rules. */
  ghost predicate Accepted(traces: seq<seq<Signals.SignalObservation>>, batches: seq<seq<Observation>>, rules: seq<Rule>,
                           late: nat -> bool, maxFrames: nat)
  {
    WithinLimits(late, maxFrames, |batches|) && SignalsAccepted(traces) && RulesAccepted(batches, rules)
  }

  /** One frame: its signals, then its observations, then the progress update if one is due. */
  method ProcessFrame(frame: Frame, confirmers: seq<Signals.ConfirmedSignalIntervals>, rules: seq<Rule>, states: seq<State>,
                      durationMs: nat, n: nat, sequence: nat,
                      ghost traces: seq<seq<Signals.SignalObservation>>, ghost batches: seq<seq<Observation>>)
    returns (r: Result<seq<State>, RunError>, report: Option<Report>)
    requires Distinct(confirmers) && AllHaveSeen(confirmers, traces, n) && |frame.signals| == |confirmers|
    requires forall g :: 0 <= g < |traces| ==> n < |traces[g]| && traces[g][n] == frame.signals[g]
    requires n < |batches| && batches[n] == frame.observations && AllAdvanced(rules, states, batches, n)
    modifies confirmers
    ensures r.Ok? ==> AllHaveSeen(confirmers, traces, n + 1) && AllAdvanced(rules, r.value, batches, n + 1)
    ensures r.Ok? ==> (ReportDue(n, durationMs) ==> FrameRange(frame.timeMs, durationMs).Ordered())
    ensures r.Ok? ==> report == if ReportDue(n, durationMs)
                                then Some(Report(Running, FrameRange(frame.timeMs, durationMs), n + 1, sequence)) else None
    ensures r.Err? ==> || !SignalsAccepted(traces) || !RulesAccepted(batches, rules)
                       || (ReportDue(n, durationMs) && !FrameRange(frame.timeMs, durationMs).Ordered())
  {
    hide HasSeen, RulesAccepted, Fed, Advance, SignalsAccepted, FrameRange;
    report := None;
    var seen := ObserveSignals(confirmers, frame.signals, traces, n);
    if !seen {
      return Err(SignalRefused), None;
    }
    var advanced := AdvanceRules(rules, states, frame.observations, batches, n);
    if advanced.Err? {
      return Err(RuleRefused(advanced.error)), None;
    }
    if ReportDue(n, durationMs) {
      var shown := FrameRange(frame.timeMs, durationMs);
      if !shown.Ordered() {
        return Err(EmptyReport), None;
      }
      report := Some(Report(Running, shown, n + 1, sequence));
    }
    r := Ok(advanced.value);
  }

  /** The per-frame loop. The ghost arguments are the input of the frames before the first cancelled one. */
  method FeedFrames(frames: seq<Frame>, confirmers: seq<Signals.ConfirmedSignalIntervals>, rules: seq<Rule>,
                    durationMs: nat, cancelled: nat -> bool, late: nat -> bool, maxFrames: nat,
                    ghost traces: seq<seq<Signals.SignalObservation>>, ghost batches: seq<seq<Observation>>)
    returns (r: Result<seq<State>, RunError>, processed: nat, reports: seq<Report>)
    requires Regular(frames, |confirmers|)
    requires var fed := frames[..FirstCancelled(cancelled, 0, |frames|)];
             traces == SignalTraces(fed, |confirmers|) && batches == Batches(fed)
    requires Distinct(confirmers) && AllHaveSeen(confirmers, traces, 0)
    modifies confirmers
    ensures r.Ok? <==> Accepted(traces, batches, rules, late, maxFrames) && ReportsFit(frames, durationMs, |batches|)
    ensures processed <= |batches| && reports == Reports(frames, durationMs, processed)
    ensures r.Ok? ==> processed == |batches|
    ensures r.Ok? ==> AllHaveSeen(confirmers, traces, |batches|) && AllAdvanced(rules, r.value, batches, |batches|)
  {
    hide AllHaveSeen, AllAdvanced, RulesAccepted, SignalsAccepted, FrameRange, ReportDue;
    ghost var m := FirstCancelled(cancelled, 0, |frames|);
    var states := MakeStates(rules, batches);
    processed, reports := 0, [];
    while processed < |frames| && !cancelled(processed)
      invariant processed <= m && WithinLimits(late, maxFrames, processed) && ReportsFit(frames, durationMs, processed)
      invariant reports == Reports(frames, durationMs, processed)
      invariant AllHaveSeen(confirmers, traces, processed)
      invariant AllAdvanced(rules, states, batches, processed)
    {
      if late(processed) || processed + 1 > maxFrames {
        return Err(LimitReached), processed, reports;
      }
      var after, report := ProcessFrame(frames[processed], confirmers, rules, states, durationMs, processed, |reports|,
                                        traces, batches);
      if after.Err? {
        return Err(after.error), processed, reports;
      }
      states := after.value;
      reports := if report.Some? then reports + [report.value] else reports;
      processed := processed + 1;
    }
    AllFed(confirmers, traces, rules, states, batches);
    r := Ok(states);
  }

  lemma SeenWhole(confirmers: seq<Signals.ConfirmedSignalIntervals>, traces: seq<seq<Signals.SignalObservation>>, n: nat)
    requires AllHaveSeen(confirmers, traces, n) && forall g :: 0 <= g < |traces| ==> |traces[g]| == n
    ensures forall g :: 0 <= g < |confirmers| ==> HasSeen(confirmers[g], traces[g])
  {
    assert forall g :: 0 <= g < |traces| ==> traces[g][..n] == traces[g];
  }

  /** Confirmers and rules that took in everything have accepted it. */
  lemma AllFed(confirmers: seq<Signals.ConfirmedSignalIntervals>, traces: seq<seq<Signals.SignalObservation>>,
               rules: seq<Rule>, states: seq<State>, batches: seq<seq<Observation>>)
    requires AllHaveSeen(confirmers, traces, |batches|) && forall g :: 0 <= g < |traces| ==> |traces[g]| == |batches|
    requires AllAdvanced(rules, states, batches, |batches|)
    ensures SignalsAccepted(traces) && RulesAccepted(batches, rules)
  {
    hide Signals.Run, Fed;
    SeenWhole(confirmers, traces, |batches|);
    assert batches[..|batches|] == batches;
    forall g | 0 <= g < |traces| ensures Signals.Run(0, traces[g]).Ok? {
      assert HasSeen(confirmers[g], traces[g]);
    }
  }

  /** The result of a completed run: the emittable candidates against all confirmed red. */
  ghost predicate Yields(rules: seq<Rule>, traces: seq<seq<Signals.SignalObservation>>,
                         batches: seq<seq<Observation>>, endMs: nat, emitted: seq<Candidate>)
  {
    && SignalsAccepted(traces) && RulesAccepted(batches, rules)
    && AllEmit(rules, batches, FinalReds(traces, endMs, |traces|), endMs, |rules|)
    && emitted == Emitted(rules, batches, FinalReds(traces, endMs, |traces|), endMs, |rules|)
  }

  /** The result of a run that breaks off because rule q refuses at the end of the source. */
  ghost predicate BreaksOff(rules: seq<Rule>, traces: seq<seq<Signals.SignalObservation>>,
                            batches: seq<seq<Observation>>, endMs: nat, q: nat, emitted: seq<Candidate>)
  {
    && q < |rules| && SignalsAccepted(traces) && RulesAccepted(batches, rules)
    && var reds := FinalReds(traces, endMs, |traces|);
    && EmissionOf(rules[q], batches, reds, endMs).Err?
    && AllEmit(rules, batches, reds, endMs, q) && emitted == Emitted(rules, batches, reds, endMs, q)
  }

  /** End of source: confirm what is still open, then gate what the rules hold. */
  method FlushAll(confirmers: seq<Signals.ConfirmedSignalIntervals>, rules: seq<Rule>, states: seq<State>, endMs: nat,
                  ghost traces: seq<seq<Signals.SignalObservation>>, ghost batches: seq<seq<Observation>>)
    returns (refused: Option<Failure>, emitted: seq<Candidate>)
    requires forall g :: 0 <= g < |traces| ==> |traces[g]| == |batches|
    requires Distinct(confirmers) && AllHaveSeen(confirmers, traces, |batches|)
    requires AllAdvanced(rules, states, batches, |batches|)
    modifies confirmers
    ensures refused.None? ==> Yields(rules, traces, batches, endMs, emitted)
    ensures refused.Some? ==> exists q :: BreaksOff(rules, traces, batches, endMs, q, emitted)
  {
    hide HasSeen, Fed, EmissionOf, Emitted, FinalReds;
    AllFed(confirmers, traces, rules, states, batches);
    SeenWhole(confirmers, traces, |batches|);
    assert batches[..|batches|] == batches;
    var reds := CollectReds(confirmers, traces, endMs);
    ghost var count;
    refused, emitted, count := EmitCandidates(rules, states, batches, reds, endMs);
    if refused.Some? {
      assert BreaksOff(rules, traces, batches, endMs, count, emitted);
    }
  }

  /** What a run of configured rules may come to. The input counts up to the first frame at which the
      run is cancelled. */
  ghost predicate Ends(rules: seq<Rule>, frames: seq<Frame>, regions: nat, durationMs: nat,
                       cancelled: nat -> bool, late: nat -> bool, maxFrames: nat,
                       outcome: Outcome, emitted: seq<Candidate>, reports: seq<Report>)
    requires Regular(frames, regions)
  {
    var m := FirstCancelled(cancelled, 0, |frames|);
    var traces, batches := SignalTraces(frames[..m], regions), Batches(frames[..m]);
    var running := Reports(frames, durationMs, m);
    var endMs := EndTime(frames, durationMs);
    if !Accepted(traces, batches, rules, late, maxFrames) || !ReportsFit(frames, durationMs, m) then
      outcome.Failed? && emitted == [] && exists n :: 0 <= n <= m && reports == Reports(frames, durationMs, n)
    else if m < |frames| then
      outcome.Cancelled? && emitted == []
      && reports == running + [LastReport(frames[..m], durationMs, true, |running|)]
    else
      || (outcome.Completed? && Yields(rules, traces, batches, endMs, emitted)
          && reports == running + [LastReport(frames, durationMs, false, |running|)])
      || (outcome.Failed? && (exists q :: BreaksOff(rules, traces, batches, endMs, q, emitted)) && reports == running)
  }

  /** However a run ends, its updates are numbered from 0 without a gap and never show nothing; the
      frame count of the last one may repeat the one before it. */
  lemma UpdatesOfRun(rules: seq<Rule>, frames: seq<Frame>, regions: nat, durationMs: nat,
                     cancelled: nat -> bool, late: nat -> bool, maxFrames: nat,
                     outcome: Outcome, emitted: seq<Candidate>, reports: seq<Report>)
    requires Regular(frames, regions)
    requires Ends(rules, frames, regions, durationMs, cancelled, late, maxFrames, outcome, emitted, reports)
    ensures forall i :: 0 <= i < |reports| ==> reports[i].sequence == i
    ensures !outcome.Failed? ==>
              && (forall i :: 0 <= i < |reports| ==> reports[i].range.Ordered())
              && |reports| > 0 && reports[|reports| - 1].phase == Ended(outcome.Cancelled?)
              && forall i :: 0 <= i < |reports| - 1 ==> reports[i].phase == Running
  {
    hide Accepted, ReportsFit, FrameRange, Yields, BreaksOff;
    var m := FirstCancelled(cancelled, 0, |frames|);
    if outcome.Failed? {
      var n :| 0 <= n <= m && reports == Reports(frames, durationMs, n);
      ReportsAreRunning(frames, durationMs, n);
    } else {
      ReportsAreRunning(frames, durationMs, m);
      ReportsAreNumbered(frames, durationMs, m);
      assert frames[..|frames|] == frames;
      var running := Reports(frames, durationMs, m);
      var last := LastReport(frames[..m], durationMs, outcome.Cancelled?, |running|);
      assert reports == running + [last];
      WithLast(running, m, last);
    }
  }

  lemma WithLast(running: seq<Report>, n: nat, last: Report)
    requires Numbered(running, n) && Consecutive(running)
    requires last.sequence == |running| && last.range.Ordered() && last.phase.Ended?
    ensures var reports := running + [last];
            && (forall i :: 0 <= i < |reports| ==> reports[i].sequence == i && reports[i].range.Ordered())
            && (forall i :: 0 <= i < |reports| - 1 ==> reports[i].phase == Running)
  {
  }

  ghost predicate Consecutive(reports: seq<Report>) {
    forall i :: 0 <= i < |reports| ==> reports[i].phase == Running && reports[i].sequence == i
  }

  lemma OneMoreConsecutive(reports: seq<Report>, last: Report)
    requires Consecutive(reports) && last.phase == Running && last.sequence == |reports|
    ensures Consecutive(reports + [last])
  {
  }

  lemma {:induction false} ReportsAreRunning(frames: seq<Frame>, durationMs: nat, n: nat)
    requires n <= |frames|
    ensures Consecutive(Reports(frames, durationMs, n))
  {
    hide FrameRange;
    if n > 0 {
      ReportsAreRunning(frames, durationMs, n - 1);
      if ReportDue(n - 1, durationMs) {
        var before := Reports(frames, durationMs, n - 1);
        OneMoreConsecutive(before, Report(Running, FrameRange(frames[n - 1].timeMs, durationMs), n, |before|));
      }
    }
  }

  /** A completed run has taken in every frame. */
  lemma CompletedYields(rules: seq<Rule>, frames: seq<Frame>, regions: nat, durationMs: nat,
                        cancelled: nat -> bool, late: nat -> bool, maxFrames: nat,
                        emitted: seq<Candidate>, reports: seq<Report>)
    requires Regular(frames, regions)
    requires Ends(rules, frames, regions, durationMs, cancelled, late, maxFrames, Completed, emitted, reports)
    ensures Yields(rules, SignalTraces(frames, regions), Batches(frames), EndTime(frames, durationMs), emitted)
  {
    hide Yields, Accepted, ReportsFit, BreaksOff;
    assert frames[..|frames|] == frames;
  }

  /** A source of unknown duration never completes once a frame of it has been taken in: the update
      after that frame is refused. */
  lemma UnknownDurationFails(rules: seq<Rule>, frames: seq<Frame>, regions: nat,
                             cancelled: nat -> bool, late: nat -> bool, maxFrames: nat,
                             outcome: Outcome, emitted: seq<Candidate>, reports: seq<Report>)
    requires Regular(frames, regions) && |frames| > 0 && !cancelled(0)
    requires Ends(rules, frames, regions, 0, cancelled, late, maxFrames, outcome, emitted, reports)
    ensures outcome.Failed? && emitted == []
  {
    hide Accepted, ReportsFit;
    ReportsFitExactly(frames, 0, FirstCancelled(cancelled, 0, |frames|));
  }

  method RunRules(rules: seq<Rule>, frames: seq<Frame>, regions: nat, durationMs: nat,
                  cancelled: nat -> bool, late: nat -> bool, maxFrames: nat)
    returns (outcome: Outcome, emitted: seq<Candidate>, reports: seq<Report>)
    requires Regular(frames, regions)
    ensures Ends(rules, frames, regions, durationMs, cancelled, late, maxFrames, outcome, emitted, reports)
  {
    hide HasSeen, Accepted, ReportsFit, Reports, Yields, BreaksOff;
    ghost var m := FirstCancelled(cancelled, 0, |frames|);
    ghost var traces, batches := SignalTraces(frames[..m], regions), Batches(frames[..m]);
    var confirmers := MakeConfirmers(regions, traces);
    var states, processed;
    states, processed, reports :=
      FeedFrames(frames, confirmers, rules, durationMs, cancelled, late, maxFrames, traces, batches);
    if states.Err? {
      return Failed(states.error), [], reports;
    }
    if processed < |frames| {
      return Cancelled, [], reports + [LastReport(frames[..processed], durationMs, true, |reports|)];
    }
    assert m == |frames| && frames[..m] == frames;
    var endMs := if durationMs != 0 then durationMs else LastTime(frames) + 100;
    var refused;
    refused, emitted := FlushAll(confirmers, rules, states.value, endMs, traces, batches);
    if refused.Some? {
      ghost var q :| BreaksOff(rules, traces, batches, endMs, q, emitted);
      assert BreaksOff(rules, traces, batches, EndTime(frames, durationMs), q, emitted);
      return Failed(RuleRefused(refused.value)), emitted, reports;
    }
    outcome := Completed;
    reports := reports + [LastReport(frames, durationMs, false, |reports|)];
  }

  ghost predicate DistinctIds(rules: seq<TrackedRule>) {
    forall p, q :: 0 <= p < q < |rules| ==> rules[p].ruleId != rules[q].ruleId
  }

  /** Configures the rules of the specification and runs them. */
  method Run(spec: seq<TrackedRule>, calibration: Option<Calibration>, frames: seq<Frame>, regions: nat, durationMs: nat,
             cancelled: nat -> bool, late: nat -> bool, maxFrames: nat)
    returns (outcome: Outcome, emitted: seq<Candidate>, reports: seq<Report>, ghost rules: seq<Rule>)
    requires DistinctIds(spec) && Regular(frames, regions)
    ensures calibration.Some? && (forall q :: 0 <= q < |spec| ==> Configurable(spec[q], calibration.value)) ==>
              AllConfigured(spec, calibration.value, rules)
              && Ends(rules, frames, regions, durationMs, cancelled, late, maxFrames, outcome, emitted, reports)
    ensures calibration.None? || (exists q :: 0 <= q < |spec| && !Configurable(spec[q], calibration.value)) ==>
              outcome.Failed? && outcome.error.NotConfigured? && emitted == [] && reports == []
  {
    var configs := Configure(spec, calibration);
    if configs.Err? {
      return Failed(NotConfigured(configs.error)), [], [], [];
    }
    rules := configs.value;
    outcome, emitted, reports := RunRules(configs.value, frames, regions, durationMs, cancelled, late, maxFrames);
  }
}
