/** Stability confirmation of signal colours and the intervals it completes. */
module SignalIntervals {
  import opened Contracts

  datatype Signal = Red | Amber | Green | Unknown

  datatype SignalObservation = SignalObservation(timeMs: nat, state: Signal)

  datatype SignalInterval = SignalInterval(
    state: Signal, confirmedRange: TimeRange,
    startUncertainty: Option<CrossingBracket>, endUncertainty: Option<CrossingBracket>,
    gaps: seq<TimeRange>)

  datatype SignalError = OutOfOrder

  /** The fields of the confirmer, as one value. */
  datatype Machine = Machine(
    lastTime: Option<nat>, candidate: Option<Signal>, candidateSince: Option<nat>,
    candidateStart: Option<CrossingBracket>, confirmed: Option<Signal>, confirmedSince: Option<nat>,
    lastConfirmedSample: Option<nat>, startUncertainty: Option<CrossingBracket>,
    completed: seq<SignalInterval>)

  const FRESH := Machine(None, None, None, None, None, None, None, None, [])

  function Bracket(before: Option<nat>, after: nat): Option<CrossingBracket> {
    if before.None? || before.value >= after then None else Some(CrossingBracket(before.value, after))
  }

  function CloseConfirmed(m: Machine, endMs: nat, previous: Option<nat>): Machine
    requires m.confirmed.Some? && m.confirmedSince.Some?
  {
    m.(completed := if endMs > m.confirmedSince.value
                    then m.completed + [SignalInterval(m.confirmed.value, TimeRange(m.confirmedSince.value, endMs),
                                                       m.startUncertainty, Bracket(previous, endMs), [])]
                    else m.completed,
       confirmed := None, confirmedSince := None, lastConfirmedSample := None, startUncertainty := None)
  }

  function DropCandidate(m: Machine): Machine {
    m.(candidate := None, candidateSince := None, candidateStart := None)
  }

  predicate Coherent(m: Machine) {
    && (m.confirmed.Some? <==> m.confirmedSince.Some?)
    && (m.candidate.Some? <==> m.candidateSince.Some?)
    && (m.confirmed.Some? ==> m.candidate.None? && m.confirmed.value != Unknown)
    && (m.candidate.Some? ==> m.candidate.value != Unknown)
  }

  /** One sample, in time order. */
  function Step(m: Machine, stabilityMs: nat, obs: SignalObservation): (r: Result<Machine, SignalError>)
    requires Coherent(m)
    ensures r.Ok? ==> Coherent(r.value)
    ensures r.Ok? <==> m.lastTime.None? || m.lastTime.value <= obs.timeMs
  {
    if m.lastTime.Some? && obs.timeMs < m.lastTime.value then Err(OutOfOrder)
    else
      var timed := m.(lastTime := Some(obs.timeMs));
      var closed := if m.confirmed.Some? && obs.state != m.confirmed.value
                    then DropCandidate(CloseConfirmed(timed, obs.timeMs, m.lastTime)) else timed;
      if obs.state == Unknown then Ok(DropCandidate(closed))
      else if closed.confirmed == Some(obs.state) then Ok(closed.(lastConfirmedSample := Some(obs.timeMs)))
      else
        var held := if closed.candidate != Some(obs.state)
                    then closed.(candidate := Some(obs.state), candidateSince := Some(obs.timeMs),
                                 candidateStart := Bracket(m.lastTime, obs.timeMs))
                    else closed;
        if obs.timeMs - held.candidateSince.value >= stabilityMs
        then Ok(DropCandidate(held.(confirmed := Some(obs.state), confirmedSince := Some(obs.timeMs),
                                    lastConfirmedSample := Some(obs.timeMs),
                                    startUncertainty := held.candidateStart)))
        else Ok(held)
  }

  function Flushed(m: Machine, endMs: nat): Machine
    requires Coherent(m)
  {
    if m.confirmed.Some? then CloseConfirmed(m, endMs, m.lastTime) else m
  }

  function Run(stabilityMs: nat, trace: seq<SignalObservation>): (r: Result<Machine, SignalError>)
    ensures r.Ok? ==> Coherent(r.value)
    ensures r.Ok? ==> r.value.lastTime == if |trace| == 0 then None else Some(trace[|trace| - 1].timeMs)
  {
    if |trace| == 0 then Ok(FRESH)
    else
      var before := Run(stabilityMs, trace[..|trace| - 1]);
      if before.Err? then before else Step(before.value, stabilityMs, trace[|trace| - 1])
  }

  // ---------------------------------------------------------------- the class

  class ConfirmedSignalIntervals {
    const stabilityMs: nat
    var lastTime: Option<nat>
    var candidate: Option<Signal>
    var candidateSince: Option<nat>
    var candidateStart: Option<CrossingBracket>
    var confirmed: Option<Signal>
    var confirmedSince: Option<nat>
    var lastConfirmedSample: Option<nat>
    var startUncertainty: Option<CrossingBracket>
    var completed: seq<SignalInterval>

    function State(): Machine
      reads this
    {
      Machine(lastTime, candidate, candidateSince, candidateStart, confirmed, confirmedSince,
              lastConfirmedSample, startUncertainty, completed)
    }

    constructor (stabilityMs: nat)
      ensures this.stabilityMs == stabilityMs && State() == FRESH
    {
      this.stabilityMs := stabilityMs;
      lastTime, candidate, candidateSince, candidateStart := None, None, None, None;
      confirmed, confirmedSince, lastConfirmedSample, startUncertainty := None, None, None, None;
      completed := [];
    }

    method Update(obs: SignalObservation) returns (r: Result<Machine, SignalError>)
      requires Coherent(State())
      modifies this
      ensures r == Step(old(State()), stabilityMs, obs)
      ensures State() == if r.Ok? then r.value else old(State())
    {
      if lastTime.Some? && obs.timeMs < lastTime.value {
        return Err(OutOfOrder);
      }
      var previousTime := lastTime;
      lastTime := Some(obs.timeMs);
      if confirmed.Some? && obs.state != confirmed.value {
        Close(obs.timeMs, previousTime);
        candidate, candidateSince, candidateStart := None, None, None;
      }
      if obs.state == Unknown {
        candidate, candidateSince, candidateStart := None, None, None;
        return Ok(State());
      }
      if confirmed == Some(obs.state) {
        lastConfirmedSample := Some(obs.timeMs);
        return Ok(State());
      }
      if candidate != Some(obs.state) {
        candidate, candidateSince := Some(obs.state), Some(obs.timeMs);
        candidateStart := Bracket(previousTime, obs.timeMs);
      }
      if obs.timeMs - candidateSince.value >= stabilityMs {
        confirmed, confirmedSince, lastConfirmedSample := Some(obs.state), Some(obs.timeMs), Some(obs.timeMs);
        startUncertainty := candidateStart;
        candidate, candidateSince, candidateStart := None, None, None;
      }
      r := Ok(State());
    }

    method Close(endMs: nat, previousTime: Option<nat>)
      requires confirmed.Some? && confirmedSince.Some?
      modifies this
      ensures State() == CloseConfirmed(old(State()), endMs, previousTime)
    {
      if endMs > confirmedSince.value {
        completed := completed + [SignalInterval(confirmed.value, TimeRange(confirmedSince.value, endMs),
                                                 startUncertainty, Bracket(previousTime, endMs), [])];
      }
      confirmed, confirmedSince, lastConfirmedSample, startUncertainty := None, None, None, None;
    }

    method Flush(endMs: nat) returns (intervals: seq<SignalInterval>)
      requires Coherent(State())
      modifies this
      ensures State() == Flushed(old(State()), endMs) && intervals == completed
    {
      if confirmed.Some? && confirmedSince.Some? {
        Close(endMs, lastTime);
      }
      intervals := completed;
    }
  }

  // ---------------------------------------------------------------- confirmed runs, stated on the trace alone

  predicate TimeOrdered(trace: seq<SignalObservation>) {
    forall i, j :: 0 <= i < j < |trace| ==> trace[i].timeMs <= trace[j].timeMs
  }

  /** trace[i..j] is one unbroken run of a colour, not extendable to the left. */
  ghost predicate IsRun(trace: seq<SignalObservation>, i: nat, j: nat) {
    i < j <= |trace| && trace[i].state != Unknown
    && (forall m :: i <= m < j ==> trace[m].state == trace[i].state)
    && (i > 0 ==> trace[i - 1].state != trace[i].state)
  }

  /** k is the first sample of a run that comes at least the stability time after its first sample. */
  ghost predicate ConfirmsAt(stabilityMs: nat, trace: seq<SignalObservation>, i: nat, k: nat) {
    i <= k < |trace| && trace[k].timeMs - trace[i].timeMs >= stabilityMs
    && forall m :: i <= m < k ==> trace[m].timeMs - trace[i].timeMs < stabilityMs
  }

  /** A run that is confirmed at k and broken off by the sample at j. */
  ghost predicate IsConfirmedRun(stabilityMs: nat, trace: seq<SignalObservation>, run: Interval) {
    run.j < |trace| && run.k < run.j && IsRun(trace, run.i, run.j) && ConfirmsAt(stabilityMs, trace, run.i, run.k)
    && trace[run.j].state != trace[run.i].state
  }

  /** Positions: first sample i, confirming sample k, closing sample j. */
  datatype Interval = Interval(i: nat, k: nat, j: nat)

  function TimeBefore(trace: seq<SignalObservation>, i: nat): Option<nat>
    requires i <= |trace|
  {
    if i == 0 then None else Some(trace[i - 1].timeMs)
  }

  function IntervalAt(trace: seq<SignalObservation>, run: Interval): SignalInterval
    requires run.i < |trace| && run.k < |trace| && run.j < |trace|
  {
    SignalInterval(trace[run.i].state, TimeRange(trace[run.k].timeMs, trace[run.j].timeMs),
                   Bracket(TimeBefore(trace, run.i), trace[run.i].timeMs),
                   Bracket(TimeBefore(trace, run.j), trace[run.j].timeMs), [])
  }

  /** `runs` lists exactly the confirmed runs of positive length, in trace order. */
  ghost predicate ListsRuns(stabilityMs: nat, trace: seq<SignalObservation>, runs: seq<Interval>) {
    && (forall run :: run in runs <==> IsReported(stabilityMs, trace, run))
    && (forall a, b :: 0 <= a < b < |runs| ==> runs[a].j <= runs[b].i)
  }

  ghost predicate Depicts(trace: seq<SignalObservation>, runs: seq<Interval>, completed: seq<SignalInterval>) {
    |completed| == |runs|
    && forall n :: 0 <= n < |runs| ==>
         runs[n].i < |trace| && runs[n].k < |trace| && runs[n].j < |trace|
         && completed[n] == IntervalAt(trace, runs[n])
  }

  // ---------------------------------------------------------------- reading a trace without the machine

  /** First position of the current run, its confirming sample, and the confirmed runs already closed. */
  datatype Reading = Reading(start: nat, at: Option<nat>, runs: seq<Interval>)

  function Read(stabilityMs: nat, trace: seq<SignalObservation>): (r: Reading)
    ensures |trace| > 0 ==> r.start < |trace|
    ensures r.at.Some? ==> r.at.value < |trace|
    ensures forall n :: 0 <= n < |r.runs| ==>
              r.runs[n].i < |trace| && r.runs[n].k < |trace| && r.runs[n].j < |trace|
  {
    if |trace| == 0 then Reading(0, None, [])
    else
      var n := |trace| - 1;
      var before := Read(stabilityMs, trace[..n]);
      if n > 0 && trace[n - 1].state == trace[n].state then
        if before.at.None? && trace[n].state != Unknown && trace[n].timeMs - trace[before.start].timeMs >= stabilityMs
        then before.(at := Some(n)) else before
      else
        Reading(n, if trace[n].state != Unknown && stabilityMs == 0 then Some(n) else None,
                if before.at.Some? && trace[before.at.value].timeMs < trace[n].timeMs
                then before.runs + [Interval(before.start, before.at.value, n)] else before.runs)
  }

  ghost predicate ReadsRun(stabilityMs: nat, trace: seq<SignalObservation>, r: Reading)
    requires |trace| > 0 ==> r.start < |trace|
  {
    |trace| > 0 ==>
      && (forall m :: r.start <= m < |trace| ==> trace[m].state == trace[r.start].state)
      && (r.start > 0 ==> trace[r.start - 1].state != trace[r.start].state)
      && (r.at.Some? ==> trace[r.start].state != Unknown && ConfirmsAt(stabilityMs, trace, r.start, r.at.value))
      && (r.at.None? && trace[r.start].state != Unknown ==>
            forall m :: r.start <= m < |trace| ==> trace[m].timeMs - trace[r.start].timeMs < stabilityMs)
  }

  lemma {:induction false} ReadRunIsRight(stabilityMs: nat, trace: seq<SignalObservation>)
    ensures ReadsRun(stabilityMs, trace, Read(stabilityMs, trace))
    ensures |trace| == 0 ==> Read(stabilityMs, trace).at.None?
  {
    if |trace| > 0 {
      var n := |trace| - 1;
      ReadRunIsRight(stabilityMs, trace[..n]);
      assert forall m :: 0 <= m < n ==> trace[..n][m] == trace[m];
    }
  }

  lemma RunOfPrefix(stabilityMs: nat, trace: seq<SignalObservation>, n: nat, run: Interval)
    requires n <= |trace| && run.j < n
    ensures IsConfirmedRun(stabilityMs, trace[..n], run) <==> IsConfirmedRun(stabilityMs, trace, run)
  {
    assert forall m :: 0 <= m < n ==> trace[..n][m] == trace[m];
  }

  /** The run closed by the newest sample is the current run of the reading, if that is confirmed. */
  lemma NewestRun(stabilityMs: nat, trace: seq<SignalObservation>, run: Interval)
    requires |trace| > 0 && run.j == |trace| - 1
    ensures IsConfirmedRun(stabilityMs, trace, run) <==>
            var before := Read(stabilityMs, trace[..|trace| - 1]);
            run.j > 0 && trace[run.j - 1].state != trace[run.j].state
            && run.i == before.start && before.at == Some(run.k)
  {
    var n := |trace| - 1;
    var before := Read(stabilityMs, trace[..n]);
    ReadRunIsRight(stabilityMs, trace[..n]);
    assert forall m :: 0 <= m < n ==> trace[..n][m] == trace[m];
    if IsConfirmedRun(stabilityMs, trace, run) {
      assert run.i <= before.start;
      assert before.start <= run.i;
      if before.at.Some? {
        assert ConfirmsAt(stabilityMs, trace[..n], before.start, before.at.value);
      }
    }
  }

  ghost predicate IsReported(stabilityMs: nat, trace: seq<SignalObservation>, run: Interval) {
    IsConfirmedRun(stabilityMs, trace, run) && trace[run.k].timeMs < trace[run.j].timeMs
  }

  lemma EarlierReported(stabilityMs: nat, trace: seq<SignalObservation>, n: nat, run: Interval)
    requires n <= |trace| && run.j < n
    ensures IsReported(stabilityMs, trace[..n], run) <==> IsReported(stabilityMs, trace, run)
  {
    RunOfPrefix(stabilityMs, trace, n, run);
  }

  lemma NewestReported(stabilityMs: nat, trace: seq<SignalObservation>, run: Interval)
    requires |trace| > 0 && run.j == |trace| - 1
    ensures var before := Read(stabilityMs, trace[..|trace| - 1]);
            IsReported(stabilityMs, trace, run) <==>
            run in Read(stabilityMs, trace).runs && run !in before.runs
  {
    ReadRunIsRight(stabilityMs, trace[..|trace| - 1]);
    NewestRun(stabilityMs, trace, run);
  }

  /** A sample leaves the runs closed before it alone. */
  lemma OtherRunsKept(stabilityMs: nat, trace: seq<SignalObservation>, run: Interval)
    requires |trace| > 0 && run.j != |trace| - 1
    ensures run in Read(stabilityMs, trace).runs <==> run in Read(stabilityMs, trace[..|trace| - 1]).runs
  {
  }

  lemma RunListed(stabilityMs: nat, trace: seq<SignalObservation>, run: Interval)
    requires |trace| > 0
    requires var before := Read(stabilityMs, trace[..|trace| - 1]);
             run in before.runs <==> IsReported(stabilityMs, trace[..|trace| - 1], run)
    ensures run in Read(stabilityMs, trace).runs <==> IsReported(stabilityMs, trace, run)
  {
    hide Read, IsRun, ConfirmsAt;
    var n := |trace| - 1;
    if run.j == n {
      NewestReported(stabilityMs, trace, run);
    } else {
      OtherRunsKept(stabilityMs, trace, run);
      if run.j < n {
        EarlierReported(stabilityMs, trace, n, run);
      }
    }
  }

  lemma {:induction false} ReadReports(stabilityMs: nat, trace: seq<SignalObservation>, run: Interval)
    ensures run in Read(stabilityMs, trace).runs <==> IsReported(stabilityMs, trace, run)
  {
    if |trace| > 0 {
      ReadReports(stabilityMs, trace[..|trace| - 1], run);
      RunListed(stabilityMs, trace, run);
    }
  }

  lemma {:induction false} ReadIsOrdered(stabilityMs: nat, trace: seq<SignalObservation>)
    ensures var r := Read(stabilityMs, trace);
            && (forall a, b :: 0 <= a < b < |r.runs| ==> r.runs[a].j <= r.runs[b].i)
            && (forall a :: 0 <= a < |r.runs| ==> r.runs[a].j <= r.start)
  {
    if |trace| > 0 {
      ReadIsOrdered(stabilityMs, trace[..|trace| - 1]);
      assert Read(stabilityMs, trace[..|trace| - 1]).start <= |trace| - 1;
    }
  }

  lemma ReadIsRight(stabilityMs: nat, trace: seq<SignalObservation>)
    ensures ListsRuns(stabilityMs, trace, Read(stabilityMs, trace).runs)
    ensures forall a :: 0 <= a < |Read(stabilityMs, trace).runs| ==>
              Read(stabilityMs, trace).runs[a].j <= Read(stabilityMs, trace).start
  {
    ReadIsOrdered(stabilityMs, trace);
    forall run: Interval
      ensures run in Read(stabilityMs, trace).runs <==> IsReported(stabilityMs, trace, run)
    {
      ReadReports(stabilityMs, trace, run);
    }
  }

  // ---------------------------------------------------------------- the machine follows the reading

  ghost predicate HoldsRuns(trace: seq<SignalObservation>, r: Reading, m: Machine)
    requires forall n :: 0 <= n < |r.runs| ==>
               r.runs[n].i < |trace| && r.runs[n].k < |trace| && r.runs[n].j < |trace|
  {
    m.completed == seq(|r.runs|, n requires 0 <= n < |r.runs| => IntervalAt(trace, r.runs[n]))
  }

  ghost predicate HoldsRun(trace: seq<SignalObservation>, r: Reading, m: Machine)
    requires r.start < |trace| && (r.at.Some? ==> r.at.value < |trace|)
  {
    var edge := Bracket(TimeBefore(trace, r.start), trace[r.start].timeMs);
    && m.confirmed == (if r.at.Some? then Some(trace[r.start].state) else None)
    && m.confirmedSince == (if r.at.Some? then Some(trace[r.at.value].timeMs) else None)
    && (r.at.Some? ==> m.startUncertainty == edge)
    && (r.at.None? && trace[r.start].state != Unknown ==>
          m.candidate == Some(trace[r.start].state)
          && m.candidateSince == Some(trace[r.start].timeMs) && m.candidateStart == edge)
    && (trace[r.start].state == Unknown ==> m.candidate.None?)
  }

  ghost predicate Follows(stabilityMs: nat, trace: seq<SignalObservation>, m: Machine) {
    var r := Read(stabilityMs, trace);
    HoldsRuns(trace, r, m) && if |trace| == 0 then m == FRESH else HoldsRun(trace, r, m)
  }

  lemma StepChecksTime(stabilityMs: nat, m: Machine, obs: SignalObservation)
    requires Coherent(m)
    ensures Step(m, stabilityMs, obs).Ok? <==> (m.lastTime.Some? ==> m.lastTime.value <= obs.timeMs)
  {
  }

  lemma FreshFollows(stabilityMs: nat)
    ensures Follows(stabilityMs, [], FRESH)
  {
  }

  lemma {:induction false} RunFollows(stabilityMs: nat, trace: seq<SignalObservation>)
    ensures var after := Run(stabilityMs, trace);
            (after.Ok? <==> TimeOrdered(trace)) && (after.Ok? ==> Follows(stabilityMs, trace, after.value))
  {
    hide Step, Read, Follows, TimeOrdered;
    if |trace| == 0 {
      FreshFollows(stabilityMs);
      assert TimeOrdered(trace) by { EmptyIsOrdered(trace); }
    } else {
      var n := |trace| - 1;
      RunFollows(stabilityMs, trace[..n]);
      OrderedPrefix(trace);
      if Run(stabilityMs, trace[..n]).Ok? {
        StepChecksTime(stabilityMs, Run(stabilityMs, trace[..n]).value, trace[n]);
      }
      if Run(stabilityMs, trace).Ok? {
        StepFollows(stabilityMs, trace, Run(stabilityMs, trace[..n]).value, Run(stabilityMs, trace).value);
      }
    }
  }

  lemma EmptyIsOrdered(trace: seq<SignalObservation>)
    requires |trace| == 0
    ensures TimeOrdered(trace)
  {
  }

  lemma OrderedPrefix(trace: seq<SignalObservation>)
    requires |trace| > 0
    ensures TimeOrdered(trace) <==>
            TimeOrdered(trace[..|trace| - 1])
            && (|trace| > 1 ==> trace[|trace| - 2].timeMs <= trace[|trace| - 1].timeMs)
  {
    var n := |trace| - 1;
    assert forall m :: 0 <= m < n ==> trace[..n][m] == trace[m];
    if TimeOrdered(trace[..n]) && (n > 0 ==> trace[n - 1].timeMs <= trace[n].timeMs) {
      forall i | 0 <= i < n ensures trace[i].timeMs <= trace[n].timeMs {
        assert trace[..n][i].timeMs <= trace[..n][n - 1].timeMs;
      }
    }
  }

  lemma StepFollows(stabilityMs: nat, trace: seq<SignalObservation>, before: Machine, after: Machine)
    requires |trace| > 0
    requires Run(stabilityMs, trace[..|trace| - 1]) == Ok(before) && Run(stabilityMs, trace) == Ok(after)
    requires Follows(stabilityMs, trace[..|trace| - 1], before)
    ensures Follows(stabilityMs, trace, after)
  {
    hide Step, HoldsRun, HoldsRuns, ReadsRun;
    var n := |trace| - 1;
    var r0 := Read(stabilityMs, trace[..n]);
    ReadRunIsRight(stabilityMs, trace[..n]);
    assert Step(before, stabilityMs, trace[n]) == Ok(after);
    StepHoldsRun(stabilityMs, trace, r0, before, after);
    StepHoldsRuns(stabilityMs, trace, r0, before, after);
  }

  lemma StepHoldsRun(stabilityMs: nat, trace: seq<SignalObservation>, r0: Reading, before: Machine, after: Machine)
    requires |trace| > 0 && Coherent(before) && Step(before, stabilityMs, trace[|trace| - 1]) == Ok(after)
    requires r0 == Read(stabilityMs, trace[..|trace| - 1]) && ReadsRun(stabilityMs, trace[..|trace| - 1], r0)
    requires before.lastTime == TimeBefore(trace, |trace| - 1)
    requires if |trace| == 1 then before == FRESH && r0.at.None? else HoldsRun(trace[..|trace| - 1], r0, before)
    ensures HoldsRun(trace, Read(stabilityMs, trace), after)
  {
    var n := |trace| - 1;
    assert forall m :: 0 <= m < n ==> trace[..n][m] == trace[m];
    if n > 0 {
      assert trace[r0.start].state == trace[n - 1].state;
      assert TimeBefore(trace[..n], r0.start) == TimeBefore(trace, r0.start);
    }
  }

  lemma HeldOfPrefix(trace: seq<SignalObservation>, n: nat, r: Reading, m: Machine)
    requires n <= |trace|
    requires forall q :: 0 <= q < |r.runs| ==> r.runs[q].i < n && r.runs[q].k < n && r.runs[q].j < n
    requires HoldsRuns(trace[..n], r, m)
    ensures HoldsRuns(trace, r, m)
  {
    forall q | 0 <= q < |r.runs| ensures IntervalAt(trace[..n], r.runs[q]) == IntervalAt(trace, r.runs[q]) {
    }
  }

  /** The confirmed run that the newest sample breaks off. */
  lemma RunCloses(stabilityMs: nat, trace: seq<SignalObservation>, r0: Reading, before: Machine, after: Machine)
    requires |trace| > 1 && Coherent(before) && Step(before, stabilityMs, trace[|trace| - 1]) == Ok(after)
    requires r0.start < |trace| - 1 && r0.at.Some? && r0.at.value < |trace| - 1
    requires ReadsRun(stabilityMs, trace[..|trace| - 1], r0)
    requires before.lastTime == TimeBefore(trace, |trace| - 1) && HoldsRun(trace[..|trace| - 1], r0, before)
    requires trace[|trace| - 2].state != trace[|trace| - 1].state
    ensures after.completed ==
            if trace[r0.at.value].timeMs < trace[|trace| - 1].timeMs
            then before.completed + [IntervalAt(trace, Interval(r0.start, r0.at.value, |trace| - 1))]
            else before.completed
  {
    var n := |trace| - 1;
    assert forall m :: 0 <= m < n ==> trace[..n][m] == trace[m];
    assert trace[..n][n - 1].state == trace[..n][r0.start].state;
    assert before.confirmed == Some(trace[r0.start].state);
    assert TimeBefore(trace[..n], r0.start) == TimeBefore(trace, r0.start);
  }

  /** Any other sample closes nothing. */
  lemma NothingCloses(stabilityMs: nat, trace: seq<SignalObservation>, r0: Reading, before: Machine, after: Machine)
    requires |trace| > 0 && Coherent(before) && Step(before, stabilityMs, trace[|trace| - 1]) == Ok(after)
    requires r0.start < |trace| && (r0.at.Some? ==> r0.at.value < |trace| - 1)
    requires if |trace| == 1 then before == FRESH
             else r0.start < |trace| - 1 && ReadsRun(stabilityMs, trace[..|trace| - 1], r0)
                  && HoldsRun(trace[..|trace| - 1], r0, before)
    requires |trace| > 1 && r0.at.Some? ==> trace[|trace| - 2].state == trace[|trace| - 1].state
    ensures after.completed == before.completed
  {
    var n := |trace| - 1;
    if n > 0 && r0.at.Some? {
      assert trace[..n][n - 1].state == trace[..n][r0.start].state;
      assert before.confirmed == Some(trace[n].state);
    }
  }

  lemma StepHoldsRuns(stabilityMs: nat, trace: seq<SignalObservation>, r0: Reading, before: Machine, after: Machine)
    requires |trace| > 0 && Coherent(before) && Step(before, stabilityMs, trace[|trace| - 1]) == Ok(after)
    requires r0 == Read(stabilityMs, trace[..|trace| - 1]) && ReadsRun(stabilityMs, trace[..|trace| - 1], r0)
    requires before.lastTime == TimeBefore(trace, |trace| - 1)
    requires if |trace| == 1 then before == FRESH && r0.at.None? else HoldsRun(trace[..|trace| - 1], r0, before)
    requires HoldsRuns(trace[..|trace| - 1], r0, before)
    ensures HoldsRuns(trace, Read(stabilityMs, trace), after)
  {
    var n := |trace| - 1;
    hide Step, ReadsRun, HoldsRun;
    HeldOfPrefix(trace, n, r0, before);
    if n > 0 && r0.at.Some? && trace[n - 1].state != trace[n].state {
      RunCloses(stabilityMs, trace, r0, before, after);
    } else {
      NothingCloses(stabilityMs, trace, r0, before, after);
    }
  }

  // ---------------------------------------------------------------- main results

  /** The confirmer accepts exactly the time-ordered traces, and has then completed exactly one
      interval for every confirmed run that has been broken off, in order. */
  lemma CompletedIntervals(stabilityMs: nat, trace: seq<SignalObservation>) returns (runs: seq<Interval>)
    ensures Run(stabilityMs, trace).Ok? <==> TimeOrdered(trace)
    ensures ListsRuns(stabilityMs, trace, runs)
    ensures Run(stabilityMs, trace).Ok? ==> Depicts(trace, runs, Run(stabilityMs, trace).value.completed)
  {
    RunFollows(stabilityMs, trace);
    ReadIsRight(stabilityMs, trace);
    runs := Read(stabilityMs, trace).runs;
  }

  lemma AcceptedIsOrdered(stabilityMs: nat, trace: seq<SignalObservation>)
    ensures Run(stabilityMs, trace).Ok? <==> TimeOrdered(trace)
  {
    RunFollows(stabilityMs, trace);
  }

  predicate StrictlyTimed(trace: seq<SignalObservation>) {
    forall i, j :: 0 <= i < j < |trace| ==> trace[i].timeMs < trace[j].timeMs
  }

  /** What one interval says about the samples: from k up to, not including, j they all had its
      colour, the run began at i at least the stability time before k, and j is the sample that
      broke it off or the end of the source. */
  ghost predicate Witnessed(stabilityMs: nat, trace: seq<SignalObservation>, endMs: nat,
                            interval: SignalInterval, run: Interval) {
    && run.k < run.j <= |trace| && run.i <= run.k
    && IsRun(trace, run.i, run.j) && ConfirmsAt(stabilityMs, trace, run.i, run.k)
    && interval.state == trace[run.i].state
    && interval.confirmedRange.startMs == trace[run.k].timeMs
    && interval.confirmedRange.endMs == (if run.j < |trace| then trace[run.j].timeMs else endMs)
    && (run.j < |trace| ==> trace[run.j].state != interval.state)
    && interval.confirmedRange.Ordered()
    && interval.gaps == []
  }

  function Intervals(stabilityMs: nat, trace: seq<SignalObservation>, endMs: nat): seq<SignalInterval>
    requires Run(stabilityMs, trace).Ok?
  {
    Flushed(Run(stabilityMs, trace).value, endMs).completed
  }

  /** The run behind the n-th reported interval; the one after the closed runs is still open. */
  function RunAt(trace: seq<SignalObservation>, r: Reading, n: nat): Interval
    requires n < |r.runs| || r.at.Some?
  {
    if n < |r.runs| then r.runs[n] else Interval(r.start, r.at.value, |trace|)
  }

  lemma IntervalHasRun(stabilityMs: nat, trace: seq<SignalObservation>, endMs: nat, n: nat)
    requires Run(stabilityMs, trace).Ok? && n < |Intervals(stabilityMs, trace, endMs)|
    ensures var r := Read(stabilityMs, trace);
            n <= |r.runs| && (n < |r.runs| || r.at.Some?)
            && Witnessed(stabilityMs, trace, endMs, Intervals(stabilityMs, trace, endMs)[n], RunAt(trace, r, n))
  {
    RunFollows(stabilityMs, trace);
    ReadIsRight(stabilityMs, trace);
    ReadRunIsRight(stabilityMs, trace);
    var r := Read(stabilityMs, trace);
    if n < |r.runs| {
      assert r.runs[n] in r.runs;
      assert Intervals(stabilityMs, trace, endMs)[n] == IntervalAt(trace, r.runs[n]);
    }
  }

  /** Every interval reported at the end of the source is backed by an unbroken run of samples. */
  lemma IntervalIsWitnessed(stabilityMs: nat, trace: seq<SignalObservation>, endMs: nat, n: nat)
    requires Run(stabilityMs, trace).Ok? && n < |Intervals(stabilityMs, trace, endMs)|
    ensures exists run :: Witnessed(stabilityMs, trace, endMs, Intervals(stabilityMs, trace, endMs)[n], run)
  {
    IntervalHasRun(stabilityMs, trace, endMs, n);
  }

  /** Every confirmed run of positive length is reported, the one still open at the end included. */
  lemma RunIsReported(stabilityMs: nat, trace: seq<SignalObservation>, endMs: nat, run: Interval)
    requires Run(stabilityMs, trace).Ok?
    requires run.k < run.j <= |trace| && IsRun(trace, run.i, run.j) && ConfirmsAt(stabilityMs, trace, run.i, run.k)
    requires run.j < |trace| ==> trace[run.j].state != trace[run.i].state
    requires trace[run.k].timeMs < (if run.j < |trace| then trace[run.j].timeMs else endMs)
    ensures exists n :: 0 <= n < |Intervals(stabilityMs, trace, endMs)| &&
              Witnessed(stabilityMs, trace, endMs, Intervals(stabilityMs, trace, endMs)[n], run)
  {
    RunFollows(stabilityMs, trace);
    ReadIsRight(stabilityMs, trace);
    ReadRunIsRight(stabilityMs, trace);
    var r := Read(stabilityMs, trace);
    var intervals := Intervals(stabilityMs, trace, endMs);
    if run.j < |trace| {
      assert IsReported(stabilityMs, trace, run);
      var n :| 0 <= n < |r.runs| && r.runs[n] == run;
      assert intervals[n] == IntervalAt(trace, run);
    } else {
      assert run.i == r.start;
      assert r.at.Some? && r.at.value == run.k;
      assert Witnessed(stabilityMs, trace, endMs, intervals[|r.runs|], run);
    }
  }

  /** Intervals come in time order and do not overlap. */
  lemma IntervalsAreDisjoint(stabilityMs: nat, trace: seq<SignalObservation>, endMs: nat, a: nat, b: nat)
    requires Run(stabilityMs, trace).Ok? && a < b < |Intervals(stabilityMs, trace, endMs)|
    ensures Intervals(stabilityMs, trace, endMs)[a].confirmedRange.endMs <=
            Intervals(stabilityMs, trace, endMs)[b].confirmedRange.startMs
  {
    IntervalHasRun(stabilityMs, trace, endMs, a);
    IntervalHasRun(stabilityMs, trace, endMs, b);
    AcceptedIsOrdered(stabilityMs, trace);
    var r := Read(stabilityMs, trace);
    RunsPrecede(stabilityMs, trace, a, b);
    WitnessesPrecede(stabilityMs, trace, endMs, Intervals(stabilityMs, trace, endMs)[a], RunAt(trace, r, a),
                     Intervals(stabilityMs, trace, endMs)[b], RunAt(trace, r, b));
  }

  lemma WitnessesPrecede(stabilityMs: nat, trace: seq<SignalObservation>, endMs: nat,
                         first: SignalInterval, run: Interval, second: SignalInterval, later: Interval)
    requires TimeOrdered(trace) && run.j <= later.i && run.j < |trace|
    requires Witnessed(stabilityMs, trace, endMs, first, run) && Witnessed(stabilityMs, trace, endMs, second, later)
    ensures first.confirmedRange.endMs <= second.confirmedRange.startMs
  {
  }

  lemma RunsPrecede(stabilityMs: nat, trace: seq<SignalObservation>, a: nat, b: nat)
    requires var r := Read(stabilityMs, trace); a < b <= |r.runs| && (b < |r.runs| || r.at.Some?)
    ensures var r := Read(stabilityMs, trace);
            RunAt(trace, r, a).j <= RunAt(trace, r, b).i && RunAt(trace, r, a).j < |trace|
  {
    ReadIsRight(stabilityMs, trace);
  }

  /** Every sample whose time lies in the interval has its colour. */
  ghost predicate PureInside(trace: seq<SignalObservation>, interval: SignalInterval) {
    forall m :: 0 <= m < |trace| && interval.confirmedRange.Contains(trace[m].timeMs) ==> trace[m].state == interval.state
  }

  /** A reported interval is pure exactly when the sample before its run is older than the confirming
      one. With a positive stability time it always is. */
  lemma SamplesInside(stabilityMs: nat, trace: seq<SignalObservation>, endMs: nat, interval: SignalInterval, run: Interval)
    requires TimeOrdered(trace) && Witnessed(stabilityMs, trace, endMs, interval, run)
    ensures PureInside(trace, interval) <==> run.i == 0 || trace[run.i - 1].timeMs < trace[run.k].timeMs
    ensures stabilityMs > 0 || StrictlyTimed(trace) ==> PureInside(trace, interval)
  {
    if run.i == 0 || trace[run.i - 1].timeMs < trace[run.k].timeMs {
      forall m | 0 <= m < |trace| && interval.confirmedRange.Contains(trace[m].timeMs)
        ensures trace[m].state == interval.state
      {
        assert run.i <= m < run.j;
      }
    } else {
      assert interval.confirmedRange.Contains(trace[run.i - 1].timeMs);
    }
  }

  /** Two samples at one instant: the interval starts at an instant that also had another colour. */
  lemma SharedInstant()
    ensures var trace := [SignalObservation(5, Green), SignalObservation(5, Red), SignalObservation(9, Green)];
            Run(0, trace).Ok? && |Run(0, trace).value.completed| == 1
            && Run(0, trace).value.completed[0].state == Red
            && Run(0, trace).value.completed[0].confirmedRange.Contains(trace[0].timeMs)
  {
    var trace := [SignalObservation(5, Green), SignalObservation(5, Red), SignalObservation(9, Green)];
    assert trace[..2][..1] == trace[..1] && trace[..1][..0] == [];
    assert Run(0, trace[..1]) == Step(FRESH, 0, trace[0]);
    assert Run(0, trace[..2]) == Step(Run(0, trace[..1]).value, 0, trace[1]);
  }
}
