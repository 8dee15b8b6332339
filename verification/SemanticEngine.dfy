/** The live semantic engine: a bounded run over the windows of a short video. */
module SemanticEngine {
  import opened Contracts
  import opened Windows
  import SemanticReasoning

  const MAX_VIDEO_DURATION_MS := 60000
  const MAX_REQUESTS := 6

  // ---------------------------------------------------------------- what comes from outside

  /** The answer to one check for cancellation and deadline. */
  datatype Poll = Go | CancelNow | DeadlineOver

  datatype Finding = Finding(startMs: int, endMs: int)

  datatype ConditionAssessment = ConditionAssessment(conditionId: string, decision: SemanticReasoning.Decision, events: seq<Finding>)

  /** One physical request to the provider. */
  datatype Attempt = Answer(assessment: seq<ConditionAssessment>) | Retryable | Fatal

  datatype WindowScript = WindowScript(clipExact: bool, attempts: seq<Attempt>)

  datatype Setup = Setup(
    semanticSpec: bool, conditionIds: seq<string>, anyRoi: bool, windowMs: nat, strideMs: nat, specCalls: nat, maxDurationMs: nat,
    contextCalls: nat, maxRetries: int, durationMs: int, sourceIntact: bool)

  // ---------------------------------------------------------------- what a run produces

  datatype Phase = Running | Completed | Failed | Cancelled

  datatype Update = Update(phase: Phase, processed: seq<TimeRange>, requested: nat, processedSamples: nat, sequence: nat)

  datatype FoundEvent = FoundEvent(range: TimeRange, conditionId: string, inconclusive: bool)

  datatype Stop = CancelStop | FailStop

  function MaxCalls(s: Setup): nat {
    Min(MAX_REQUESTS, Min(s.specCalls, s.contextCalls))
  }

  function Retries(s: Setup): nat {
    Min(2, Max(0, s.maxRetries))
  }

  predicate DistinctIds(ids: seq<string>) {
    forall i, j :: 0 <= i < j < |ids| ==> ids[i] != ids[j]
  }

  predicate Configured(s: Setup) {
    s.semanticSpec && DistinctIds(s.conditionIds) && 1 <= |s.conditionIds| <= 3 && s.strideMs == s.windowMs && s.windowMs > 0 && !s.anyRoi
  }

  predicate SourceAccepted(s: Setup) {
    0 < s.durationMs <= Min(MAX_VIDEO_DURATION_MS, s.maxDurationMs) && s.sourceIntact
  }

  function WindowsOf(s: Setup): seq<TimeRange>
    requires Configured(s) && SourceAccepted(s)
  {
    WindowsFrom(0, s.durationMs, s.windowMs, s.strideMs)
  }

  // ---------------------------------------------------------------- validating an answer

  function IdsOf(a: seq<ConditionAssessment>): (r: seq<string>)
    ensures |r| == |a| && forall i :: 0 <= i < |a| ==> r[i] == a[i].conditionId
  {
    seq(|a|, i requires 0 <= i < |a| => a[i].conditionId)
  }

  function IdSet(ids: seq<string>): set<string> {
    set id | id in ids
  }

  predicate FindingFits(f: Finding, lengthMs: int) {
    0 <= f.startMs < f.endMs <= lengthMs
  }

  predicate ConditionValid(c: ConditionAssessment, lengthMs: int) {
    (c.decision == SemanticReasoning.Absent <==> c.events == [])
    && forall i :: 0 <= i < |c.events| ==> FindingFits(c.events[i], lengthMs)
  }

  /** As many assessments as conditions, about the same conditions; absent exactly when without events;
      every event within the clip. */
  predicate AssessmentValid(a: seq<ConditionAssessment>, ids: seq<string>, lengthMs: int) {
    && |a| == |ids| && IdSet(IdsOf(a)) == IdSet(ids)
    && forall i :: 0 <= i < |a| ==> ConditionValid(a[i], lengthMs)
  }

  // ---------------------------------------------------------------- the events of an answer

  function EventOf(window: TimeRange, c: ConditionAssessment, f: Finding): FoundEvent
    requires FindingFits(f, window.endMs - window.startMs)
  {
    FoundEvent(TimeRange(window.startMs + f.startMs, window.startMs + f.endMs), c.conditionId,
               c.decision == SemanticReasoning.Uncertain)
  }

  function EventsOfCondition(window: TimeRange, c: ConditionAssessment, n: nat): seq<FoundEvent>
    requires ConditionValid(c, window.endMs - window.startMs) && n <= |c.events|
  {
    if n == 0 then [] else EventsOfCondition(window, c, n - 1) + [EventOf(window, c, c.events[n - 1])]
  }

  function EventsOfAnswer(window: TimeRange, a: seq<ConditionAssessment>, n: nat): seq<FoundEvent>
    requires n <= |a| && forall i :: 0 <= i < |a| ==> ConditionValid(a[i], window.endMs - window.startMs)
  {
    if n == 0 then [] else EventsOfAnswer(window, a, n - 1) + EventsOfCondition(window, a[n - 1], |a[n - 1].events|)
  }

  ghost predicate AnswersValid(windows: seq<TimeRange>, answers: seq<seq<ConditionAssessment>>, ids: seq<string>) {
    |answers| <= |windows|
    && forall i :: 0 <= i < |answers| ==> AssessmentValid(answers[i], ids, windows[i].endMs - windows[i].startMs)
  }

  ghost function EventsOfRun(windows: seq<TimeRange>, answers: seq<seq<ConditionAssessment>>, ids: seq<string>, n: nat): seq<FoundEvent>
    requires AnswersValid(windows, answers, ids) && n <= |answers|
  {
    if n == 0 then []
    else EventsOfRun(windows, answers, ids, n - 1) + EventsOfAnswer(windows[n - 1], answers[n - 1], |answers[n - 1]|)
  }

  // ---------------------------------------------------------------- the run

  ghost predicate Numbered(updates: seq<Update>) {
    forall k :: 0 <= k < |updates| ==> updates[k].sequence == k && updates[k].processedSamples == |updates[k].processed|
  }

  ghost predicate AllRunning(updates: seq<Update>) {
    forall k :: 0 <= k < |updates| ==> updates[k].phase == Running
  }

  /** No cancellation or deadline gets in the way, and neither evidence, publishing nor an update fails. */
  ghost predicate Undisturbed(poll: nat -> Poll, works: nat -> bool, sink: nat -> bool) {
    forall n :: poll(n) == Go && works(n) && sink(n)
  }

  predicate Within(e: FoundEvent, window: TimeRange) {
    e.range.Ordered() && window.startMs <= e.range.startMs && e.range.endMs <= window.endMs
  }

  predicate AllIn(events: seq<FoundEvent>, window: TimeRange) {
    forall k :: 0 <= k < |events| ==> Within(events[k], window)
  }

  lemma {:induction false} ConditionEventsWithin(window: TimeRange, c: ConditionAssessment, n: nat)
    requires ConditionValid(c, window.endMs - window.startMs) && n <= |c.events|
    ensures AllIn(EventsOfCondition(window, c, n), window) && |EventsOfCondition(window, c, n)| == n
  {
    if n > 0 {
      ConditionEventsWithin(window, c, n - 1);
    }
  }

  predicate Accepted(s: Setup) {
    Configured(s) && SourceAccepted(s)
  }

  ghost predicate Growing(updates: seq<Update>, coverage: seq<TimeRange>) {
    forall k :: 0 <= k < |updates| ==> updates[k].processed <= coverage
  }

  /** Running updates, then exactly one that tells the outcome; none claims more than was covered. */
  ghost predicate Reported(updates: seq<Update>, coverage: seq<TimeRange>, outcome: Phase) {
    && |updates| > 0 && updates[|updates| - 1].phase == outcome && outcome != Running
    && updates[|updates| - 1].processed == coverage
    && AllRunning(updates[..|updates| - 1]) && Growing(updates, coverage)
  }

  /** Every window so far has a valid answer that one of its attempts gave. */
  ghost predicate Answered(s: Setup, script: nat -> WindowScript, windows: seq<TimeRange>, answers: seq<seq<ConditionAssessment>>) {
    AnswersValid(windows, answers, s.conditionIds)
    && forall i :: 0 <= i < |answers| ==> script(i).clipExact && Answer(answers[i]) in script(i).attempts
  }

  /** The coverage tiles the source, every window was validly answered, and the events are exactly
      those of the answers. */
  ghost predicate CoversAll(s: Setup, script: nat -> WindowScript, coverage: seq<TimeRange>, events: seq<FoundEvent>,
                            answers: seq<seq<ConditionAssessment>>)
    requires Accepted(s)
  {
    && coverage == WindowsOf(s) && Tiles(coverage, 0, s.durationMs)
    && |answers| == |coverage| && Answered(s, script, coverage, answers)
    && events == EventsOfRun(coverage, answers, s.conditionIds, |answers|)
  }

  /** The first attempt at a window gives a valid answer to an exact clip. */
  ghost predicate Straight(s: Setup, w: WindowScript, window: TimeRange) {
    w.clipExact && |w.attempts| > 0 && w.attempts[0].Answer?
    && AssessmentValid(w.attempts[0].assessment, s.conditionIds, window.endMs - window.startMs)
  }

  ghost predicate AllStraight(s: Setup, script: nat -> WindowScript)
    requires Accepted(s)
  {
    forall i :: 0 <= i < |WindowsOf(s)| ==> Straight(s, script(i), WindowsOf(s)[i])
  }

  function Whole(s: Setup): TimeRange
    requires Accepted(s)
  {
    TimeRange(0, s.durationMs)
  }

  /** What has been covered and found after the first i windows. */
  ghost predicate InProgress(s: Setup, script: nat -> WindowScript, windows: seq<TimeRange>, answers: seq<seq<ConditionAssessment>>,
                             i: nat, coverage: seq<TimeRange>, events: seq<FoundEvent>)
    requires Accepted(s)
  {
    && i <= |windows| && coverage == windows[..i] && |answers| == i && AllIn(events, Whole(s))
    && Answered(s, script, windows, answers) && events == EventsOfRun(windows, answers, s.conditionIds, i)
  }

  /** n running updates, none claiming more than was covered. */
  ghost predicate Sent(updates: seq<Update>, coverage: seq<TimeRange>, n: nat) {
    |updates| == n && AllRunning(updates) && Growing(updates, coverage)
  }

  /** The outcome was reported; or else the sink took no update that tells an outcome. */
  ghost predicate Told(told: bool, updates: seq<Update>, coverage: seq<TimeRange>, outcome: Phase) {
    if told then Reported(updates, coverage, outcome) else Sent(updates, coverage, |updates|)
  }

  class SemanticRun {
    const setup: Setup
    const poll: nat -> Poll
    const works: nat -> bool
    const script: nat -> WindowScript
    const sink: nat -> bool
    var polls: nat
    var sends: nat
    var calls: nat
    var sequence: nat
    var requested: nat
    var coverage: seq<TimeRange>
    var events: seq<FoundEvent>
    /** What the sink has received. */
    var updates: seq<Update>

    constructor (setup: Setup, poll: nat -> Poll, works: nat -> bool, script: nat -> WindowScript, sink: nat -> bool)
      ensures this.setup == setup && this.poll == poll && this.works == works && this.script == script && this.sink == sink
      ensures calls == 0 && sequence == 0 && coverage == [] && events == [] && updates == []
    {
      this.setup, this.poll, this.works, this.script, this.sink := setup, poll, works, script, sink;
      polls, sends, calls, sequence, requested := 0, 0, 0, 0, 0;
      coverage, events, updates := [], [], [];
    }

    ghost predicate Valid()
      reads this
    {
      sequence == |updates| && Numbered(updates) && calls <= MaxCalls(setup)
    }

    method CheckCancelled() returns (stop: Option<Stop>)
      modifies this`polls
      ensures Undisturbed(poll, works, sink) ==> stop.None?
    {
      var now := poll(polls);
      polls := polls + 1;
      stop := match now
        case Go => None
        case CancelNow => Some(CancelStop)
        case DeadlineOver => Some(FailStop);
    }

    /** Guards one physical request. */
    method BeforeAttempt() returns (stop: Option<Stop>)
      requires Valid()
      modifies this`polls, this`calls
      ensures Valid()
      ensures calls == if stop.None? then old(calls) + 1 else old(calls)
      ensures Undisturbed(poll, works, sink) && old(calls) < MaxCalls(setup) ==> stop.None?
    {
      stop := CheckCancelled();
      if stop.Some? {
        return;
      }
      if calls >= MaxCalls(setup) {
        return Some(FailStop);
      }
      calls := calls + 1;
    }

    /** The provider call for one window: retries only what is retryable, each request guarded. */
    method Generate(attempts: seq<Attempt>) returns (r: Result<seq<ConditionAssessment>, Stop>)
      requires Valid()
      modifies this`polls, this`calls
      ensures Valid() && old(calls) <= calls <= old(calls) + Retries(setup) + 1
      ensures r.Ok? ==> calls > old(calls) && Answer(r.value) in attempts
      ensures Undisturbed(poll, works, sink) && old(calls) < MaxCalls(setup) && |attempts| > 0 && attempts[0].Answer? ==>
                r == Ok(attempts[0].assessment) && calls == old(calls) + 1
    {
      for attempt := 0 to Retries(setup) + 1
        invariant Valid() && calls == old(calls) + attempt
        invariant attempt > 0 ==> |attempts| == 0 || !attempts[0].Answer?
      {
        var stop := BeforeAttempt();
        if stop.Some? {
          return Err(stop.value);
        }
        if attempt >= |attempts| || attempts[attempt].Fatal? || (attempts[attempt].Retryable? && attempt == Retries(setup)) {
          return Err(FailStop);
        }
        if attempts[attempt].Answer? {
          return Ok(attempts[attempt].assessment);
        }
      }
      r := Err(FailStop);
    }

    /** Hands an update to the sink; its number is used up only when the sink takes it. */
    method Progress(phase: Phase) returns (taken: bool)
      requires Valid()
      modifies this`sends, this`updates, this`sequence
      ensures Valid() && taken == sink(old(sends))
      ensures updates == if taken then old(updates) + [Update(phase, coverage, requested, |coverage|, old(sequence))]
                         else old(updates)
    {
      taken := sink(sends);
      sends := sends + 1;
      if taken {
        updates := updates + [Update(phase, coverage, requested, |coverage|, sequence)];
        sequence := sequence + 1;
      }
    }

    /** Publishes the events of one condition, or stops on the way. */
    method PublishCondition(window: TimeRange, c: ConditionAssessment) returns (stop: Option<Stop>)
      requires ConditionValid(c, window.endMs - window.startMs)
      modifies this`polls, this`events
      ensures stop.None? ==> events == old(events) + EventsOfCondition(window, c, |c.events|)
      ensures old(events) <= events && AllIn(events[|old(events)|..], window)
      ensures Undisturbed(poll, works, sink) ==> stop.None?
    {
      ghost var before := events;
      assert events == before + EventsOfCondition(window, c, 0);
      for n := 0 to |c.events|
        invariant events == before + EventsOfCondition(window, c, n)
      {
        ConditionEventsWithin(window, c, n);
        stop := CheckCancelled();
        if stop.Some? {
          return;
        }
        var found := EventOf(window, c, c.events[n]);
        if !works(2 * |events|) {
          return Some(FailStop);
        }
        stop := CheckCancelled();
        if stop.Some? {
          return;
        }
        if !works(2 * |events| + 1) {
          return Some(FailStop);
        }
        events := events + [found];
        assert events == before + EventsOfCondition(window, c, n + 1);
      }
      ConditionEventsWithin(window, c, |c.events|);
      stop := None;
    }

    /** Publishes the events of a valid answer, condition by condition. */
    method PublishAnswer(window: TimeRange, a: seq<ConditionAssessment>) returns (stop: Option<Stop>)
      requires forall i :: 0 <= i < |a| ==> ConditionValid(a[i], window.endMs - window.startMs)
      modifies this`polls, this`events
      ensures stop.None? ==> events == old(events) + EventsOfAnswer(window, a, |a|)
      ensures old(events) <= events && AllIn(events[|old(events)|..], window)
      ensures Undisturbed(poll, works, sink) ==> stop.None?
    {
      ghost var before := events;
      assert events == before + EventsOfAnswer(window, a, 0);
      for n := 0 to |a|
        invariant events == before + EventsOfAnswer(window, a, n)
        invariant before <= events && AllIn(events[|before|..], window)
      {
        ghost var middle := events;
        stop := PublishCondition(window, a[n]);
        StillIn(before, middle, events, window);
        if stop.Some? {
          return;
        }
        assert events == before + EventsOfAnswer(window, a, n + 1);
      }
      stop := None;
    }

    /** One window: clip, answer, validation, publishing. */
    method AssessWindow(i: nat, window: TimeRange) returns (stop: Option<Stop>, ghost answer: seq<ConditionAssessment>)
      requires Valid()
      modifies this`polls, this`calls, this`events
      ensures Valid() && old(calls) <= calls
      ensures old(events) <= events && AllIn(events[|old(events)|..], window)
      ensures stop.None? ==>
                && script(i).clipExact && Answer(answer) in script(i).attempts
                && AssessmentValid(answer, setup.conditionIds, window.endMs - window.startMs)
                && events == old(events) + EventsOfAnswer(window, answer, |answer|) && calls > old(calls)
      ensures Undisturbed(poll, works, sink) && old(calls) < MaxCalls(setup) && Straight(setup, script(i), window) ==>
                stop.None? && calls == old(calls) + 1
    {
      answer := [];
      stop := CheckCancelled();
      if stop.Some? {
        return;
      }
      if !script(i).clipExact {
        return Some(FailStop), answer;
      }
      stop := CheckCancelled();
      if stop.Some? {
        return;
      }
      var response := Generate(script(i).attempts);
      if response.Err? {
        return Some(response.error), answer;
      }
      answer := response.value;
      if !AssessmentValid(response.value, setup.conditionIds, window.endMs - window.startMs) {
        return Some(FailStop), answer;
      }
      stop := CheckCancelled();
      if stop.Some? {
        return;
      }
      stop := PublishAnswer(window, response.value);
    }

    /** The last update, if the sink takes it. */
    method Conclude(phase: Phase) returns (told: bool)
      requires Valid() && phase != Running && Sent(updates, coverage, |updates|)
      modifies this`sends, this`updates, this`sequence
      ensures Valid() && Told(told, updates, coverage, phase)
      ensures told == sink(old(sends))
    {
      ghost var before := updates;
      told := Progress(phase);
      assert told ==> updates[..|updates| - 1] == before;
    }

    /** The last update of a run that was stopped. */
    method Finish(stop: Stop) returns (outcome: Phase, told: bool)
      requires Valid() && Sent(updates, coverage, |updates|)
      modifies this`sends, this`updates, this`sequence
      ensures Valid() && outcome == (if stop.CancelStop? && told then Cancelled else Failed)
      ensures Told(told, updates, coverage, outcome)
    {
      told := Conclude(if stop.CancelStop? then Cancelled else Failed);
      outcome := if stop.CancelStop? && told then Cancelled else Failed;
    }

    /** One round of the loop over the windows. */
    method Round(windows: seq<TimeRange>, ghost answers: seq<seq<ConditionAssessment>>, i: nat)
      returns (stop: Option<Stop>, ghost more: seq<seq<ConditionAssessment>>)
      requires Valid() && Accepted(setup) && i < |windows| && windows == WindowsOf(setup)
      requires InProgress(setup, script, windows, answers, i, coverage, events) && Sent(updates, coverage, i + 1)
      modifies this`polls, this`calls, this`events, this`coverage, this`sends, this`updates, this`sequence
      ensures Valid() && AllIn(events, Whole(setup))
      ensures stop.Some? ==> Sent(updates, coverage, i + 1)
      ensures stop.None? ==> Sent(updates, coverage, i + 2) && InProgress(setup, script, windows, more, i + 1, coverage, events)
      ensures calls >= old(calls) + if stop.None? then 1 else 0
      ensures Undisturbed(poll, works, sink) && old(calls) < MaxCalls(setup) && Straight(setup, script(i), windows[i]) ==>
                stop.None? && calls == old(calls) + 1
    {
      hide EventsOfAnswer, EventsOfRun, AssessmentValid, AnswersValid, Straight, Answered, WindowsOf;
      ghost var before := events;
      ghost var answer;
      more := answers;
      WindowInWhole(setup, windows, i);
      stop, answer := AssessWindow(i, windows[i]);
      Enlarge(before, events, windows[i], Whole(setup));
      if stop.Some? {
        return;
      }
      RoundKeeps(setup, script, windows, answers, answer, i, coverage, before, events);
      coverage := coverage + [windows[i]];
      more := answers + [answer];
      var taken := Progress(Running);
      stop := if taken then None else Some(FailStop);
    }

    /** Checks configuration, source and budget, and cuts the windows. */
    method Prepare() returns (r: Result<seq<TimeRange>, Stop>)
      requires Valid() && updates == []
      modifies this`polls, this`sends, this`updates, this`sequence, this`requested
      ensures Valid() && Sent(updates, coverage, |updates|)
      ensures r.Ok? ==> |updates| == 1 && Accepted(setup) && r.value == WindowsOf(setup) && |r.value| <= MaxCalls(setup)
      ensures Undisturbed(poll, works, sink) && Accepted(setup) && |WindowsOf(setup)| <= MaxCalls(setup) ==> r.Ok?
    {
      var taken := Progress(Running);
      if !taken {
        return Err(FailStop);
      }
      var stop := CheckCancelled();
      if stop.Some? {
        return Err(stop.value);
      }
      if !Configured(setup) || !SourceAccepted(setup) {
        return Err(FailStop);
      }
      var windows := WindowsFrom(0, setup.durationMs, setup.windowMs, setup.strideMs);
      requested := |windows|;
      r := if requested > MaxCalls(setup) then Err(FailStop) else Ok(windows);
    }

    /** All windows in turn. */
    method Cover(windows: seq<TimeRange>) returns (stop: Option<Stop>, ghost answers: seq<seq<ConditionAssessment>>)
      requires Valid() && Accepted(setup) && windows == WindowsOf(setup) && |windows| <= MaxCalls(setup)
      requires calls == 0 && coverage == [] && events == [] && Sent(updates, coverage, 1)
      modifies this`polls, this`calls, this`events, this`coverage, this`sends, this`updates, this`sequence
      ensures Valid() && Sent(updates, coverage, |updates|) && AllIn(events, Whole(setup))
      ensures stop.None? ==> CoversAll(setup, script, coverage, events, answers) && |windows| <= calls
      ensures Undisturbed(poll, works, sink) && AllStraight(setup, script) ==> stop.None? && calls == |windows|
    {
      answers := [];
      for i := 0 to |windows|
        invariant Valid() && i <= calls && AllIn(events, Whole(setup))
        invariant InProgress(setup, script, windows, answers, i, coverage, events) && Sent(updates, coverage, i + 1)
        invariant Undisturbed(poll, works, sink) && AllStraight(setup, script) ==> calls == i
      {
        stop, answers := Round(windows, answers, i);
        if stop.Some? {
          return;
        }
      }
      DoneCovers(setup, script, windows, answers, coverage, events);
      stop := CheckCancelled();
    }

    /** `told` says whether the sink took the update with the outcome. */
    method Run() returns (outcome: Phase, told: bool, ghost answers: seq<seq<ConditionAssessment>>)
      requires Valid() && calls == 0 && coverage == [] && events == [] && updates == []
      modifies this
      ensures Valid() && Told(told, updates, coverage, outcome) && (outcome == Completed ==> told)
      ensures outcome == Completed ==> Accepted(setup) && |WindowsOf(setup)| <= calls
      ensures outcome == Completed ==> CoversAll(setup, script, coverage, events, answers)
      ensures events != [] ==> Accepted(setup) && AllIn(events, Whole(setup))
      ensures Undisturbed(poll, works, sink) && Accepted(setup) && |WindowsOf(setup)| <= MaxCalls(setup) && AllStraight(setup, script) ==>
                outcome == Completed && calls == |WindowsOf(setup)|
    {
      answers := [];
      var prepared := Prepare();
      if prepared.Err? {
        outcome, told := Finish(prepared.error);
        return;
      }
      var stop;
      stop, answers := Cover(prepared.value);
      if stop.Some? {
        outcome, told := Finish(stop.value);
        return;
      }
      told := Conclude(Completed);
      outcome := if told then Completed else Failed;
    }
  }

  lemma WindowInWhole(s: Setup, windows: seq<TimeRange>, i: nat)
    requires Accepted(s) && windows == WindowsOf(s) && i < |windows|
    ensures Whole(s).startMs <= windows[i].startMs && windows[i].endMs <= Whole(s).endMs
  {
    WindowsFit(0, s.durationMs, s.windowMs, s.strideMs);
    assert windows[i] in windows;
  }

  lemma RoundKeeps(s: Setup, script: nat -> WindowScript, windows: seq<TimeRange>, answers: seq<seq<ConditionAssessment>>,
                   answer: seq<ConditionAssessment>, i: nat, coverage: seq<TimeRange>, before: seq<FoundEvent>, events: seq<FoundEvent>)
    requires Accepted(s) && InProgress(s, script, windows, answers, i, coverage, before) && i < |windows| && AllIn(events, Whole(s))
    requires AssessmentValid(answer, s.conditionIds, windows[i].endMs - windows[i].startMs)
    requires script(i).clipExact && Answer(answer) in script(i).attempts
    requires events == before + EventsOfAnswer(windows[i], answer, |answer|)
    ensures InProgress(s, script, windows, answers + [answer], i + 1, coverage + [windows[i]], events)
  {
    var more := answers + [answer];
    assert AnswersValid(windows, more, s.conditionIds) && events == EventsOfRun(windows, more, s.conditionIds, i + 1) by {
      RunEventsNext(windows, answers, answer, s.conditionIds);
    }
    assert Answered(s, script, windows, more) by {
      AnsweredNext(s, script, windows, answers, answer);
    }
    assert windows[..i + 1] == windows[..i] + [windows[i]];
  }

  lemma AnsweredNext(s: Setup, script: nat -> WindowScript, windows: seq<TimeRange>, answers: seq<seq<ConditionAssessment>>,
                     answer: seq<ConditionAssessment>)
    requires Answered(s, script, windows, answers) && AnswersValid(windows, answers + [answer], s.conditionIds)
    requires script(|answers|).clipExact && Answer(answer) in script(|answers|).attempts
    ensures Answered(s, script, windows, answers + [answer])
  {
  }

  lemma DoneCovers(s: Setup, script: nat -> WindowScript, windows: seq<TimeRange>, answers: seq<seq<ConditionAssessment>>,
                   coverage: seq<TimeRange>, events: seq<FoundEvent>)
    requires Accepted(s) && windows == WindowsOf(s) && InProgress(s, script, windows, answers, |windows|, coverage, events)
    ensures CoversAll(s, script, coverage, events, answers)
  {
    assert windows[..|windows|] == windows;
    EqualStrideTiles(0, s.durationMs, s.windowMs);
  }

  lemma Enlarge(before: seq<FoundEvent>, events: seq<FoundEvent>, window: TimeRange, whole: TimeRange)
    requires before <= events && AllIn(before, whole) && AllIn(events[|before|..], window)
    requires whole.startMs <= window.startMs && window.endMs <= whole.endMs
    ensures AllIn(events, whole)
  {
    forall k | 0 <= k < |events| ensures Within(events[k], whole) {
      if k < |before| {
        assert events[k] == before[k];
      } else {
        assert events[k] == events[|before|..][k - |before|];
      }
    }
  }

  lemma {:induction false} RunEventsPrefix(windows: seq<TimeRange>, answers: seq<seq<ConditionAssessment>>,
                                           answer: seq<ConditionAssessment>, ids: seq<string>, n: nat)
    requires AnswersValid(windows, answers, ids) && AnswersValid(windows, answers + [answer], ids) && n <= |answers|
    ensures EventsOfRun(windows, answers + [answer], ids, n) == EventsOfRun(windows, answers, ids, n)
  {
    if n > 0 {
      RunEventsPrefix(windows, answers, answer, ids, n - 1);
    }
  }

  lemma RunEventsNext(windows: seq<TimeRange>, answers: seq<seq<ConditionAssessment>>, answer: seq<ConditionAssessment>, ids: seq<string>)
    requires AnswersValid(windows, answers, ids) && |answers| < |windows|
    requires var w := windows[|answers|]; AssessmentValid(answer, ids, w.endMs - w.startMs)
    ensures AnswersValid(windows, answers + [answer], ids)
    ensures EventsOfRun(windows, answers + [answer], ids, |answers| + 1) ==
            EventsOfRun(windows, answers, ids, |answers|) + EventsOfAnswer(windows[|answers|], answer, |answer|)
  {
    RunEventsPrefix(windows, answers, answer, ids, |answers|);
  }

  // ---------------------------------------------------------------- what a completed run says

  lemma {:induction false} NoEventsOfAnswer(window: TimeRange, a: seq<ConditionAssessment>, n: nat)
    requires n <= |a| && forall i :: 0 <= i < |a| ==> ConditionValid(a[i], window.endMs - window.startMs)
    ensures EventsOfAnswer(window, a, n) == [] <==> forall i :: 0 <= i < n ==> a[i].decision == SemanticReasoning.Absent
  {
    if n > 0 {
      NoEventsOfAnswer(window, a, n - 1);
      ConditionEventsWithin(window, a[n - 1], |a[n - 1].events|);
    }
  }

  ghost predicate AllAbsent(a: seq<ConditionAssessment>) {
    forall i :: 0 <= i < |a| ==> a[i].decision == SemanticReasoning.Absent
  }

  lemma SilentAnswer(window: TimeRange, a: seq<ConditionAssessment>, ids: seq<string>)
    requires AssessmentValid(a, ids, window.endMs - window.startMs)
    ensures EventsOfAnswer(window, a, |a|) == [] <==> AllAbsent(a)
  {
    NoEventsOfAnswer(window, a, |a|);
  }

  lemma NothingAppended(a: seq<FoundEvent>, b: seq<FoundEvent>)
    ensures a + b == [] <==> a == [] && b == []
  {
  }

  lemma {:induction false} NoEventsOfRun(windows: seq<TimeRange>, answers: seq<seq<ConditionAssessment>>, ids: seq<string>, n: nat)
    requires AnswersValid(windows, answers, ids) && n <= |answers|
    ensures EventsOfRun(windows, answers, ids, n) == [] <==> forall i :: 0 <= i < n ==> AllAbsent(answers[i])
  {
    if n > 0 {
      NoEventsOfRun(windows, answers, ids, n - 1);
      SilentAnswer(windows[n - 1], answers[n - 1], ids);
      NothingAppended(EventsOfRun(windows, answers, ids, n - 1),
                      EventsOfAnswer(windows[n - 1], answers[n - 1], |answers[n - 1]|));
    }
  }

  lemma MembersOfIds(a: seq<ConditionAssessment>, ids: seq<string>, lengthMs: int, id: string)
    requires AssessmentValid(a, ids, lengthMs)
    ensures id in ids <==> exists i :: 0 <= i < |a| && a[i].conditionId == id
  {
    var returned := IdsOf(a);
    assert id in ids <==> id in IdSet(ids);
    assert id in returned <==> id in IdSet(returned);
    if id in ids {
      var i :| 0 <= i < |returned| && returned[i] == id;
      assert a[i].conditionId == id;
    }
    if i :| 0 <= i < |a| && a[i].conditionId == id {
      assert returned[i] in returned;
    }
  }

  /** A completed run without events means absence: at every instant of the source, every condition
      was assessed absent by a valid answer for the window around it. */
  lemma EmptyMeansAbsent(s: Setup, script: nat -> WindowScript, coverage: seq<TimeRange>, events: seq<FoundEvent>,
                         answers: seq<seq<ConditionAssessment>>)
    requires Accepted(s) && CoversAll(s, script, coverage, events, answers)
    ensures events == [] <==>
            forall t, id :: 0 <= t < s.durationMs && id in s.conditionIds ==> AbsentAround(coverage, answers, t, id)
  {
    NoEventsOfRun(coverage, answers, s.conditionIds, |answers|);
    if events == [] {
      forall t, id | 0 <= t < s.durationMs && id in s.conditionIds ensures AbsentAround(coverage, answers, t, id) {
        NoGaps(0, s.durationMs, s.windowMs, s.strideMs, t);
        var k :| 0 <= k < |coverage| && coverage[k].Contains(t);
        MembersOfIds(answers[k], s.conditionIds, coverage[k].endMs - coverage[k].startMs, id);
        assert AllAbsent(answers[k]);
      }
    }
    if forall t, id :: 0 <= t < s.durationMs && id in s.conditionIds ==> AbsentAround(coverage, answers, t, id) {
      forall k | 0 <= k < |answers| ensures AllAbsent(answers[k]) {
        WindowIsAbsent(s, coverage, answers, k);
      }
    }
  }

  /** Some answer whose window contains t assessed the condition, and every assessment of it there is absent. */
  ghost predicate AbsentAround(coverage: seq<TimeRange>, answers: seq<seq<ConditionAssessment>>, t: int, id: string)
    requires |answers| == |coverage|
  {
    exists k :: 0 <= k < |coverage| && coverage[k].Contains(t) && AbsentIn(answers[k], id)
  }

  ghost predicate AbsentIn(a: seq<ConditionAssessment>, id: string) {
    && (exists i :: 0 <= i < |a| && a[i].conditionId == id)
    && (forall i :: 0 <= i < |a| && a[i].conditionId == id ==> a[i].decision == SemanticReasoning.Absent)
  }

  lemma WindowIsAbsent(s: Setup, coverage: seq<TimeRange>, answers: seq<seq<ConditionAssessment>>, k: nat)
    requires Accepted(s) && Tiles(coverage, 0, s.durationMs) && |answers| == |coverage| && k < |coverage|
    requires AnswersValid(coverage, answers, s.conditionIds) && coverage == WindowsOf(s)
    requires forall t, id :: 0 <= t < s.durationMs && id in s.conditionIds ==> AbsentAround(coverage, answers, t, id)
    ensures AllAbsent(answers[k])
  {
    var t := coverage[k].startMs;
    WindowsFit(0, s.durationMs, s.windowMs, s.strideMs);
    assert coverage[k] in coverage && coverage[k].Contains(t);
    forall i | 0 <= i < |answers[k]| ensures answers[k][i].decision == SemanticReasoning.Absent {
      var id := answers[k][i].conditionId;
      MembersOfIds(answers[k], s.conditionIds, coverage[k].endMs - coverage[k].startMs, id);
      assert AbsentAround(coverage, answers, t, id);
      var j :| 0 <= j < |coverage| && coverage[j].Contains(t) && AbsentIn(answers[j], id);
      TilesOnce(coverage, 0, s.durationMs, j, k, t);
    }
  }

  lemma StillIn(before: seq<FoundEvent>, middle: seq<FoundEvent>, events: seq<FoundEvent>, window: TimeRange)
    requires before <= middle && AllIn(middle[|before|..], window)
    requires middle <= events && AllIn(events[|middle|..], window)
    ensures before <= events && AllIn(events[|before|..], window)
  {
    forall k | 0 <= k < |events| - |before| ensures Within(events[|before|..][k], window) {
      if k < |middle| - |before| {
        assert events[|before|..][k] == middle[|before|..][k];
      } else {
        assert events[|before|..][k] == events[|middle|..][k - (|middle| - |before|)];
      }
    }
  }
}
