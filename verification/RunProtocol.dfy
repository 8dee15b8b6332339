/** Jobs, leases and the domain store of the composed system; every operation runs alone. */
module RunProtocol {
  import opened Contracts
  import opened JobRecords
  import opened JobService
  import Repo = CoreRepository
  import Recovery

  /** One attempt that was granted, and the time span its lease has been good for. */
  datatype Grant = Grant(attempt: string, fence: nat, from: int, until: int)

  datatype Proto = Proto(jobs: Jobs, core: Repo.Core, clock: int, leaseMs: nat, grants: map<string, seq<Grant>>)

  datatype Op =
    | AddRun(run: string, doc: Repo.RunDoc)
    | Create(run: string)
    | Dispatch(run: string, invocation: string)
    | Start(run: string, newAttempt: string)
    | Beat(run: string, attempt: string, fence: nat)
    | Cancel(run: string)
    | Report(run: string, attempt: string, fence: nat, sequence: int)
    | Conclude(run: string, attempt: string, fence: nat, outcome: JobState)
    | Abort(run: string, attempt: string, fence: nat, update: Repo.Progress)
    | Publish(run: string, attempt: string, fence: nat, event: Repo.Event)
    | Record(run: string, attempt: string, fence: nat, update: Repo.Progress)
    | Tick(ms: nat)
    | Restart

  function GrantsOf(s: Proto, run: string): seq<Grant> {
    if run in s.grants then s.grants[run] else []
  }

  function Last(log: seq<Grant>): Grant
    requires |log| > 0
  {
    log[|log| - 1]
  }

  function Keep(s: Proto, r: Result<Jobs, JobError>): Proto {
    if r.Ok? then s.(jobs := r.value) else s
  }

  function Finalize(core: Repo.Core, run: string, attempt: string): Repo.Core {
    if run in core.runs && run in core.activeAttempts && core.activeAttempts[run] == attempt
    then Repo.Finalized(core, run, attempt) else core
  }

  /** The identifier factory never repeats itself. */
  predicate FreshAttempt(s: Proto, run: string, attempt: string) {
    Repo.AttemptKey(run, attempt) !in s.core.workers
    && forall n :: 0 <= n < |GrantsOf(s, run)| ==> GrantsOf(s, run)[n].attempt != attempt
  }

  /** A worker starting: it claims a lease and announces it to the domain store. */
  function StartWorker(s: Proto, run: string, newAttempt: string): Proto {
    var claimed := MutateStore(s.jobs, run, ClaimState(s.clock, newAttempt, s.leaseMs));
    if claimed.Err? || !FreshAttempt(s, run, newAttempt) then s
    else
      var job := claimed.value[run];
      var attempt := if job.attemptId.Some? then job.attemptId.value else "";
      var core := if Repo.MayClaim(s.core, run, attempt, job.fence)
                  then Repo.ClaimedCore(s.core, run, attempt, "local-worker", job.fence) else s.core;
      s.(jobs := claimed.value, core := core,
         grants := if job.fence == s.jobs[run].fence then s.grants
                   else s.grants[run := GrantsOf(s, run) + [Grant(attempt, job.fence, s.clock, s.clock + s.leaseMs)]])
  }

  function Heartbeat(s: Proto, run: string, attempt: string, fence: nat): Proto {
    var renewed := MutateStore(s.jobs, run, Renew(attempt, fence, s.clock, s.leaseMs));
    var log := GrantsOf(s, run);
    if renewed.Err? then s
    else s.(jobs := renewed.value,
            grants := if |log| == 0 then s.grants
                      else s.grants[run := log[|log| - 1 := Last(log).(until := s.clock + s.leaseMs)]])
  }

  /** A worker ending: a cancelled run is cancelled whatever the engine reports. */
  function ConcludeWorker(s: Proto, run: string, attempt: string, fence: nat, outcome: JobState): Proto {
    if run !in s.jobs then s
    else if outcome == Cancelled || s.jobs[run].cancelRequested then
      Keep(s, MutateStore(s.jobs, run, CancelState(s.clock))).(core := Finalize(s.core, run, attempt))
    else if !outcome.Terminal() then s
    else
      var finished := MutateStore(s.jobs, run, FinishState(attempt, fence, outcome));
      if finished.Err? then s else Keep(s, finished).(core := Finalize(s.core, run, attempt))
  }

  function CommitProgressTo(core: Repo.Core, run: string, attempt: string, fence: nat, update: Repo.Progress): Repo.Core {
    if Repo.MayCommit(core, run, attempt, fence) then Repo.WithProgress(core, run, attempt, fence, update) else core
  }

  /** A worker failing: nothing happens to a cancelled run. */
  function AbortWorker(s: Proto, run: string, attempt: string, fence: nat, update: Repo.Progress): Proto {
    if run !in s.jobs || s.jobs[run].state == Cancelled then s
    else
      var core := CommitProgressTo(s.core, run, attempt, fence, update);
      var finished := MutateStore(s.jobs, run, FinishState(attempt, fence, Failed));
      if finished.Err? then s.(core := core)
      else Keep(s, finished).(core := Finalize(core, run, attempt))
  }

  ghost function Step(s: Proto, op: Op): Proto {
    match op
    case AddRun(run, doc) => if run in s.core.runs then s else s.(core := s.core.(runs := s.core.runs[run := doc]))
    case Create(run) => s.(jobs := CreateStore(s.jobs, run))
    case Dispatch(run, invocation) => Keep(s, DispatchStore(s.jobs, run, invocation))
    case Start(run, newAttempt) => StartWorker(s, run, newAttempt)
    case Beat(run, attempt, fence) => Heartbeat(s, run, attempt, fence)
    case Cancel(run) => Keep(s, MutateStore(s.jobs, run, CancelState(s.clock)))
    case Report(run, attempt, fence, sequence) => Keep(s, MutateStore(s.jobs, run, CommitProgress(attempt, fence, sequence)))
    case Conclude(run, attempt, fence, outcome) => ConcludeWorker(s, run, attempt, fence, outcome)
    case Abort(run, attempt, fence, update) => AbortWorker(s, run, attempt, fence, update)
    case Publish(run, attempt, fence, event) =>
      if Repo.MayCommit(s.core, run, attempt, fence) then s.(core := Repo.WithEvent(s.core, run, fence, event)) else s
    case Record(run, attempt, fence, update) => s.(core := CommitProgressTo(s.core, run, attempt, fence, update))
    case Tick(ms) => s.(clock := s.clock + ms)
    case Restart =>
      var (core, jobs) := Recovery.Restart(s.core, s.jobs);
      s.(core := core, jobs := jobs)
  }

  ghost function Run(start: int, leaseMs: nat, ops: seq<Op>): Proto {
    if |ops| == 0 then Proto(map[], Repo.EMPTY_CORE, start, leaseMs, map[])
    else Step(Run(start, leaseMs, ops[..|ops| - 1]), ops[|ops| - 1])
  }

  // ---------------------------------------------------------------- the invariant of one run

  /** All the protocol state that belongs to one run. */
  datatype View = View(job: Option<Job>, log: seq<Grant>, stored: bool, active: Option<string>, fence: nat)

  function ViewOf(s: Proto, run: string): View {
    View(if run in s.jobs then Some(s.jobs[run]) else None, GrantsOf(s, run), run in s.core.runs,
         if run in s.core.activeAttempts then Some(s.core.activeAttempts[run]) else None, Repo.FenceOf(s.core, run))
  }

  predicate Numbered(log: seq<Grant>) {
    forall n :: 0 <= n < |log| ==> log[n].fence == n + 1
  }

  /** Leases follow each other without overlap. */
  predicate Succeeding(log: seq<Grant>) {
    (forall n :: 0 <= n < |log| ==> log[n].from <= log[n].until)
    && (forall n :: 0 < n < |log| ==> log[n - 1].until <= log[n].from)
  }

  predicate JobMatches(job: Job, log: seq<Grant>) {
    && (job.cancelRequested <==> job.state == Cancelled)
    && |log| <= job.fence
    && (job.revision == 0 ==> job.state == Queued && |log| == 0)
    && (!job.state.Terminal() ==>
          && job.fence == |log|
          && (|log| == 0 ==> job.attemptId.None?)
          && (|log| > 0 ==> job.attemptId == Some(Last(log).attempt) && job.leaseExpiresAt == Some(Last(log).until)))
  }

  predicate ViewOk(v: View, clock: int) {
    && Numbered(v.log) && Succeeding(v.log)
    && (|v.log| > 0 ==> Last(v.log).from <= clock)
    && (v.job.None? ==> v.log == [])
    && (v.job.Some? ==> JobMatches(v.job.value, v.log))
    && (v.active.Some? ==> v.stored && |v.log| > 0 && v.active.value == Last(v.log).attempt && |v.log| <= v.fence)
  }

  ghost predicate Inv(s: Proto) {
    s.leaseMs > 0 && forall run :: ViewOk(ViewOf(s, run), s.clock)
  }

  predicate Concerns(op: Op, run: string) {
    !op.Tick? && !op.Restart? && op.run == run
  }

  /** A store mutation of one run leaves the other runs alone. */
  lemma OtherJobsUntouched(jobs: Jobs, run: string, m: Mutation, other: string)
    requires other != run
    ensures var r := MutateStore(jobs, run, m);
            r.Ok? ==> (other in r.value <==> other in jobs) && (other in jobs ==> r.value[other] == jobs[other])
  {
  }

  lemma OthersUntouchedByStart(s: Proto, r: string, newAttempt: string, run: string)
    requires r != run
    ensures ViewOf(StartWorker(s, r, newAttempt), run) == ViewOf(s, run)
  {
    OtherJobsUntouched(s.jobs, r, ClaimState(s.clock, newAttempt, s.leaseMs), run);
  }

  lemma OthersUntouchedByConclude(s: Proto, r: string, attempt: string, fence: nat, outcome: JobState, run: string)
    requires r != run
    ensures ViewOf(ConcludeWorker(s, r, attempt, fence, outcome), run) == ViewOf(s, run)
  {
    OtherJobsUntouched(s.jobs, r, CancelState(s.clock), run);
    OtherJobsUntouched(s.jobs, r, FinishState(attempt, fence, outcome), run);
  }

  /** Committing to and finalizing one run leaves the domain state of the others alone. */
  lemma OtherRunsUntouched(core: Repo.Core, r: string, attempt: string, fence: nat, update: Repo.Progress, run: string)
    requires r != run
    ensures var committed := CommitProgressTo(core, r, attempt, fence, update);
            && (run in committed.runs <==> run in core.runs) && committed.activeAttempts == core.activeAttempts
            && Repo.FenceOf(committed, run) == Repo.FenceOf(core, run)
    ensures var final := Finalize(core, r, attempt);
            && (run in final.runs <==> run in core.runs) && final.activeAttempts == core.activeAttempts
            && final.fences == core.fences
  {
  }

  lemma OthersUntouchedByAbort(s: Proto, r: string, attempt: string, fence: nat, update: Repo.Progress, run: string)
    requires r != run
    ensures ViewOf(AbortWorker(s, r, attempt, fence, update), run) == ViewOf(s, run)
  {
    var core := CommitProgressTo(s.core, r, attempt, fence, update);
    OtherJobsUntouched(s.jobs, r, FinishState(attempt, fence, Failed), run);
    OtherRunsUntouched(s.core, r, attempt, fence, update, run);
    OtherRunsUntouched(core, r, attempt, fence, update, run);
  }

  lemma OthersUntouched(s: Proto, op: Op, run: string)
    requires !op.Restart? && !Concerns(op, run)
    ensures ViewOf(Step(s, op), run) == ViewOf(s, run)
  {
    hide StartWorker, ConcludeWorker, AbortWorker, ViewOf, DispatchStore, MutateStore;
    match op
    case Start(r, newAttempt) => OthersUntouchedByStart(s, r, newAttempt, run);
    case Conclude(r, attempt, fence, outcome) => OthersUntouchedByConclude(s, r, attempt, fence, outcome, run);
    case Abort(r, attempt, fence, update) => OthersUntouchedByAbort(s, r, attempt, fence, update, run);
    case Tick(ms) => TickUntouched(s, ms, run);
    case AddRun(_, _) => OthersUntouchedInCore(s, op, run);
    case Publish(_, _, _, _) => OthersUntouchedInCore(s, op, run);
    case Record(_, _, _, _) => OthersUntouchedInCore(s, op, run);
    case _ => OthersUntouchedInJobs(s, op, run);
  }

  lemma TickUntouched(s: Proto, ms: nat, run: string)
    ensures ViewOf(Step(s, Tick(ms)), run) == ViewOf(s, run)
  {
  }

  lemma OthersUntouchedInCore(s: Proto, op: Op, run: string)
    requires (op.AddRun? || op.Publish? || op.Record?) && !Concerns(op, run)
    ensures ViewOf(Step(s, op), run) == ViewOf(s, run)
  {
  }

  lemma OthersUntouchedInJobs(s: Proto, op: Op, run: string)
    requires (op.Create? || op.Dispatch? || op.Beat? || op.Cancel? || op.Report?) && !Concerns(op, run)
    ensures ViewOf(Step(s, op), run) == ViewOf(s, run)
  {
    hide Committed;
  }

  /** Mutations that neither claim nor renew keep a job in step with its grants; a finish may only
      come while nobody has asked for cancellation, a mark only while the run is open. */
  lemma MutationKeepsMatch(job: Job, log: seq<Grant>, m: Mutation)
    requires JobMatches(job, log) && Committed(m, job).Ok?
    requires !m.ClaimState? && !m.Renew?
    requires m.FinishState? ==> !job.cancelRequested
    requires m.MarkDispatching? ==> !job.state.Terminal()
    ensures JobMatches(Committed(m, job).value, log)
  {
  }

  lemma CommitKeeps(core: Repo.Core, run: string, attempt: string, fence: nat, update: Repo.Progress)
    ensures var core' := CommitProgressTo(core, run, attempt, fence, update);
            && core'.activeAttempts == core.activeAttempts && core'.runs.Keys == core.runs.Keys
            && Repo.FenceOf(core, run) <= Repo.FenceOf(core', run)
  {
  }

  lemma FinalizeKeeps(core: Repo.Core, run: string, winner: string)
    ensures var core' := Finalize(core, run, winner);
            && core'.activeAttempts == core.activeAttempts && core'.runs.Keys == core.runs.Keys
            && core'.fences == core.fences
  {
  }

  /** Committing and finalizing move neither the active attempt nor the fence backwards. */
  lemma CommitKeepsCore(core: Repo.Core, run: string, attempt: string, fence: nat, update: Repo.Progress, winner: string)
    ensures var core' := Finalize(CommitProgressTo(core, run, attempt, fence, update), run, winner);
            && core'.activeAttempts == core.activeAttempts && core'.runs.Keys == core.runs.Keys
            && Repo.FenceOf(core, run) <= Repo.FenceOf(core', run)
  {
    CommitKeeps(core, run, attempt, fence, update);
    FinalizeKeeps(CommitProgressTo(core, run, attempt, fence, update), run, winner);
  }

  /** A claim returns the live lease or appends the next grant. */
  lemma ClaimExtendsLog(job: Job, log: seq<Grant>, now: int, newAttempt: string, leaseMs: nat)
    requires JobMatches(job, log) && Numbered(log) && Succeeding(log) && leaseMs > 0
    requires |log| > 0 ==> Last(log).from <= now
    requires Committed(ClaimState(now, newAttempt, leaseMs), job).Ok?
    ensures var claimed := Committed(ClaimState(now, newAttempt, leaseMs), job).value;
            var log' := if claimed.fence == job.fence then log else log + [Grant(newAttempt, claimed.fence, now, now + leaseMs)];
            && JobMatches(claimed, log') && Numbered(log') && Succeeding(log') && |log'| > 0
            && Last(log').from <= now && claimed.fence == |log'|
            && claimed.attemptId == Some(Last(log').attempt)
            && (claimed.fence != job.fence ==> claimed.attemptId == Some(newAttempt))
  {
  }

  /** Claiming in the domain store makes the attempt active under a fence at least as high as its own. */
  lemma ClaimActivates(core: Repo.Core, run: string, attempt: string, fence: nat)
    ensures var core' := if Repo.MayClaim(core, run, attempt, fence)
                         then Repo.ClaimedCore(core, run, attempt, "local-worker", fence) else core;
            && core'.runs.Keys == core.runs.Keys
            && (core' == core || (run in core.runs && core'.activeAttempts == core.activeAttempts[run := attempt]
                                  && Repo.FenceOf(core', run) >= fence))
  {
  }

  /** The claim of an attempt nobody has used is never refused. */
  lemma FreshMayClaim(s: Proto, run: string, newAttempt: string)
    requires FreshAttempt(s, run, newAttempt) && run in s.core.runs
    ensures forall fence: nat :: Repo.MayClaim(s.core, run, newAttempt, fence)
  {
  }

  lemma StartKeepsView(s: Proto, run: string, newAttempt: string)
    requires s.leaseMs > 0 && ViewOk(ViewOf(s, run), s.clock)
    ensures ViewOk(ViewOf(StartWorker(s, run, newAttempt), run), s.clock)
  {
    if run in s.jobs && Committed(ClaimState(s.clock, newAttempt, s.leaseMs), s.jobs[run]).Ok? && FreshAttempt(s, run, newAttempt) {
      var claimed := Committed(ClaimState(s.clock, newAttempt, s.leaseMs), s.jobs[run]).value;
      ClaimExtendsLog(s.jobs[run], GrantsOf(s, run), s.clock, newAttempt, s.leaseMs);
      ClaimActivates(s.core, run, claimed.attemptId.value, claimed.fence);
      if run in s.core.runs {
        FreshMayClaim(s, run, newAttempt);
      }
    }
  }

  lemma BeatKeepsView(s: Proto, run: string, attempt: string, fence: nat)
    requires s.leaseMs > 0 && ViewOk(ViewOf(s, run), s.clock)
    ensures ViewOk(ViewOf(Heartbeat(s, run, attempt, fence), run), s.clock)
  {
  }

  /** Finalizing a run changes nothing that its view shows. */
  lemma FinalizeKeepsView(s: Proto, run: string, attempt: string)
    ensures ViewOf(s.(core := Finalize(s.core, run, attempt)), run) == ViewOf(s, run)
  {
  }

  lemma FinishedKeepsView(s: Proto, run: string, attempt: string, fence: nat, outcome: JobState)
    requires ViewOk(ViewOf(s, run), s.clock) && run in s.jobs && !s.jobs[run].cancelRequested
    ensures ViewOk(ViewOf(Keep(s, MutateStore(s.jobs, run, FinishState(attempt, fence, outcome))), run), s.clock)
  {
    if Committed(FinishState(attempt, fence, outcome), s.jobs[run]).Ok? {
      MutationKeepsMatch(s.jobs[run], GrantsOf(s, run), FinishState(attempt, fence, outcome));
    }
  }

  lemma ConcludeKeepsView(s: Proto, run: string, attempt: string, fence: nat, outcome: JobState)
    requires ViewOk(ViewOf(s, run), s.clock)
    ensures ViewOk(ViewOf(ConcludeWorker(s, run, attempt, fence, outcome), run), s.clock)
  {
    hide ViewOk, Finalize, MutateStore;
    if run in s.jobs {
      var finish := FinishState(attempt, fence, outcome);
      if outcome == Cancelled || s.jobs[run].cancelRequested {
        MutationKeepsView(s, run, CancelState(s.clock));
        FinalizeKeepsView(Keep(s, MutateStore(s.jobs, run, CancelState(s.clock))), run, attempt);
      } else {
        FinishedKeepsView(s, run, attempt, fence, outcome);
        FinalizeKeepsView(Keep(s, MutateStore(s.jobs, run, finish)), run, attempt);
      }
    }
  }

  lemma AbortKeepsView(s: Proto, run: string, attempt: string, fence: nat, update: Repo.Progress)
    requires ViewOk(ViewOf(s, run), s.clock)
    ensures ViewOk(ViewOf(AbortWorker(s, run, attempt, fence, update), run), s.clock)
  {
    CommitKeeps(s.core, run, attempt, fence, update);
    CommitKeepsCore(s.core, run, attempt, fence, update, attempt);
    if run in s.jobs && s.jobs[run].state != Cancelled {
      var job, finish := s.jobs[run], FinishState(attempt, fence, Failed);
      if Committed(finish, job).Ok? {
        MutationKeepsMatch(job, GrantsOf(s, run), finish);
      }
    }
  }

  lemma DispatchKeepsView(s: Proto, run: string, invocation: string)
    requires ViewOk(ViewOf(s, run), s.clock)
    ensures ViewOk(ViewOf(Keep(s, DispatchStore(s.jobs, run, invocation)), run), s.clock)
  {
  }

  lemma MutationKeepsView(s: Proto, run: string, m: Mutation)
    requires m.CancelState? || m.CommitProgress?
    requires ViewOk(ViewOf(s, run), s.clock)
    ensures ViewOk(ViewOf(Keep(s, MutateStore(s.jobs, run, m)), run), s.clock)
  {
    if run in s.jobs && Committed(m, s.jobs[run]).Ok? {
      MutationKeepsMatch(s.jobs[run], GrantsOf(s, run), m);
    }
  }

  lemma DomainStepKeepsView(s: Proto, op: Op, run: string)
    requires op.AddRun? || op.Publish? || op.Record?
    requires Concerns(op, run) && ViewOk(ViewOf(s, run), s.clock)
    ensures ViewOk(ViewOf(Step(s, op), run), s.clock)
  {
  }

  lemma StepKeepsView(s: Proto, op: Op, run: string)
    requires Concerns(op, run) && s.leaseMs > 0 && ViewOk(ViewOf(s, run), s.clock)
    ensures ViewOk(ViewOf(Step(s, op), run), s.clock)
  {
    match op
    case Create(_) =>
    case Start(_, newAttempt) => StartKeepsView(s, run, newAttempt);
    case Beat(_, attempt, fence) => BeatKeepsView(s, run, attempt, fence);
    case Conclude(_, attempt, fence, outcome) => ConcludeKeepsView(s, run, attempt, fence, outcome);
    case Abort(_, attempt, fence, update) => AbortKeepsView(s, run, attempt, fence, update);
    case Dispatch(_, invocation) => DispatchKeepsView(s, run, invocation);
    case Cancel(_) => MutationKeepsView(s, run, CancelState(s.clock));
    case Report(_, attempt, fence, sequence) => MutationKeepsView(s, run, CommitProgress(attempt, fence, sequence));
    case _ => DomainStepKeepsView(s, op, run);
  }

  lemma RestartKeepsView(s: Proto, run: string)
    requires ViewOk(ViewOf(s, run), s.clock)
    ensures ViewOk(ViewOf(Step(s, Restart), run), s.clock)
  {
  }

  lemma ClockMoves(s: Proto, op: Op)
    ensures Step(s, op).clock >= s.clock && Step(s, op).leaseMs == s.leaseMs
    ensures !op.Tick? ==> Step(s, op).clock == s.clock
  {
    hide DispatchStore, MutateStore, CommitProgressTo, Finalize, Recovery.Restart;
  }

  /** Time alone spoils nothing. */
  lemma ViewOkLater(v: View, clock: int, later: int)
    requires ViewOk(v, clock) && clock <= later
    ensures ViewOk(v, later)
  {
  }

  lemma StepKeepsInv(s: Proto, op: Op)
    requires Inv(s)
    ensures Inv(Step(s, op))
  {
    hide Step, ViewOk, ViewOf;
    ClockMoves(s, op);
    forall run ensures ViewOk(ViewOf(Step(s, op), run), Step(s, op).clock) {
      assert ViewOk(ViewOf(s, run), s.clock);
      if op.Restart? {
        RestartKeepsView(s, run);
      } else if Concerns(op, run) {
        StepKeepsView(s, op, run);
      } else {
        OthersUntouched(s, op, run);
      }
      ViewOkLater(ViewOf(Step(s, op), run), s.clock, Step(s, op).clock);
    }
  }

  lemma {:induction false} RunKeepsInv(start: int, leaseMs: nat, ops: seq<Op>)
    requires leaseMs > 0
    ensures Inv(Run(start, leaseMs, ops))
  {
    if |ops| > 0 {
      RunKeepsInv(start, leaseMs, ops[..|ops| - 1]);
      StepKeepsInv(Run(start, leaseMs, ops[..|ops| - 1]), ops[|ops| - 1]);
    }
  }

  // ---------------------------------------------------------------- what never goes back

  predicate SameGrant(a: Grant, b: Grant) {
    a.attempt == b.attempt && a.fence == b.fence && a.from == b.from
  }

  /** The later log extends the earlier one; only expiry times may have moved. */
  predicate Extends(earlier: seq<Grant>, later: seq<Grant>) {
    |earlier| <= |later| && forall n :: 0 <= n < |earlier| ==> SameGrant(earlier[n], later[n])
  }

  predicate Settled(before: Option<Job>, after: Option<Job>) {
    && (before.Some? ==> after.Some?)
    && (before.Some? && before.value.state.Terminal() ==> after.value.state.Terminal())
    && (before.Some? && before.value.cancelRequested ==> after.value.cancelRequested)
  }

  /** One step loses no job, reopens no finished one and forgets no cancellation. */
  lemma StepSettles(s: Proto, op: Op, run: string)
    requires Inv(s)
    ensures Settled(ViewOf(s, run).job, ViewOf(Step(s, op), run).job)
  {
    assert ViewOk(ViewOf(s, run), s.clock);
    if op.Restart? {
    } else if !Concerns(op, run) {
      OthersUntouched(s, op, run);
    } else {
      ConcernedSettles(s, op, run);
    }
  }

  /** No mutation reopens a finished job, except a mark, or forgets a cancellation. */
  lemma MutationSettles(job: Job, m: Mutation)
    requires Committed(m, job).Ok?
    requires m.MarkDispatching? ==> !job.state.Terminal()
    ensures Settled(Some(job), Some(Committed(m, job).value))
  {
  }

  lemma WorkerSettles(s: Proto, op: Op, run: string)
    requires op.Start? || op.Beat? || op.Conclude? || op.Abort?
    requires Concerns(op, run)
    ensures Settled(ViewOf(s, run).job, ViewOf(Step(s, op), run).job)
  {
    if run in s.jobs {
      var m := match op
        case Start(_, newAttempt) => ClaimState(s.clock, newAttempt, s.leaseMs)
        case Beat(_, attempt, fence) => Renew(attempt, fence, s.clock, s.leaseMs)
        case Conclude(_, attempt, fence, outcome) =>
          if outcome == Cancelled || s.jobs[run].cancelRequested then CancelState(s.clock)
          else FinishState(attempt, fence, outcome)
        case Abort(_, attempt, fence, _) => FinishState(attempt, fence, Failed);
      var after := ViewOf(Step(s, op), run).job;
      assert after == Some(s.jobs[run]) || (Committed(m, s.jobs[run]).Ok? && after == Some(Committed(m, s.jobs[run]).value));
      if Committed(m, s.jobs[run]).Ok? {
        MutationSettles(s.jobs[run], m);
      }
    }
  }

  lemma ConcernedSettles(s: Proto, op: Op, run: string)
    requires Concerns(op, run) && ViewOk(ViewOf(s, run), s.clock)
    ensures Settled(ViewOf(s, run).job, ViewOf(Step(s, op), run).job)
  {
    if op.Start? || op.Beat? || op.Conclude? || op.Abort? {
      WorkerSettles(s, op, run);
    }
  }

  lemma StepExtends(s: Proto, op: Op, run: string)
    ensures Extends(GrantsOf(s, run), GrantsOf(Step(s, op), run))
  {
  }

  ghost predicate Later(before: Proto, after: Proto, run: string) {
    Extends(GrantsOf(before, run), GrantsOf(after, run)) && Settled(ViewOf(before, run).job, ViewOf(after, run).job)
  }

  lemma LaterIsReflexive(s: Proto, run: string)
    ensures Later(s, s, run)
  {
  }

  lemma LaterIsTransitive(a: Proto, b: Proto, c: Proto, run: string)
    requires Later(a, b, run) && Later(b, c, run)
    ensures Later(a, c, run)
  {
  }

  lemma NextIsLater(start: int, leaseMs: nat, ops: seq<Op>, j: nat, run: string)
    requires leaseMs > 0 && 0 < j <= |ops|
    ensures Later(Run(start, leaseMs, ops[..j - 1]), Run(start, leaseMs, ops[..j]), run)
  {
    assert ops[..j][..j - 1] == ops[..j - 1];
    RunKeepsInv(start, leaseMs, ops[..j - 1]);
    StepExtends(Run(start, leaseMs, ops[..j - 1]), ops[j - 1], run);
    StepSettles(Run(start, leaseMs, ops[..j - 1]), ops[j - 1], run);
  }

  lemma {:induction false} HistoryExtends(start: int, leaseMs: nat, ops: seq<Op>, i: nat, j: nat, run: string)
    requires leaseMs > 0 && i <= j <= |ops|
    ensures Later(Run(start, leaseMs, ops[..i]), Run(start, leaseMs, ops[..j]), run)
    decreases j
  {
    hide Run, Later;
    if i == j {
      LaterIsReflexive(Run(start, leaseMs, ops[..i]), run);
    } else {
      HistoryExtends(start, leaseMs, ops, i, j - 1, run);
      NextIsLater(start, leaseMs, ops, j, run);
      LaterIsTransitive(Run(start, leaseMs, ops[..i]), Run(start, leaseMs, ops[..j - 1]), Run(start, leaseMs, ops[..j]), run);
    }
  }

  // ---------------------------------------------------------------- main results

  /** In every reachable state a job is marked for cancellation exactly when it is cancelled, and an
      open job names the attempt, fence and expiry of its last grant. */
  lemma JobsMatchGrants(start: int, leaseMs: nat, ops: seq<Op>, run: string)
    requires leaseMs > 0 && run in Run(start, leaseMs, ops).jobs
    ensures JobMatches(Run(start, leaseMs, ops).jobs[run], GrantsOf(Run(start, leaseMs, ops), run))
  {
    RunKeepsInv(start, leaseMs, ops);
    assert ViewOk(ViewOf(Run(start, leaseMs, ops), run), Run(start, leaseMs, ops).clock);
  }

  /** Finishing keeps that agreement exactly when nobody has asked for cancellation: the service does
      not look, its caller must. */
  lemma FinishNeedsTheGuard(job: Job, log: seq<Grant>, attempt: string, fence: nat, outcome: JobState)
    requires JobMatches(job, log) && Committed(FinishState(attempt, fence, outcome), job).Ok?
    ensures JobMatches(Committed(FinishState(attempt, fence, outcome), job).value, log) <==> !job.cancelRequested
  {
  }

  /** Each fence of a run names one attempt for ever. */
  lemma FenceNamesOneAttempt(start: int, leaseMs: nat, ops: seq<Op>, i: nat, j: nat, run: string, a: nat, b: nat)
    requires leaseMs > 0 && i <= j <= |ops|
    requires a < |GrantsOf(Run(start, leaseMs, ops[..i]), run)| && b < |GrantsOf(Run(start, leaseMs, ops[..j]), run)|
    requires GrantsOf(Run(start, leaseMs, ops[..i]), run)[a].fence == GrantsOf(Run(start, leaseMs, ops[..j]), run)[b].fence
    ensures GrantsOf(Run(start, leaseMs, ops[..i]), run)[a].attempt == GrantsOf(Run(start, leaseMs, ops[..j]), run)[b].attempt
  {
    HistoryExtends(start, leaseMs, ops, i, j, run);
    RunKeepsInv(start, leaseMs, ops[..i]);
    RunKeepsInv(start, leaseMs, ops[..j]);
    var before, after := Run(start, leaseMs, ops[..i]), Run(start, leaseMs, ops[..j]);
    assert ViewOk(ViewOf(before, run), before.clock) && ViewOk(ViewOf(after, run), after.clock);
  }

  lemma {:induction false} WindowsDisjoint(log: seq<Grant>, a: nat, b: nat)
    requires Succeeding(log) && a < b < |log|
    ensures log[a].until <= log[b].from
    decreases b
  {
    if a < b - 1 {
      WindowsDisjoint(log, a, b - 1);
    }
  }

  /** The lease windows of two attempts of a run never overlap, heartbeats included. */
  lemma LeasesNeverOverlap(start: int, leaseMs: nat, ops: seq<Op>, run: string, a: nat, b: nat)
    requires leaseMs > 0 && a < b < |GrantsOf(Run(start, leaseMs, ops), run)|
    ensures GrantsOf(Run(start, leaseMs, ops), run)[a].until <= GrantsOf(Run(start, leaseMs, ops), run)[b].from
  {
    RunKeepsInv(start, leaseMs, ops);
    assert ViewOk(ViewOf(Run(start, leaseMs, ops), run), Run(start, leaseMs, ops).clock);
    WindowsDisjoint(GrantsOf(Run(start, leaseMs, ops), run), a, b);
  }

  /** Once a run is cancelled it stays cancelled, and no worker can start on it any more. */
  lemma CancellationIsFinal(start: int, leaseMs: nat, ops: seq<Op>, i: nat, run: string, newAttempt: string)
    requires leaseMs > 0 && i <= |ops|
    requires run in Run(start, leaseMs, ops[..i]).jobs && Run(start, leaseMs, ops[..i]).jobs[run].cancelRequested
    ensures var s := Run(start, leaseMs, ops);
            run in s.jobs && s.jobs[run].state == Cancelled && Step(s, Start(run, newAttempt)) == s
  {
    assert ops[..|ops|] == ops;
    HistoryExtends(start, leaseMs, ops, i, |ops|, run);
    JobsMatchGrants(start, leaseMs, ops, run);
  }

  /** A finished run is never reopened when operations run alone. */
  lemma FinishedStaysFinished(start: int, leaseMs: nat, ops: seq<Op>, i: nat, run: string)
    requires leaseMs > 0 && i <= |ops|
    requires run in Run(start, leaseMs, ops[..i]).jobs && Run(start, leaseMs, ops[..i]).jobs[run].state.Terminal()
    ensures run in Run(start, leaseMs, ops).jobs && Run(start, leaseMs, ops).jobs[run].state.Terminal()
  {
    assert ops[..|ops|] == ops;
    HistoryExtends(start, leaseMs, ops, i, |ops|, run);
  }

  /** Of all attempts ever granted only the latest can write to the domain store. */
  lemma OnlyLatestCommits(start: int, leaseMs: nat, ops: seq<Op>, run: string, n: nat)
    requires leaseMs > 0 && n < |GrantsOf(Run(start, leaseMs, ops), run)|
    requires var s := Run(start, leaseMs, ops);
             Repo.MayCommit(s.core, run, GrantsOf(s, run)[n].attempt, GrantsOf(s, run)[n].fence)
    ensures n == |GrantsOf(Run(start, leaseMs, ops), run)| - 1
  {
    RunKeepsInv(start, leaseMs, ops);
    var s := Run(start, leaseMs, ops);
    assert ViewOk(ViewOf(s, run), s.clock);
  }

  /** The run's fence has moved beyond every lease granted for it. */
  predicate LockedOut(s: Proto, run: string) {
    var v := ViewOf(s, run);
    v.stored && v.fence > |v.log|
  }

  /** A locked-out run accepts no commit under any lease granted for it. */
  lemma LockedOutMeans(s: Proto, run: string, n: nat)
    requires Inv(s) && LockedOut(s, run) && n < |GrantsOf(s, run)|
    ensures !Repo.MayCommit(s.core, run, GrantsOf(s, run)[n].attempt, GrantsOf(s, run)[n].fence)
  {
    assert ViewOk(ViewOf(s, run), s.clock);
  }

  /** A second worker starting under a live lease locks the run out, itself included. */
  lemma ReclaimLocksOut(s: Proto, run: string, newAttempt: string)
    requires Inv(s) && run in s.jobs && run in s.core.runs && run in s.core.activeAttempts
    requires !s.jobs[run].state.Terminal() && Live(s.jobs[run], s.clock) && FreshAttempt(s, run, newAttempt)
    ensures GrantsOf(Step(s, Start(run, newAttempt)), run) == GrantsOf(s, run)
    ensures LockedOut(Step(s, Start(run, newAttempt)), run)
  {
    assert ViewOk(ViewOf(s, run), s.clock);
  }

  lemma StartKeepsLockout(s: Proto, run: string, newAttempt: string)
    requires ViewOk(ViewOf(s, run), s.clock) && LockedOut(s, run)
    ensures LockedOut(StartWorker(s, run, newAttempt), run)
  {
  }

  lemma RestartKeepsLockout(s: Proto, run: string)
    requires LockedOut(s, run)
    ensures LockedOut(Step(s, Restart), run)
  {
    var seeded := Recovery.Seeded(s.core, s.jobs);
    var done := Recovery.Running(seeded);
    if run in done {
      Recovery.FenceAfter(s.core, seeded, done, run);
    } else {
      assert run !in Recovery.RaisedFences(s.core, seeded, done);
    }
  }

  lemma DomainStepKeepsLockout(s: Proto, op: Op, run: string)
    requires op.Publish? || op.Record?
    requires Concerns(op, run) && LockedOut(s, run)
    ensures LockedOut(Step(s, op), run)
  {
  }

  lemma ConcludeKeepsLockout(s: Proto, run: string, attempt: string, fence: nat, outcome: JobState)
    requires LockedOut(s, run)
    ensures LockedOut(ConcludeWorker(s, run, attempt, fence, outcome), run)
  {
    FinalizeKeeps(s.core, run, attempt);
  }

  lemma AbortKeepsLockout(s: Proto, run: string, attempt: string, fence: nat, update: Repo.Progress)
    requires LockedOut(s, run)
    ensures LockedOut(AbortWorker(s, run, attempt, fence, update), run)
  {
    CommitKeeps(s.core, run, attempt, fence, update);
    CommitKeepsCore(s.core, run, attempt, fence, update, attempt);
  }

  /** No later step, not even a new attempt or a restart, lifts a lockout. */
  lemma LockoutIsForever(s: Proto, op: Op, run: string)
    requires Inv(s) && LockedOut(s, run)
    ensures LockedOut(Step(s, op), run)
  {
    if op.Restart? {
      RestartKeepsLockout(s, run);
    } else if !Concerns(op, run) {
      OthersUntouched(s, op, run);
    } else if op.Start? {
      assert ViewOk(ViewOf(s, run), s.clock);
      StartKeepsLockout(s, run, op.newAttempt);
    } else if op.Conclude? {
      ConcludeKeepsLockout(s, run, op.attempt, op.fence, op.outcome);
    } else if op.Abort? {
      AbortKeepsLockout(s, run, op.attempt, op.fence, op.update);
    } else if op.Publish? || op.Record? {
      DomainStepKeepsLockout(s, op, run);
    }
  }
}
