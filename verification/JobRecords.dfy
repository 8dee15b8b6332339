/** Job documents and the mutations the dispatch service applies to them. */
module JobRecords {
  import opened Contracts

  datatype JobState = Queued | Dispatching | Dispatched | Running | Completed | Partial | Failed | Cancelled {
    predicate Terminal() { Completed? || Partial? || Failed? || Cancelled? }
  }

  datatype Job = Job(
    revision: nat, runId: string, state: JobState, invocationId: Option<string>, cancelRequested: bool,
    attemptId: Option<string>, fence: nat, leaseExpiresAt: Option<int>, heartbeatAt: Option<int>,
    progressSequence: int, failureReason: Option<string>)

  datatype JobError = NotFound | Conflict | StaleAttempt | LeaseExpired | NoLease | SequenceRegressed
                    | InvalidFinish | Contended | MissingRunId

  datatype AttemptLease = AttemptLease(runId: string, attemptId: string, fence: nat, expiresAt: Option<int>)

  /** The closures handed to the compare-and-swap loop. */
  datatype Mutation =
    | MarkDispatching
    | RecordDispatch(invocation: string)
    | ClaimState(now: int, freshAttempt: string, leaseMs: nat)
    | Renew(attempt: string, fence: nat, now: int, leaseMs: nat)
    | CancelState(now: int)
    | CommitProgress(attempt: string, fence: nat, sequence: int)
    | FinishState(attempt: string, fence: nat, state: JobState)

  function Initial(run: string): Job {
    Job(0, run, Queued, None, false, None, 0, None, None, -1, None)
  }

  predicate HoldsAttempt(job: Job, attempt: string, fence: nat) {
    job.attemptId == Some(attempt) && job.fence == fence
  }

  /** A lease that still keeps other workers out at `now`. */
  predicate Live(job: Job, now: int) {
    job.attemptId.Some? && job.leaseExpiresAt.Some? && now < job.leaseExpiresAt.value
  }

  /** The mutated document, before its revision is bumped; an error leaves the store untouched. */
  function Apply(m: Mutation, job: Job): Result<Job, JobError> {
    match m
    case MarkDispatching => Ok(job.(state := Dispatching))
    case RecordDispatch(invocation) =>
      Ok(job.(invocationId := if job.invocationId.None? then Some(invocation) else job.invocationId,
              state := if job.state.Terminal() then job.state else Dispatched))
    case ClaimState(now, newId, leaseMs) =>
      if job.state.Terminal() || job.cancelRequested then Err(Conflict)
      else if Live(job, now) then Ok(job)
      else Ok(job.(fence := job.fence + 1, attemptId := Some(newId), leaseExpiresAt := Some(now + leaseMs),
                   heartbeatAt := Some(now), progressSequence := -1, state := Running))
    case Renew(attempt, fence, now, leaseMs) =>
      if !HoldsAttempt(job, attempt, fence) then Err(StaleAttempt)
      else if job.leaseExpiresAt.None? then Err(NoLease)
      else if job.leaseExpiresAt.value <= now then Err(LeaseExpired)
      else Ok(job.(heartbeatAt := Some(now), leaseExpiresAt := Some(now + leaseMs)))
    case CancelState(now) =>
      Ok(job.(cancelRequested := true, state := Cancelled, leaseExpiresAt := Some(now)))
    case CommitProgress(attempt, fence, sequence) =>
      if !HoldsAttempt(job, attempt, fence) || job.cancelRequested then Err(StaleAttempt)
      else if sequence == job.progressSequence then Ok(job)
      else if sequence < job.progressSequence then Err(SequenceRegressed)
      else Ok(job.(progressSequence := sequence))
    case FinishState(attempt, fence, state) =>
      if !state.Terminal() || state.Cancelled? then Err(InvalidFinish)
      else if !HoldsAttempt(job, attempt, fence) then Err(StaleAttempt)
      else Ok(job.(state := state, leaseExpiresAt := None))
  }

  function LeaseFrom(job: Job): AttemptLease {
    AttemptLease(job.runId, if job.attemptId.Some? then job.attemptId.value else "None", job.fence, job.leaseExpiresAt)
  }

  /** One committed mutation: the document it produces carries the next revision. */
  function Committed(m: Mutation, job: Job): Result<Job, JobError> {
    var changed := Apply(m, job);
    if changed.Err? then changed else Ok(changed.value.(revision := job.revision + 1))
  }

  /** The document after a list of committed mutations, oldest first. */
  function Replay(job: Job, log: seq<Mutation>): Result<Job, JobError> {
    if |log| == 0 then Ok(job)
    else
      var before := Replay(job, log[..|log| - 1]);
      if before.Err? then before else Committed(log[|log| - 1], before.value)
  }

  lemma {:induction false} ReplayCounts(job: Job, log: seq<Mutation>)
    ensures Replay(job, log).Ok? ==>
              Replay(job, log).value.revision == job.revision + |log| && Replay(job, log).value.runId == job.runId
  {
    if |log| > 0 {
      ReplayCounts(job, log[..|log| - 1]);
    }
  }
}
