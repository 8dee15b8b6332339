/** The job store and the dispatch service, each operation running alone as the snapshot gate arranges. */
module JobService {
  import opened Contracts
  import opened JobRecords

  type Jobs = map<string, Job>

  const MAX_CAS := 100

  // ---------------------------------------------------------------- what the operations do to the store

  function MutateStore(jobs: Jobs, run: string, m: Mutation): Result<Jobs, JobError> {
    if run !in jobs then Err(NotFound)
    else
      var changed := Committed(m, jobs[run]);
      if changed.Err? then Err(changed.error) else Ok(jobs[run := changed.value])
  }

  function CreateStore(jobs: Jobs, run: string): Jobs {
    if (if run in jobs then jobs[run].revision else 0) == 0 then jobs[run := Initial(run)] else jobs
  }

  /** Mark, submit, record; a run that already has an invocation is left alone. */
  function DispatchStore(jobs: Jobs, run: string, invocation: string): Result<Jobs, JobError> {
    if run !in jobs then Err(NotFound)
    else if jobs[run].state.Terminal() then Err(Conflict)
    else if jobs[run].invocationId.Some? then Ok(jobs)
    else
      var marked := if jobs[run].state == Queued then MutateStore(jobs, run, MarkDispatching) else Ok(jobs);
      if marked.Err? then marked else MutateStore(marked.value, run, RecordDispatch(invocation))
  }

  /** Dispatch if nobody has, then take over unless a live lease is in the way. */
  function ReconcileStore(jobs: Jobs, run: string, now: int, invocation: string, attempt: string, leaseMs: nat): Result<Jobs, JobError> {
    if run !in jobs then Err(NotFound)
    else if jobs[run].state.Terminal() || jobs[run].cancelRequested then Ok(jobs)
    else
      var dispatched := if jobs[run].invocationId.None? then DispatchStore(jobs, run, invocation) else Ok(jobs);
      if dispatched.Err? then dispatched
      else if jobs[run].attemptId.None? || (jobs[run].leaseExpiresAt.Some? && jobs[run].leaseExpiresAt.value <= now)
      then MutateStore(dispatched.value, run, ClaimState(now, attempt, leaseMs))
      else dispatched
  }

  // ---------------------------------------------------------------- the store

  class JobStateRepository {
    var jobs: Jobs

    constructor ()
      ensures jobs == map[]
    {
      jobs := map[];
    }

    method CompareAndSwap(run: string, revision: nat, value: Job) returns (ok: bool)
      modifies this
      ensures ok == (revision == if run in old(jobs) then old(jobs)[run].revision else 0)
      ensures jobs == if ok then old(jobs)[run := value] else old(jobs)
    {
      var currentRevision := if run in jobs then jobs[run].revision else 0;
      if currentRevision != revision {
        return false;
      }
      jobs := jobs[run := value];
      ok := true;
    }

    method GetOwned(run: string) returns (value: Option<Job>)
      ensures value == if run in jobs then Some(jobs[run]) else None
    {
      value := if run in jobs then Some(jobs[run]) else None;
    }
  }

  // ---------------------------------------------------------------- the service

  class JobDispatchService {
    const repository: JobStateRepository
    const leaseMs: nat

    constructor (repository: JobStateRepository, leaseMs: nat)
      requires leaseMs > 0
      ensures this.repository == repository && this.leaseMs == leaseMs
    {
      this.repository := repository;
      this.leaseMs := leaseMs;
    }

    /** The compare-and-swap loop. Alone at the store it needs no second round. */
    method Mutate(run: string, m: Mutation) returns (r: Result<Job, JobError>)
      modifies repository
      ensures MutateStore(old(repository.jobs), run, m) ==
              if r.Ok? then Ok(repository.jobs) else Err(r.error)
      ensures r.Ok? ==> run in repository.jobs && repository.jobs[run] == r.value
      ensures r.Err? ==> repository.jobs == old(repository.jobs)
    {
      for attempt := 0 to MAX_CAS
        invariant attempt == 0 && repository.jobs == old(repository.jobs)
      {
        var value := repository.GetOwned(run);
        if value.None? {
          return Err(NotFound);
        }
        var changed := Apply(m, value.value);
        if changed.Err? {
          return changed;
        }
        var next := changed.value.(revision := value.value.revision + 1);
        var swapped := repository.CompareAndSwap(run, value.value.revision, next);
        if swapped {
          return Ok(next);
        }
      }
      r := Err(Contended);
    }

    method Create(run: string) returns (r: Result<Job, JobError>)
      modifies repository
      ensures run == "" ==> r == Err(MissingRunId) && repository.jobs == old(repository.jobs)
      ensures run != "" ==> repository.jobs == CreateStore(old(repository.jobs), run)
                            && run in repository.jobs && r == Ok(repository.jobs[run])
    {
      if run == "" {
        return Err(MissingRunId);
      }
      var _ := repository.CompareAndSwap(run, 0, Initial(run));
      r := Get(run);
    }

    method Get(run: string) returns (r: Result<Job, JobError>)
      ensures r == if run in repository.jobs then Ok(repository.jobs[run]) else Err(NotFound)
    {
      var value := repository.GetOwned(run);
      r := if value.None? then Err(NotFound) else Ok(value.value);
    }

    /** `submitted` is what the executor answers for this run. */
    method Dispatch(run: string, submitted: string) returns (r: Result<string, JobError>)
      modifies repository
      ensures DispatchStore(old(repository.jobs), run, submitted) ==
              if r.Ok? then Ok(repository.jobs) else Err(r.error)
      ensures r.Err? ==> repository.jobs == old(repository.jobs)
      ensures r.Ok? ==> run in repository.jobs && repository.jobs[run].invocationId == Some(r.value)
    {
      var current := Get(run);
      if current.Err? {
        return Err(current.error);
      }
      if current.value.state.Terminal() {
        return Err(Conflict);
      }
      if current.value.invocationId.Some? {
        return Ok(current.value.invocationId.value);
      }
      if current.value.state == Queued {
        var _ := Mutate(run, MarkDispatching);
      }
      var recorded := Mutate(run, RecordDispatch(submitted));
      r := Ok(recorded.value.invocationId.value);
    }

    method Claim(run: string, now: int, newAttempt: string) returns (r: Result<AttemptLease, JobError>)
      modifies repository
      ensures MutateStore(old(repository.jobs), run, ClaimState(now, newAttempt, leaseMs)) ==
              if r.Ok? then Ok(repository.jobs) else Err(r.error)
      ensures r.Err? ==> repository.jobs == old(repository.jobs)
      ensures r.Ok? ==> run in repository.jobs && r.value == LeaseFrom(repository.jobs[run])
    {
      var claimed := Mutate(run, ClaimState(now, newAttempt, leaseMs));
      r := if claimed.Err? then Err(claimed.error) else Ok(LeaseFrom(claimed.value));
    }

    method Heartbeat(run: string, attempt: string, fence: nat, now: int) returns (r: Result<AttemptLease, JobError>)
      modifies repository
      ensures MutateStore(old(repository.jobs), run, Renew(attempt, fence, now, leaseMs)) ==
              if r.Ok? then Ok(repository.jobs) else Err(r.error)
      ensures r.Err? ==> repository.jobs == old(repository.jobs)
      ensures r.Ok? ==> run in repository.jobs && r.value == LeaseFrom(repository.jobs[run])
    {
      var renewed := Mutate(run, Renew(attempt, fence, now, leaseMs));
      r := if renewed.Err? then Err(renewed.error) else Ok(LeaseFrom(renewed.value));
    }

    /** Marks the run cancelled; `stopped` is the invocation that the executor is then told to cancel. */
    method Cancel(run: string, now: int) returns (r: Result<Job, JobError>, stopped: Option<string>)
      modifies repository
      ensures MutateStore(old(repository.jobs), run, CancelState(now)) ==
              if r.Ok? then Ok(repository.jobs) else Err(r.error)
      ensures r.Err? ==> repository.jobs == old(repository.jobs) && stopped.None?
      ensures r.Ok? ==> run in old(repository.jobs) && stopped == old(repository.jobs)[run].invocationId
    {
      r := Mutate(run, CancelState(now));
      stopped := None;
      if r.Ok? {
        var read := Get(run);
        stopped := read.value.invocationId;
      }
    }

    /** Whether the update is to be handed to the sink: only a sequence number beyond the last one is. */
    method CommitProgressUpdate(run: string, attempt: string, fence: nat, sequence: int) returns (r: Result<bool, JobError>)
      modifies repository
      ensures MutateStore(old(repository.jobs), run, CommitProgress(attempt, fence, sequence)) ==
              if r.Ok? then Ok(repository.jobs) else Err(r.error)
      ensures r.Err? ==> repository.jobs == old(repository.jobs)
      ensures r.Ok? ==> run in old(repository.jobs) && r.value == (sequence > old(repository.jobs)[run].progressSequence)
    {
      var before := Get(run);
      var committed := Mutate(run, CommitProgress(attempt, fence, sequence));
      r := if committed.Err? then Err(committed.error) else Ok(sequence != before.value.progressSequence);
    }

    method Finish(run: string, attempt: string, fence: nat, state: JobState) returns (r: Result<Job, JobError>)
      modifies repository
      ensures !state.Terminal() || state.Cancelled? ==> r == Err(InvalidFinish)
      ensures state.Terminal() && !state.Cancelled? ==>
                MutateStore(old(repository.jobs), run, FinishState(attempt, fence, state)) ==
                if r.Ok? then Ok(repository.jobs) else Err(r.error)
      ensures r.Err? ==> repository.jobs == old(repository.jobs)
    {
      if !state.Terminal() || state.Cancelled? {
        return Err(InvalidFinish);
      }
      r := Mutate(run, FinishState(attempt, fence, state));
    }

    method Reconcile(run: string, now: int, submitted: string, newAttempt: string) returns (r: Result<Option<AttemptLease>, JobError>)
      modifies repository
      ensures ReconcileStore(old(repository.jobs), run, now, submitted, newAttempt, leaseMs) ==
              if r.Ok? then Ok(repository.jobs) else Err(r.error)
      ensures r.Ok? && r.value.Some? ==> run in repository.jobs && r.value.value == LeaseFrom(repository.jobs[run])
    {
      var current := Get(run);
      if current.Err? {
        return Err(current.error);
      }
      var job := current.value;
      if job.state.Terminal() || job.cancelRequested {
        return Ok(None);
      }
      if job.invocationId.None? {
        var dispatched := Dispatch(run, submitted);
        if dispatched.Err? {
          return Err(dispatched.error);
        }
      }
      if job.attemptId.None? || (job.leaseExpiresAt.Some? && job.leaseExpiresAt.value <= now) {
        var claimed := Claim(run, now, newAttempt);
        r := if claimed.Err? then Err(claimed.error) else Ok(Some(claimed.value));
      } else {
        r := Ok(Some(LeaseFrom(job)));
      }
    }
  }
}
