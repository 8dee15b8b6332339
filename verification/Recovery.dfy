/** What a restart does to interrupted jobs and to the domain state around them. */
module Recovery {
  import opened Contracts
  import opened JobRecords
  import opened JobService
  import Repo = CoreRepository

  // ---------------------------------------------------------------- one job

  /** The job's own attempt, or the run's active one when the job names none. */
  function AttemptOf(core: Repo.Core, run: string, job: Job): Option<string> {
    if job.attemptId.Some? && job.attemptId.value != "" then job.attemptId
    else if run in core.activeAttempts then Some(core.activeAttempts[run]) else None
  }

  /** Keys of the progress records of one attempt. */
  function RecordsOf(core: Repo.Core, workspace: string, run: string, attempt: string): set<Repo.ProgressKey> {
    set k | k in core.progress && k.workspace == workspace && k.runId == run && k.attemptId == attempt
  }

  lemma LatestExists(keys: set<Repo.ProgressKey>)
    requires keys != {}
    ensures exists k :: k in keys && forall x :: x in keys ==> x.sequence <= k.sequence
    decreases |keys|
  {
    var k :| k in keys;
    var rest := keys - {k};
    if rest != {} {
      LatestExists(rest);
      var m :| m in rest && forall x :: x in rest ==> x.sequence <= m.sequence;
      var best := if m.sequence <= k.sequence then k else m;
      assert best in keys && forall x :: x in keys ==> x.sequence <= best.sequence;
    } else {
      assert keys == {k} + rest;
    }
  }

  /** The record of an attempt with the highest sequence number. */
  ghost function Latest(core: Repo.Core, workspace: string, run: string, attempt: string): (k: Repo.ProgressKey)
    requires RecordsOf(core, workspace, run, attempt) != {}
    ensures k in RecordsOf(core, workspace, run, attempt)
    ensures forall x :: x in RecordsOf(core, workspace, run, attempt) ==> x.sequence <= k.sequence
  {
    LatestExists(RecordsOf(core, workspace, run, attempt));
    var k :| k in RecordsOf(core, workspace, run, attempt)
             && forall x :: x in RecordsOf(core, workspace, run, attempt) ==> x.sequence <= k.sequence;
    k
  }

  const NO_WORK := Repo.ProgressBody([], 0, 0, 0, false, 0)

  /** A run whose interruption is recorded: it is stored and its attempt is known. */
  predicate IsRecorded(core: Repo.Core, run: string, job: Job) {
    run in core.runs && AttemptOf(core, run, job).Some?
  }

  ghost function FinalSequence(core: Repo.Core, run: string, job: Job): int
    requires IsRecorded(core, run, job)
  {
    var workspace, attempt := core.runs[run].workspace, AttemptOf(core, run, job).value;
    Max(job.progressSequence,
        if RecordsOf(core, workspace, run, attempt) != {} then Latest(core, workspace, run, attempt).sequence else -1) + 1
  }

  ghost function FinalKey(core: Repo.Core, run: string, job: Job): Repo.ProgressKey
    requires IsRecorded(core, run, job)
  {
    Repo.ProgressKey(core.runs[run].workspace, run, AttemptOf(core, run, job).value, FinalSequence(core, run, job))
  }

  /** The failed record: the latest one carried on, or an empty one. */
  ghost function FinalRecord(core: Repo.Core, run: string, job: Job): Repo.Progress
    requires IsRecorded(core, run, job)
  {
    var workspace, attempt := core.runs[run].workspace, AttemptOf(core, run, job).value;
    Repo.Progress(run, attempt, Repo.Failed, FinalSequence(core, run, job),
                  if RecordsOf(core, workspace, run, attempt) != {}
                  then core.progress[Latest(core, workspace, run, attempt)].body else NO_WORK)
  }

  ghost function InterruptedJob(core: Repo.Core, run: string, job: Job): Job {
    job.(state := Failed, failureReason := Some("interrupted_by_restart"),
         leaseExpiresAt := None, heartbeatAt := None, revision := job.revision + 1, fence := job.fence + 1,
         progressSequence := if IsRecorded(core, run, job) then FinalSequence(core, run, job) else job.progressSequence)
  }

  // ---------------------------------------------------------------- all jobs

  /** Jobs made up for live runs that have none, so that they too are closed. */
  function Seeded(core: Repo.Core, jobs: Jobs): Jobs {
    jobs + map run | run in core.runs && run !in jobs && !core.runs[run].deleted
                     && core.runs[run].isRecord && core.runs[run].selectedAttempt.None? ::
      Initial(run).(attemptId := if run in core.activeAttempts then Some(core.activeAttempts[run]) else None)
  }

  // What interrupting the jobs in `done` adds to or changes in each component.

  ghost function ClosedRuns(core: Repo.Core, jobs: Jobs, done: set<string>): map<string, Repo.RunDoc>
    requires done <= jobs.Keys
  {
    map run | run in core.runs ::
      if run in done && IsRecorded(core, run, jobs[run]) && core.runs[run].isRecord
      then core.runs[run].(selectedAttempt := AttemptOf(core, run, jobs[run])) else core.runs[run]
  }

  ghost function FinalRecords(core: Repo.Core, jobs: Jobs, done: set<string>): map<Repo.ProgressKey, Repo.Progress>
    requires done <= jobs.Keys
  {
    map run | run in done && IsRecorded(core, run, jobs[run]) ::
      FinalKey(core, run, jobs[run]) := FinalRecord(core, run, jobs[run])
  }

  function RaisedFences(core: Repo.Core, jobs: Jobs, done: set<string>): map<string, nat>
    requires done <= jobs.Keys
  {
    map run | run in done :: Max(Repo.FenceOf(core, run) + 1, jobs[run].fence + 1)
  }

  function SelectedAttempts(core: Repo.Core, jobs: Jobs, done: set<string>): map<string, string>
    requires done <= jobs.Keys
  {
    map run | run in done && IsRecorded(core, run, jobs[run]) :: AttemptOf(core, run, jobs[run]).value
  }

  ghost function ClosedJobs(core: Repo.Core, jobs: Jobs, done: set<string>): Jobs {
    map run | run in jobs :: if run in done then InterruptedJob(core, run, jobs[run]) else jobs[run]
  }

  /** The domain state after the jobs in `done` have been interrupted. */
  ghost function RestartSome(core: Repo.Core, jobs: Jobs, done: set<string>): Repo.Core
    requires done <= jobs.Keys
  {
    Repo.Core(ClosedRuns(core, jobs, done), core.events, core.progress + FinalRecords(core, jobs, done),
              core.activeAttempts - done, core.fences + RaisedFences(core, jobs, done), core.workers,
              core.selected + SelectedAttempts(core, jobs, done))
  }

  function Running(jobs: Jobs): set<string> {
    set run | run in jobs && !jobs[run].state.Terminal()
  }

  /** The state after a restart. */
  ghost function Restart(core: Repo.Core, jobs: Jobs): (Repo.Core, Jobs) {
    var seeded := Seeded(core, jobs);
    (RestartSome(core, seeded, Running(seeded)), ClosedJobs(core, seeded, Running(seeded)))
  }

  // ---------------------------------------------------------------- one job at a time

  /** Interrupting other runs first changes nothing that the interruption of this run looks at. */
  lemma RunsAreIndependent(core: Repo.Core, jobs: Jobs, done: set<string>, run: string)
    requires done <= jobs.Keys && run in jobs && run !in done
    ensures var core' := RestartSome(core, jobs, done);
            && Repo.FenceOf(core', run) == Repo.FenceOf(core, run)
            && AttemptOf(core', run, jobs[run]) == AttemptOf(core, run, jobs[run])
            && (run in core'.runs <==> run in core.runs)
            && (run in core.runs ==> core'.runs[run] == core.runs[run])
  {
  }

  lemma FinalRecordsAreOwn(core: Repo.Core, jobs: Jobs, done: set<string>, k: Repo.ProgressKey)
    requires done <= jobs.Keys
    ensures k in FinalRecords(core, jobs, done) <==>
            k.runId in done && IsRecorded(core, k.runId, jobs[k.runId]) && k == FinalKey(core, k.runId, jobs[k.runId])
    ensures k in FinalRecords(core, jobs, done) ==>
            FinalRecords(core, jobs, done)[k] == FinalRecord(core, k.runId, jobs[k.runId])
  {
  }

  lemma RecordsAreIndependent(core: Repo.Core, jobs: Jobs, done: set<string>, run: string, workspace: string, attempt: string)
    requires done <= jobs.Keys && run !in done
    ensures var core' := RestartSome(core, jobs, done);
            RecordsOf(core', workspace, run, attempt) == RecordsOf(core, workspace, run, attempt)
            && forall k :: k in RecordsOf(core, workspace, run, attempt) ==> core'.progress[k] == core.progress[k]
  {
    hide FinalRecords, FinalKey, FinalRecord, IsRecorded, RaisedFences, ClosedRuns, SelectedAttempts;
    var core' := RestartSome(core, jobs, done);
    forall k: Repo.ProgressKey | k.runId == run
      ensures k in core'.progress <==> k in core.progress
      ensures k in core.progress ==> core'.progress[k] == core.progress[k]
    {
      FinalRecordsAreOwn(core, jobs, done, k);
    }
  }

  lemma LatestIsUnique(core: Repo.Core, workspace: string, run: string, attempt: string, k: Repo.ProgressKey)
    requires k in RecordsOf(core, workspace, run, attempt)
    requires forall x :: x in RecordsOf(core, workspace, run, attempt) ==> x.sequence <= k.sequence
    ensures k == Latest(core, workspace, run, attempt)
  {
    assert k.sequence == Latest(core, workspace, run, attempt).sequence;
  }

  /** The position with the highest sequence among the records of an attempt. */
  method FindLatest(core: Repo.InMemoryRepository, workspace: string, run: string, attempt: string)
    returns (best: Option<Repo.ProgressKey>)
    ensures best.None? <==> RecordsOf(core.State(), workspace, run, attempt) == {}
    ensures best.Some? ==> best.value == Latest(core.State(), workspace, run, attempt)
  {
    best := None;
    var todo := core.progress.Keys;
    while todo != {}
      invariant todo <= core.progress.Keys
      invariant best.None? ==> RecordsOf(core.State(), workspace, run, attempt) <= todo
      invariant best.Some? ==>
                  best.value in RecordsOf(core.State(), workspace, run, attempt)
                  && forall k :: k in RecordsOf(core.State(), workspace, run, attempt) && k !in todo ==>
                       k.sequence <= best.value.sequence
      decreases todo
    {
      var k :| k in todo;
      todo := todo - {k};
      if k.workspace == workspace && k.runId == run && k.attemptId == attempt {
        if best.None? || best.value.sequence < k.sequence {
          best := Some(k);
        }
      }
    }
    if best.Some? {
      LatestIsUnique(core.State(), workspace, run, attempt, best.value);
    }
  }

  // Each component after one more interrupted job.

  lemma NextJobs(core: Repo.Core, jobs: Jobs, done: set<string>, run: string)
    requires run in jobs
    ensures ClosedJobs(core, jobs, done + {run}) ==
            ClosedJobs(core, jobs, done)[run := InterruptedJob(core, run, jobs[run])]
  {
  }

  lemma NextRuns(core: Repo.Core, jobs: Jobs, done: set<string>, run: string)
    requires done <= jobs.Keys && run in jobs
    ensures ClosedRuns(core, jobs, done + {run}) ==
            if IsRecorded(core, run, jobs[run]) && core.runs[run].isRecord
            then ClosedRuns(core, jobs, done)[run := core.runs[run].(selectedAttempt := AttemptOf(core, run, jobs[run]))]
            else ClosedRuns(core, jobs, done)
  {
  }

  lemma NextRecords(core: Repo.Core, jobs: Jobs, done: set<string>, run: string)
    requires done <= jobs.Keys && run in jobs && run !in done
    ensures FinalRecords(core, jobs, done + {run}) ==
            if IsRecorded(core, run, jobs[run])
            then FinalRecords(core, jobs, done)[FinalKey(core, run, jobs[run]) := FinalRecord(core, run, jobs[run])]
            else FinalRecords(core, jobs, done)
  {
    var before, after := FinalRecords(core, jobs, done), FinalRecords(core, jobs, done + {run});
    forall k: Repo.ProgressKey
      ensures k in after <==> k in before || (IsRecorded(core, run, jobs[run]) && k == FinalKey(core, run, jobs[run]))
      ensures k in before ==> k in after && after[k] == before[k]
    {
      FinalRecordsAreOwn(core, jobs, done, k);
      FinalRecordsAreOwn(core, jobs, done + {run}, k);
    }
  }

  lemma NextFences(core: Repo.Core, jobs: Jobs, done: set<string>, run: string)
    requires done <= jobs.Keys && run in jobs
    ensures RaisedFences(core, jobs, done + {run}) ==
            RaisedFences(core, jobs, done)[run := Max(Repo.FenceOf(core, run) + 1, jobs[run].fence + 1)]
  {
  }

  lemma NextSelected(core: Repo.Core, jobs: Jobs, done: set<string>, run: string)
    requires done <= jobs.Keys && run in jobs
    ensures SelectedAttempts(core, jobs, done + {run}) ==
            if IsRecorded(core, run, jobs[run])
            then SelectedAttempts(core, jobs, done)[run := AttemptOf(core, run, jobs[run]).value]
            else SelectedAttempts(core, jobs, done)
  {
  }

  /** Interrupting one more job, in terms of the state reached so far. */
  ghost function InterruptOne(core: Repo.Core, run: string, job: Job): Repo.Core {
    var raised := core.(activeAttempts := core.activeAttempts - {run},
                        fences := core.fences[run := Max(Repo.FenceOf(core, run) + 1, job.fence + 1)]);
    if !IsRecorded(core, run, job) then raised
    else raised.(runs := if core.runs[run].isRecord
                         then core.runs[run := core.runs[run].(selectedAttempt := AttemptOf(core, run, job))] else core.runs,
                 selected := core.selected[run := AttemptOf(core, run, job).value],
                 progress := core.progress[FinalKey(core, run, job) := FinalRecord(core, run, job)])
  }

  lemma FinalsAreIndependent(core: Repo.Core, jobs: Jobs, done: set<string>, run: string)
    requires done <= jobs.Keys && run in jobs && run !in done
    ensures var core', job := RestartSome(core, jobs, done), jobs[run];
            (IsRecorded(core', run, job) <==> IsRecorded(core, run, job))
            && InterruptedJob(core', run, job) == InterruptedJob(core, run, job)
            && (IsRecorded(core, run, job) ==>
                  FinalKey(core', run, job) == FinalKey(core, run, job)
                  && FinalRecord(core', run, job) == FinalRecord(core, run, job))
  {
    RunsAreIndependent(core, jobs, done, run);
    var core', job := RestartSome(core, jobs, done), jobs[run];
    if IsRecorded(core, run, job) {
      var workspace, attempt := core.runs[run].workspace, AttemptOf(core, run, job).value;
      RecordsAreIndependent(core, jobs, done, run, workspace, attempt);
      if RecordsOf(core, workspace, run, attempt) != {} {
        LatestIsUnique(core, workspace, run, attempt, Latest(core', workspace, run, attempt));
      }
    }
  }

  lemma AddLast<K, V>(base: map<K, V>, added: map<K, V>, k: K, v: V)
    ensures base + added[k := v] == (base + added)[k := v]
  {
  }

  lemma RemoveOneMore(active: map<string, string>, done: set<string>, run: string)
    ensures active - (done + {run}) == active - done - {run}
  {
  }

  lemma RaisedOnce(core: Repo.Core, jobs: Jobs, done: set<string>, run: string)
    requires done <= jobs.Keys && run in jobs
    ensures RestartSome(core, jobs, done + {run}).fences ==
            RestartSome(core, jobs, done).fences[run := Max(Repo.FenceOf(core, run) + 1, jobs[run].fence + 1)]
  {
    NextFences(core, jobs, done, run);
    AddLast(core.fences, RaisedFences(core, jobs, done), run, Max(Repo.FenceOf(core, run) + 1, jobs[run].fence + 1));
  }

  lemma FenceUntouched(core: Repo.Core, jobs: Jobs, done: set<string>, run: string)
    requires done <= jobs.Keys && run !in done
    ensures Repo.FenceOf(RestartSome(core, jobs, done), run) == Repo.FenceOf(core, run)
  {
    assert run !in RaisedFences(core, jobs, done);
  }

  lemma NextRestartFences(core: Repo.Core, jobs: Jobs, done: set<string>, run: string)
    requires done <= jobs.Keys && run in jobs && run !in done
    ensures var one, after := InterruptOne(RestartSome(core, jobs, done), run, jobs[run]), RestartSome(core, jobs, done + {run});
            && after.fences == one.fences && after.activeAttempts == one.activeAttempts
            && after.events == one.events && after.workers == one.workers
  {
    RaisedOnce(core, jobs, done, run);
    FenceUntouched(core, jobs, done, run);
    RemoveOneMore(core.activeAttempts, done, run);
  }

  lemma NextRestartRuns(core: Repo.Core, jobs: Jobs, done: set<string>, run: string)
    requires done <= jobs.Keys && run in jobs && run !in done
    ensures var one, after := InterruptOne(RestartSome(core, jobs, done), run, jobs[run]), RestartSome(core, jobs, done + {run});
            after.runs == one.runs && after.selected == one.selected
  {
    RunsAreIndependent(core, jobs, done, run);
    NextRuns(core, jobs, done, run);
    NextSelected(core, jobs, done, run);
    if IsRecorded(core, run, jobs[run]) {
      AddLast(core.selected, SelectedAttempts(core, jobs, done), run, AttemptOf(core, run, jobs[run]).value);
    }
  }

  lemma NextRestartRecords(core: Repo.Core, jobs: Jobs, done: set<string>, run: string)
    requires done <= jobs.Keys && run in jobs && run !in done
    ensures RestartSome(core, jobs, done + {run}).progress ==
            InterruptOne(RestartSome(core, jobs, done), run, jobs[run]).progress
  {
    FinalsAreIndependent(core, jobs, done, run);
    NextRecords(core, jobs, done, run);
    if IsRecorded(core, run, jobs[run]) {
      AddLast(core.progress, FinalRecords(core, jobs, done), FinalKey(core, run, jobs[run]), FinalRecord(core, run, jobs[run]));
    }
  }

  /** The state reached when the jobs in `done` have been interrupted. */
  ghost predicate Reached(core0: Repo.Core, jobs0: Jobs, done: set<string>, core: Repo.Core, jobs: Jobs) {
    done <= jobs0.Keys && core == RestartSome(core0, jobs0, done) && jobs == ClosedJobs(core0, jobs0, done)
  }

  lemma NextRestart(core0: Repo.Core, jobs0: Jobs, done: set<string>, core: Repo.Core, jobs: Jobs, run: string)
    requires Reached(core0, jobs0, done, core, jobs) && run in jobs0 && run !in done
    ensures run in jobs && jobs[run] == jobs0[run]
    ensures Reached(core0, jobs0, done + {run}, InterruptOne(core, run, jobs[run]),
                    jobs[run := InterruptedJob(core, run, jobs[run])])
  {
    FinalsAreIndependent(core0, jobs0, done, run);
    NextJobs(core0, jobs0, done, run);
    NextRestartFences(core0, jobs0, done, run);
    NextRestartRuns(core0, jobs0, done, run);
    NextRestartRecords(core0, jobs0, done, run);
  }

  lemma AddNothing<K, V>(base: map<K, V>, added: map<K, V>)
    requires added.Keys == {}
    ensures base + added == base
  {
  }

  lemma NothingClosed(core: Repo.Core, jobs: Jobs)
    ensures ClosedRuns(core, jobs, {}) == core.runs && ClosedJobs(core, jobs, {}) == jobs
  {
  }

  lemma NothingRecorded(core: Repo.Core, jobs: Jobs)
    ensures core.progress + FinalRecords(core, jobs, {}) == core.progress
  {
    assert FinalRecords(core, jobs, {}).Keys == {};
    AddNothing(core.progress, FinalRecords(core, jobs, {}));
  }

  lemma NothingRaised(core: Repo.Core, jobs: Jobs)
    ensures core.fences + RaisedFences(core, jobs, {}) == core.fences
    ensures core.selected + SelectedAttempts(core, jobs, {}) == core.selected
    ensures core.activeAttempts - {} == core.activeAttempts
  {
    AddNothing(core.fences, RaisedFences(core, jobs, {}));
    AddNothing(core.selected, SelectedAttempts(core, jobs, {}));
  }

  lemma AllReached(core0: Repo.Core, jobs0: Jobs, core: Repo.Core, jobs: Jobs)
    requires Reached(core0, Seeded(core0, jobs0), Running(Seeded(core0, jobs0)), core, jobs)
    ensures (core, jobs) == Restart(core0, jobs0)
  {
  }

  lemma FirstReached(core: Repo.Core, jobs: Jobs)
    ensures Reached(core, jobs, {}, core, jobs)
  {
    NothingClosed(core, jobs);
    NothingRecorded(core, jobs);
    NothingRaised(core, jobs);
  }

  // ---------------------------------------------------------------- the restart itself

  /** Makes up a job for every live run that has none. */
  method SeedJobs(core: Repo.InMemoryRepository, jobs: JobStateRepository)
    modifies jobs
    ensures jobs.jobs == Seeded(core.State(), old(jobs.jobs))
  {
    var todo := core.runs.Keys;
    while todo != {}
      invariant todo <= core.runs.Keys
      invariant core.State() == old(core.State())
      invariant forall run :: run in jobs.jobs <==>
                  run in old(jobs.jobs) || (run in Seeded(core.State(), old(jobs.jobs)) && run !in todo)
      invariant forall run :: run in jobs.jobs ==> jobs.jobs[run] == Seeded(core.State(), old(jobs.jobs))[run]
      decreases todo
    {
      var run :| run in todo;
      todo := todo - {run};
      if !core.runs[run].deleted && run !in jobs.jobs && core.runs[run].isRecord && core.runs[run].selectedAttempt.None? {
        jobs.jobs := jobs.jobs[run := Initial(run).(
          attemptId := if run in core.activeAttempts then Some(core.activeAttempts[run]) else None)];
      }
    }
  }

  /** The failed record to write for an interrupted run, if one is due. */
  method FinalOf(core: Repo.InMemoryRepository, run: string, job: Job) returns (due: bool, key: Repo.ProgressKey, final: Repo.Progress)
    ensures due == IsRecorded(core.State(), run, job)
    ensures due ==> key == FinalKey(core.State(), run, job) && final == FinalRecord(core.State(), run, job)
  {
    var attempt := AttemptOf(core.State(), run, job);
    due := run in core.runs && attempt.Some?;
    if due {
      var workspace := core.runs[run].workspace;
      var latest := FindLatest(core, workspace, run, attempt.value);
      var sequence := Max(job.progressSequence, if latest.Some? then latest.value.sequence else -1) + 1;
      key := Repo.ProgressKey(workspace, run, attempt.value, sequence);
      final := Repo.Progress(run, attempt.value, Repo.Failed, sequence,
                             if latest.Some? then core.progress[latest.value].body else NO_WORK);
    } else {
      key := Repo.ProgressKey("", run, "", 0);
      final := Repo.Progress(run, "", Repo.Failed, 0, NO_WORK);
    }
  }

  /** Closes one running job, its fence, and the record of its attempt. */
  method InterruptJob(core: Repo.InMemoryRepository, jobs: JobStateRepository, run: string)
    requires run in jobs.jobs
    modifies core, jobs
    ensures core.State() == InterruptOne(old(core.State()), run, old(jobs.jobs)[run])
    ensures jobs.jobs == old(jobs.jobs)[run := InterruptedJob(old(core.State()), run, old(jobs.jobs)[run])]
  {
    hide FinalSequence, FinalRecord, RecordsOf, AttemptOf;
    var job := jobs.jobs[run];
    var closed := job.(state := Failed, failureReason := Some("interrupted_by_restart"),
                       leaseExpiresAt := None, heartbeatAt := None, revision := job.revision + 1, fence := job.fence + 1);
    var due, key, final := FinalOf(core, run, job);
    core.activeAttempts := core.activeAttempts - {run};
    core.fences := core.fences[run := Max((if run in core.fences then core.fences[run] else 0) + 1, closed.fence)];
    if due {
      CloseRun(core, run, key, final);
      closed := closed.(progressSequence := key.sequence);
    }
    jobs.jobs := jobs.jobs[run := closed];
  }

  /** Selects the attempt and stores its failed record. */
  method CloseRun(core: Repo.InMemoryRepository, run: string, key: Repo.ProgressKey, final: Repo.Progress)
    requires run in core.runs
    modifies core
    ensures core.State() == old(core.State()).(
              runs := if old(core.runs)[run].isRecord
                      then old(core.runs)[run := old(core.runs)[run].(selectedAttempt := Some(key.attemptId))] else old(core.runs),
              selected := old(core.selected)[run := key.attemptId], progress := old(core.progress)[key := final])
  {
    if core.runs[run].isRecord {
      core.runs := core.runs[run := core.runs[run].(selectedAttempt := Some(key.attemptId))];
    }
    core.selected := core.selected[run := key.attemptId];
    core.progress := core.progress[key := final];
  }

  method Interrupt(core: Repo.InMemoryRepository, jobs: JobStateRepository)
    modifies core, jobs
    ensures (core.State(), jobs.jobs) == Restart(old(core.State()), old(jobs.jobs))
  {
    hide Restart, RestartSome, Reached, Seeded, ClosedJobs, InterruptOne, InterruptedJob;
    SeedJobs(core, jobs);
    ghost var core0, seeded := core.State(), jobs.jobs;
    var todo := Running(jobs.jobs);
    ghost var done: set<string> := {};
    FirstReached(core0, seeded);
    while todo != {}
      invariant done + todo == Running(seeded) && done !! todo
      invariant Reached(core0, seeded, done, core.State(), jobs.jobs)
      decreases todo
    {
      var run :| run in todo;
      NextRestart(core0, seeded, done, core.State(), jobs.jobs, run);
      InterruptJob(core, jobs, run);
      todo, done := todo - {run}, done + {run};
    }
    assert done == Running(seeded);
    AllReached(core0, old(jobs.jobs), core.State(), jobs.jobs);
  }

  // ---------------------------------------------------------------- main results

  /** After a restart every job is terminal, every job there was before is still there, finished
      ones as they were, and every live unfinished run has a job that says it failed. */
  lemma RestartClosesEverything(core: Repo.Core, jobs: Jobs)
    ensures var (core', jobs') := Restart(core, jobs);
            && jobs.Keys <= jobs'.Keys
            && (forall run :: run in jobs' ==> jobs'[run].state.Terminal())
            && (forall run :: run in jobs && jobs[run].state.Terminal() ==> jobs'[run] == jobs[run])
            && (forall run :: run in core.runs && !core.runs[run].deleted && core.runs[run].isRecord
                              && core.runs[run].selectedAttempt.None? && (run in jobs ==> !jobs[run].state.Terminal()) ==>
                  run in jobs' && jobs'[run].state == Failed)
  {
    hide RestartSome, IsRecorded, FinalSequence;
  }

  lemma FinalKeyIsNew(core: Repo.Core, run: string, job: Job)
    requires IsRecorded(core, run, job)
    ensures var workspace, attempt := core.runs[run].workspace, AttemptOf(core, run, job).value;
            FinalKey(core, run, job) !in core.progress
            && forall k :: k in RecordsOf(core, workspace, run, attempt) ==> k.sequence < FinalSequence(core, run, job)
  {
    var workspace, attempt := core.runs[run].workspace, AttemptOf(core, run, job).value;
    var key := FinalKey(core, run, job);
    assert key in core.progress ==> key in RecordsOf(core, workspace, run, attempt);
  }

  /** A restart adds, of one run's records, only the failed one of its interruption. */
  lemma OneKeyAdded(core: Repo.Core, jobs: Jobs, run: string)
    requires run in Running(jobs) && IsRecorded(core, run, jobs[run])
    ensures var final := FinalRecords(core, jobs, Running(jobs));
            var key := FinalKey(core, run, jobs[run]);
            key in final && final[key] == FinalRecord(core, run, jobs[run])
            && forall k :: k in final && k.runId == run ==> k == key
  {
    var done := Running(jobs);
    forall k: Repo.ProgressKey | k.runId == run
      ensures k in FinalRecords(core, jobs, done) <==> k == FinalKey(core, run, jobs[run])
    {
      FinalRecordsAreOwn(core, jobs, done, k);
    }
    FinalRecordsAreOwn(core, jobs, done, FinalKey(core, run, jobs[run]));
  }

  lemma RecordsPlusOne(core: Repo.Core, final: map<Repo.ProgressKey, Repo.Progress>, workspace: string, run: string,
                       attempt: string, key: Repo.ProgressKey)
    requires key in final && key.workspace == workspace && key.runId == run && key.attemptId == attempt
    requires forall k :: k in final && k.runId == run ==> k == key
    ensures var core' := core.(progress := core.progress + final);
            RecordsOf(core', workspace, run, attempt) == RecordsOf(core, workspace, run, attempt) + {key}
            && core'.progress[key] == final[key]
  {
  }

  /** Each interrupted job whose attempt is known and whose run is stored gains exactly one progress
      record: failed, and numbered beyond every earlier one of the attempt. Nothing is overwritten. */
  lemma OneFailedRecord(core: Repo.Core, jobs: Jobs, run: string)
    requires var seeded := Seeded(core, jobs); run in Running(seeded) && IsRecorded(core, run, seeded[run])
    ensures var (core', jobs') := Restart(core, jobs);
            var job := Seeded(core, jobs)[run];
            var workspace, attempt := core.runs[run].workspace, AttemptOf(core, run, job).value;
            var key := FinalKey(core, run, job);
            && key !in core.progress && key in core'.progress
            && RecordsOf(core', workspace, run, attempt) == RecordsOf(core, workspace, run, attempt) + {key}
            && core'.progress[key].phase == Repo.Failed && core'.progress[key].sequence == key.sequence
            && (forall k :: k in RecordsOf(core, workspace, run, attempt) ==> k.sequence < key.sequence)
            && key.sequence > job.progressSequence && jobs'[run].progressSequence == key.sequence
            && run in core'.selected && core'.selected[run] == attempt
  {
    var seeded := Seeded(core, jobs);
    var workspace, attempt := core.runs[run].workspace, AttemptOf(core, run, seeded[run]).value;
    var final := FinalRecords(core, seeded, Running(seeded));
    FinalKeyIsNew(core, run, seeded[run]);
    OneKeyAdded(core, seeded, run);
    RecordsPlusOne(core, final, workspace, run, attempt, FinalKey(core, run, seeded[run]));
    assert RecordsOf(Restart(core, jobs).0, workspace, run, attempt)
        == RecordsOf(core.(progress := core.progress + final), workspace, run, attempt);
    assert run in SelectedAttempts(core, seeded, Running(seeded));
  }

  /** Records that were there before a restart are there after it, unchanged. */
  lemma RecordsSurvive(core: Repo.Core, jobs: Jobs, k: Repo.ProgressKey)
    requires k in core.progress
    ensures k in Restart(core, jobs).0.progress && Restart(core, jobs).0.progress[k] == core.progress[k]
  {
    var seeded := Seeded(core, jobs);
    FinalRecordsAreOwn(core, seeded, Running(seeded), k);
    if k in FinalRecords(core, seeded, Running(seeded)) {
      OneFailedRecord(core, jobs, k.runId);
    }
  }

  lemma FenceAfter(core: Repo.Core, jobs: Jobs, done: set<string>, run: string)
    requires done <= jobs.Keys && run in done
    ensures var core' := RestartSome(core, jobs, done);
            Repo.FenceOf(core', run) == Max(Repo.FenceOf(core, run) + 1, jobs[run].fence + 1)
            && run !in core'.activeAttempts
  {
    var raised := RaisedFences(core, jobs, done);
    assert run in raised;
    assert (core.fences + raised)[run] == raised[run];
  }

  /** Nobody can commit to an interrupted run, and its fence has moved past every fence in use. */
  lemma InterruptedRunIsFenced(core: Repo.Core, jobs: Jobs, run: string, attempt: string, fence: nat)
    requires run in Running(Seeded(core, jobs))
    ensures var core' := Restart(core, jobs).0;
            !Repo.MayCommit(core', run, attempt, fence)
            && Repo.FenceOf(core, run) < Repo.FenceOf(core', run)
            && Seeded(core, jobs)[run].fence < Repo.FenceOf(core', run)
  {
    var seeded := Seeded(core, jobs);
    FenceAfter(core, seeded, Running(seeded), run);
  }

  lemma NothingToSeed(core: Repo.Core, jobs: Jobs)
    ensures var (core', jobs') := Restart(core, jobs); Seeded(core', jobs') == jobs'
  {
    hide RaisedFences, FinalRecords, SelectedAttempts, InterruptedJob, IsRecorded, AttemptOf;
    var seeded := Seeded(core, jobs);
    var runs := ClosedRuns(core, seeded, Running(seeded));
    assert ClosedJobs(core, seeded, Running(seeded)).Keys == seeded.Keys;
    forall run | run in runs && run !in seeded
      ensures runs[run].deleted || !runs[run].isRecord || runs[run].selectedAttempt.Some?
    {
      assert runs[run] == core.runs[run];
    }
  }

  /** A second restart finds nothing left to do. */
  lemma RestartIsIdempotent(core: Repo.Core, jobs: Jobs)
    ensures var (core', jobs') := Restart(core, jobs); Restart(core', jobs') == (core', jobs')
  {
    var (core', jobs') := Restart(core, jobs);
    NothingToSeed(core, jobs);
    assert Running(jobs') == {} by {
      RestartClosesEverything(core, jobs);
    }
    FirstReached(core', jobs');
  }
}
