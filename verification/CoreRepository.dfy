/** The in-memory domain store: run fences, active attempts, committed events and progress. */
module CoreRepository {
  import opened Contracts

  /** The attempt that a run document itself names; a run record has no field for it. */
  datatype AttemptField = NoField | Holds(id: Option<string>)

  /** A stored run. `isRecord` tells a run record from any other document. */
  datatype RunDoc = RunDoc(
    workspace: string, isRecord: bool, deleted: bool, selectedAttempt: Option<string>, attempt: AttemptField)

  datatype Event = Event(id: string, startMs: nat, revision: nat)

  datatype Phase = Queued | Preparing | Running | Completed | Partial | Failed | Cancelled

  datatype ProgressBody = ProgressBody(
    processed: seq<TimeRange>, requestedSamples: nat, processedSamples: nat, reviewBacklog: nat,
    cancelRequested: bool, usage: int)

  datatype Progress = Progress(runId: string, attemptId: string, phase: Phase, sequence: int, body: ProgressBody)

  datatype ProgressKey = ProgressKey(workspace: string, runId: string, attemptId: string, sequence: int)

  datatype EventKey = EventKey(workspace: string, id: string)

  datatype AttemptKey = AttemptKey(runId: string, attemptId: string)

  datatype Core = Core(
    runs: map<string, RunDoc>, events: map<EventKey, Event>, progress: map<ProgressKey, Progress>,
    activeAttempts: map<string, string>, fences: map<string, nat>,
    workers: map<AttemptKey, string>, selected: map<string, string>)

  const EMPTY_CORE := Core(map[], map[], map[], map[], map[], map[], map[])

  function FenceOf(core: Core, run: string): nat {
    if run in core.fences then core.fences[run] else 0
  }

  /** May this attempt, with this fence, write to the run? */
  predicate MayCommit(core: Core, run: string, attempt: string, fence: nat) {
    run in core.runs && run in core.activeAttempts && core.activeAttempts[run] == attempt
    && FenceOf(core, run) <= fence
  }

  predicate MayClaim(core: Core, run: string, attempt: string, fence: nat) {
    run in core.runs && !(AttemptKey(run, attempt) in core.workers && fence < FenceOf(core, run))
  }

  function ClaimedCore(core: Core, run: string, attempt: string, worker: string, fence: nat): Core
    requires run in core.runs
  {
    core.(runs := core.runs[run := core.runs[run].(attempt := if core.runs[run].attempt.Holds? then Holds(Some(attempt)) else NoField)],
          fences := core.fences[run := Max(fence, FenceOf(core, run) + 1)],
          activeAttempts := core.activeAttempts[run := attempt],
          workers := core.workers[AttemptKey(run, attempt) := worker])
  }

  function WithEvent(core: Core, run: string, fence: nat, event: Event): Core
    requires run in core.runs
  {
    core.(fences := core.fences[run := fence],
          events := core.events[EventKey(core.runs[run].workspace, event.id) := event])
  }

  function WithProgress(core: Core, run: string, attempt: string, fence: nat, progress: Progress): Core
    requires run in core.runs
  {
    core.(fences := core.fences[run := fence],
          progress := core.progress[ProgressKey(core.runs[run].workspace, run, attempt, progress.sequence) := progress])
  }

  function Finalized(core: Core, run: string, attempt: string): Core
    requires run in core.runs
  {
    core.(selected := core.selected[run := attempt],
          runs := core.runs[run := core.runs[run].(selectedAttempt := Some(attempt))])
  }

  class InMemoryRepository {
    var runs: map<string, RunDoc>
    var events: map<EventKey, Event>
    var progress: map<ProgressKey, Progress>
    var activeAttempts: map<string, string>
    var fences: map<string, nat>
    var workers: map<AttemptKey, string>
    var selected: map<string, string>

    function State(): Core
      reads this
    {
      Core(runs, events, progress, activeAttempts, fences, workers, selected)
    }

    constructor ()
      ensures State() == EMPTY_CORE
    {
      runs, events, progress, activeAttempts := map[], map[], map[], map[];
      fences, workers, selected := map[], map[], map[];
    }

    method ClaimAttempt(run: string, attempt: string, worker: string, fence: nat) returns (ok: bool)
      modifies this
      ensures ok == MayClaim(old(State()), run, attempt, fence)
      ensures State() == if ok then ClaimedCore(old(State()), run, attempt, worker, fence) else old(State())
    {
      if run !in runs {
        return false;
      }
      var key := AttemptKey(run, attempt);
      var current := if run in fences then fences[run] else 0;
      if key in workers && fence < current {
        return false;
      }
      fences := fences[run := Max(fence, current + 1)];
      activeAttempts := activeAttempts[run := attempt];
      workers := workers[key := worker];
      if runs[run].attempt.Holds? {
        runs := runs[run := runs[run].(attempt := Holds(Some(attempt)))];
      }
      assert runs == ClaimedCore(old(State()), run, attempt, worker, fence).runs;
      ok := true;
    }

    method CommitEvent(run: string, attempt: string, fence: nat, event: Event) returns (ok: bool)
      modifies this
      ensures ok == MayCommit(old(State()), run, attempt, fence)
      ensures State() == if ok then WithEvent(old(State()), run, fence, event) else old(State())
    {
      if run !in runs {
        return false;
      }
      if run !in activeAttempts || activeAttempts[run] != attempt {
        return false;
      }
      var current := if run in fences then fences[run] else 0;
      if fence < current {
        return false;
      }
      fences := fences[run := fence];
      events := events[EventKey(runs[run].workspace, event.id) := event];
      ok := true;
    }

    method CommitProgress(run: string, attempt: string, fence: nat, update: Progress) returns (ok: bool)
      modifies this
      ensures ok == MayCommit(old(State()), run, attempt, fence)
      ensures State() == if ok then WithProgress(old(State()), run, attempt, fence, update) else old(State())
    {
      if run !in runs {
        return false;
      }
      if run !in activeAttempts || activeAttempts[run] != attempt {
        return false;
      }
      var current := if run in fences then fences[run] else 0;
      if fence < current {
        return false;
      }
      fences := fences[run := fence];
      progress := progress[ProgressKey(runs[run].workspace, run, attempt, update.sequence) := update];
      ok := true;
    }

    method FinalizeRun(run: string, attempt: string) returns (ok: bool)
      modifies this
      ensures ok == (run in old(runs) && run in old(activeAttempts) && old(activeAttempts)[run] == attempt)
      ensures State() == if ok then Finalized(old(State()), run, attempt) else old(State())
    {
      if run !in runs || run !in activeAttempts || activeAttempts[run] != attempt {
        return false;
      }
      selected := selected[run := attempt];
      runs := runs[run := runs[run].(selectedAttempt := Some(attempt))];
      ok := true;
    }
  }

  // ---------------------------------------------------------------- stale workers, over whole histories

  datatype Op =
    | Claim(run: string, attempt: string, worker: string, fence: nat)
    | PutEvent(run: string, attempt: string, fence: nat, event: Event)
    | PutProgress(run: string, attempt: string, fence: nat, update: Progress)
    | Finalize(run: string, attempt: string)
    | AddRun(run: string, doc: RunDoc)
    | Interrupt(run: string, jobFence: nat)

  /** What a restart does to the fence of an interrupted run. */
  function Interrupted(core: Core, run: string, jobFence: nat): Core {
    core.(activeAttempts := core.activeAttempts - {run},
          fences := core.fences[run := Max(FenceOf(core, run) + 1, jobFence)])
  }

  predicate Accepted(core: Core, op: Op) {
    match op
    case Claim(run, attempt, _, fence) => MayClaim(core, run, attempt, fence)
    case PutEvent(run, attempt, fence, _) => MayCommit(core, run, attempt, fence)
    case PutProgress(run, attempt, fence, _) => MayCommit(core, run, attempt, fence)
    case Finalize(run, attempt) => run in core.runs && run in core.activeAttempts && core.activeAttempts[run] == attempt
    case AddRun(run, _) => run !in core.runs
    case Interrupt(_, _) => true
  }

  function Step(core: Core, op: Op): Core {
    if !Accepted(core, op) then core
    else match op
      case Claim(run, attempt, worker, fence) => ClaimedCore(core, run, attempt, worker, fence)
      case PutEvent(run, _, fence, event) => WithEvent(core, run, fence, event)
      case PutProgress(run, attempt, fence, update) => WithProgress(core, run, attempt, fence, update)
      case Finalize(run, attempt) => Finalized(core, run, attempt)
      case AddRun(run, doc) => core.(runs := core.runs[run := doc])
      case Interrupt(run, jobFence) => Interrupted(core, run, jobFence)
  }

  function History(ops: seq<Op>): Core {
    if |ops| == 0 then EMPTY_CORE else Step(History(ops[..|ops| - 1]), ops[|ops| - 1])
  }

  predicate IsCommit(op: Op, run: string, fence: nat) {
    (op.PutEvent? && op.run == run && op.fence == fence) || (op.PutProgress? && op.run == run && op.fence == fence)
  }

  /** A takeover of the run, or its interruption by a restart. */
  predicate IsTakeover(op: Op, run: string) {
    (op.Claim? && op.run == run) || (op.Interrupt? && op.run == run)
  }

  lemma StepRaisesFence(core: Core, op: Op, run: string)
    ensures FenceOf(core, run) <= FenceOf(Step(core, op), run)
    ensures Accepted(core, op) && IsTakeover(op, run) ==> FenceOf(core, run) < FenceOf(Step(core, op), run)
  {
  }

  lemma {:induction false} FenceNeverFalls(ops: seq<Op>, i: nat, j: nat, run: string)
    requires i <= j <= |ops|
    ensures FenceOf(History(ops[..i]), run) <= FenceOf(History(ops[..j]), run)
    decreases j
  {
    if i < j {
      FenceNeverFalls(ops, i, j - 1, run);
      assert ops[..j][..j - 1] == ops[..j - 1];
      StepRaisesFence(History(ops[..j - 1]), ops[j - 1], run);
    }
  }

  /** A fence under which a commit was accepted before a takeover or interruption of the run is
      refused, as is every smaller one, for every commit of that run ever after. */
  lemma StaleFenceNeverCommits(ops: seq<Op>, i: nat, j: nat, k: nat, run: string, fence: nat, later: nat)
    requires i < j < k < |ops|
    requires IsCommit(ops[i], run, fence) && Accepted(History(ops[..i]), ops[i])
    requires IsTakeover(ops[j], run) && Accepted(History(ops[..j]), ops[j])
    requires IsCommit(ops[k], run, later) && later <= fence
    ensures !Accepted(History(ops[..k]), ops[k])
  {
    assert ops[..i + 1][..i] == ops[..i] && ops[..j + 1][..j] == ops[..j];
    assert FenceOf(History(ops[..i + 1]), run) == fence;
    FenceNeverFalls(ops, i + 1, j, run);
    StepRaisesFence(History(ops[..j]), ops[j], run);
    FenceNeverFalls(ops, j + 1, k, run);
  }

  /** A claim lets its own worker commit exactly when its fence is beyond the run's fence. */
  lemma ClaimMayCommit(core: Core, run: string, attempt: string, worker: string, fence: nat)
    requires MayClaim(core, run, attempt, fence)
    ensures MayCommit(ClaimedCore(core, run, attempt, worker, fence), run, attempt, fence) <==>
            FenceOf(core, run) < fence
  {
  }

  /** Claiming the same attempt with the same fence again locks that worker out. */
  lemma SecondClaimLocksOut(core: Core, run: string, attempt: string, worker: string, again: string, fence: nat)
    requires MayClaim(core, run, attempt, fence) && FenceOf(core, run) < fence
    ensures var once := ClaimedCore(core, run, attempt, worker, fence);
            MayCommit(once, run, attempt, fence) && MayClaim(once, run, attempt, fence)
            && !MayCommit(ClaimedCore(once, run, attempt, again, fence), run, attempt, fence)
  {
  }
}
