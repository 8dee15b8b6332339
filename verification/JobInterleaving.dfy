/** Competing clients of the job store, interleaved at single reads and compare-and-swaps. */
module JobInterleaving {
  import opened Contracts
  import opened JobRecords

  /** Where one client stands in the compare-and-swap loop. */
  datatype Client = Idle | Intending(run: string, m: Mutation) | Holding(run: string, m: Mutation, seen: Job)

  datatype System = System(jobs: map<string, Job>, clients: map<nat, Client>)

  datatype Event =
    | Create(run: string)
    | Begin(client: nat, run: string, m: Mutation)
    | Read(client: nat)
    | Commit(client: nat)
    | GiveUp(client: nat)

  const EMPTY := System(map[], map[])

  function ClientOf(s: System, c: nat): Client {
    if c in s.clients then s.clients[c] else Idle
  }

  function Revision(jobs: map<string, Job>, run: string): nat {
    if run in jobs then jobs[run].revision else 0
  }

  /** Stores the value only over the revision the caller names. */
  function CompareAndSwap(jobs: map<string, Job>, run: string, revision: nat, value: Job): (map<string, Job>, bool) {
    if Revision(jobs, run) != revision then (jobs, false) else (jobs[run := value], true)
  }

  /** What a dispatching client looked at before it decided to mark the run. */
  predicate MayBegin(s: System, run: string, m: Mutation) {
    m.MarkDispatching? ==> run in s.jobs && s.jobs[run].state == Queued && s.jobs[run].invocationId.None?
  }

  function Step(s: System, e: Event): System {
    match e
    case Create(run) => s.(jobs := CompareAndSwap(s.jobs, run, 0, Initial(run)).0)
    case Begin(c, run, m) =>
      if ClientOf(s, c).Idle? && MayBegin(s, run, m) then s.(clients := s.clients[c := Intending(run, m)]) else s
    case Read(c) =>
      (match ClientOf(s, c)
       case Intending(run, m) =>
         if run in s.jobs then s.(clients := s.clients[c := Holding(run, m, s.jobs[run])])
         else s.(clients := s.clients[c := Idle])
       case _ => s)
    case Commit(c) =>
      (match ClientOf(s, c)
       case Holding(run, m, seen) =>
         var changed := Committed(m, seen);
         if changed.Err? then s.(clients := s.clients[c := Idle])
         else
           var (jobs, swapped) := CompareAndSwap(s.jobs, run, seen.revision, changed.value);
           System(jobs, s.clients[c := if swapped then Idle else Intending(run, m)])
       case _ => s)
    case GiveUp(c) => s.(clients := s.clients[c := Idle])
  }

  function Run(events: seq<Event>): System {
    if |events| == 0 then EMPTY else Step(Run(events[..|events| - 1]), events[|events| - 1])
  }

  /** The mutation an event successfully swaps in, if it does. */
  function Swapped(s: System, e: Event): Option<(string, Mutation)> {
    if e.Commit? && ClientOf(s, e.client).Holding? then
      var client := ClientOf(s, e.client);
      if Committed(client.m, client.seen).Ok? && Revision(s.jobs, client.run) == client.seen.revision
      then Some((client.run, client.m)) else None
    else None
  }

  /** All mutations of one run whose compare-and-swap succeeded, in the order they did. */
  function Successes(events: seq<Event>, run: string): seq<Mutation> {
    if |events| == 0 then []
    else
      var init := events[..|events| - 1];
      var last := Swapped(Run(init), events[|events| - 1]);
      Successes(init, run) + (if last.Some? && last.value.0 == run then [last.value.1] else [])
  }

  // ---------------------------------------------------------------- the invariant

  /** A stored document is its initial form with every successful mutation applied in turn. */
  ghost predicate StoreIsChain(events: seq<Event>) {
    var jobs := Run(events).jobs;
    && (forall run :: run in jobs ==> Replay(Initial(run), Successes(events, run)) == Ok(jobs[run]))
    && (forall run :: run !in jobs ==> Successes(events, run) == [])
  }

  /** Whatever a client still holds is an element of that chain. */
  ghost predicate HeldIsInChain(events: seq<Event>, run: string, seen: Job) {
    var log := Successes(events, run);
    run in Run(events).jobs && seen.revision <= |log|
    && Replay(Initial(run), log[..seen.revision]) == Ok(seen)
  }

  ghost predicate AllHeldInChain(events: seq<Event>) {
    forall c :: ClientOf(Run(events), c).Holding? ==>
      HeldIsInChain(events, ClientOf(Run(events), c).run, ClientOf(Run(events), c).seen)
  }

  lemma {:induction false} RunKeepsChain(events: seq<Event>)
    ensures StoreIsChain(events) && AllHeldInChain(events)
  {
    if |events| > 0 {
      var init, e := events[..|events| - 1], events[|events| - 1];
      RunKeepsChain(init);
      StoreStep(events);
      forall c | ClientOf(Run(events), c).Holding?
        ensures HeldIsInChain(events, ClientOf(Run(events), c).run, ClientOf(Run(events), c).seen)
      {
        HeldStep(events, c);
      }
    }
  }

  /** A successful swap was computed from the document it replaces. */
  lemma SwapSawCurrent(events: seq<Event>, run: string, seen: Job)
    requires StoreIsChain(events) && HeldIsInChain(events, run, seen)
    requires Revision(Run(events).jobs, run) == seen.revision
    ensures Run(events).jobs[run] == seen
  {
    var log := Successes(events, run);
    ReplayCounts(Initial(run), log);
    assert log[..|log|] == log;
  }

  lemma StoreStep(events: seq<Event>)
    requires |events| > 0
    requires StoreIsChain(events[..|events| - 1]) && AllHeldInChain(events[..|events| - 1])
    ensures StoreIsChain(events)
  {
    var init, e := events[..|events| - 1], events[|events| - 1];
    var s, s' := Run(init), Run(events);
    forall run ensures run in s'.jobs ==> Replay(Initial(run), Successes(events, run)) == Ok(s'.jobs[run])
               ensures run !in s'.jobs ==> Successes(events, run) == []
    {
      StoreStepAt(events, run);
    }
  }

  /** A stored document changes only by a successful swap; creation touches no document that has
      left its initial state. */
  lemma DocStep(s: System, e: Event, run: string)
    requires run in s.jobs && s.jobs[run].revision == 0 ==> s.jobs[run] == Initial(run)
    ensures var swapped := Swapped(s, e);
            if swapped.Some? && swapped.value.0 == run then
              Step(s, e).jobs == s.jobs[run := Committed(swapped.value.1, ClientOf(s, e.client).seen).value]
            else
              && (run in s.jobs ==> run in Step(s, e).jobs && Step(s, e).jobs[run] == s.jobs[run])
              && (run !in s.jobs && run in Step(s, e).jobs ==> Step(s, e).jobs[run] == Initial(run))
  {
  }

  lemma SuccessStep(init: seq<Event>, e: Event, run: string)
    requires StoreIsChain(init) && AllHeldInChain(init)
    requires Swapped(Run(init), e).Some? && Swapped(Run(init), e).value.0 == run
    ensures Replay(Initial(run), Successes(init + [e], run)) ==
            Committed(Swapped(Run(init), e).value.1, ClientOf(Run(init), e.client).seen)
    ensures Committed(Swapped(Run(init), e).value.1, ClientOf(Run(init), e.client).seen).Ok?
  {
    hide Step, Committed;
    var client, log := ClientOf(Run(init), e.client), Successes(init, run);
    assert HeldIsInChain(init, run, client.seen);
    SwapSawCurrent(init, run, client.seen);
    assert (init + [e])[..|init|] == init;
    var longer := Successes(init + [e], run);
    assert longer == log + [client.m] && longer[..|longer| - 1] == log;
  }

  lemma OtherStep(events: seq<Event>, run: string)
    requires |events| > 0
    requires var s, e := Run(events[..|events| - 1]), events[|events| - 1];
             Swapped(s, e).None? || Swapped(s, e).value.0 != run
    ensures Successes(events, run) == Successes(events[..|events| - 1], run)
  {
    hide Run, Swapped;
  }

  lemma UntouchedIsInitial(events: seq<Event>, run: string)
    requires StoreIsChain(events) && run in Run(events).jobs && Run(events).jobs[run].revision == 0
    ensures Run(events).jobs[run] == Initial(run)
  {
    hide Run, Successes;
    ReplayCounts(Initial(run), Successes(events, run));
  }

  lemma StoreStepAt(events: seq<Event>, run: string)
    requires |events| > 0
    requires StoreIsChain(events[..|events| - 1]) && AllHeldInChain(events[..|events| - 1])
    ensures var s' := Run(events);
            (run in s'.jobs ==> Replay(Initial(run), Successes(events, run)) == Ok(s'.jobs[run]))
            && (run !in s'.jobs ==> Successes(events, run) == [])
  {
    hide Step, Swapped, Successes, Committed, AllHeldInChain;
    var init, e := events[..|events| - 1], events[|events| - 1];
    var s := Run(init);
    assert Run(events) == Step(s, e);
    if run in s.jobs && s.jobs[run].revision == 0 {
      UntouchedIsInitial(init, run);
    }
    DocStep(s, e, run);
    if Swapped(s, e).Some? && Swapped(s, e).value.0 == run {
      SuccessStep(init, e, run);
      assert init + [e] == events;
    } else {
      OtherStep(events, run);
    }
  }

  lemma {:induction false} ChainGrows(events: seq<Event>, run: string)
    requires |events| > 0
    ensures Successes(events[..|events| - 1], run) <= Successes(events, run)
    ensures run in Run(events[..|events| - 1]).jobs ==> run in Run(events).jobs
  {
    if run in Run(events[..|events| - 1]).jobs {
      JobsStay(Run(events[..|events| - 1]), events[|events| - 1], run);
    }
  }

  lemma JobsStay(s: System, e: Event, run: string)
    requires run in s.jobs
    ensures run in Step(s, e).jobs
  {
  }

  lemma HoldingComesFrom(s: System, e: Event, c: nat)
    requires ClientOf(Step(s, e), c).Holding?
    ensures ClientOf(s, c) == ClientOf(Step(s, e), c)
            || (e == Read(c) && ClientOf(Step(s, e), c).run in s.jobs
                && ClientOf(Step(s, e), c).seen == s.jobs[ClientOf(Step(s, e), c).run])
  {
  }

  /** What a client holds stays in the chain while the chain grows. */
  lemma HeldStays(init: seq<Event>, events: seq<Event>, run: string, seen: Job)
    requires HeldIsInChain(init, run, seen)
    requires Successes(init, run) <= Successes(events, run) && run in Run(events).jobs
    ensures HeldIsInChain(events, run, seen)
  {
    hide Run, Successes, Replay;
    assert Successes(events, run)[..seen.revision] == Successes(init, run)[..seen.revision];
  }

  /** What a client reads is the newest element of the chain. */
  lemma ReadIsInChain(events: seq<Event>, run: string)
    requires StoreIsChain(events) && run in Run(events).jobs
    ensures HeldIsInChain(events, run, Run(events).jobs[run])
  {
    hide Run, Successes;
    var log := Successes(events, run);
    ReplayCounts(Initial(run), log);
    assert log[..|log|] == log;
  }

  lemma HeldStep(events: seq<Event>, c: nat)
    requires |events| > 0 && ClientOf(Run(events), c).Holding?
    requires StoreIsChain(events[..|events| - 1]) && AllHeldInChain(events[..|events| - 1])
    ensures HeldIsInChain(events, ClientOf(Run(events), c).run, ClientOf(Run(events), c).seen)
  {
    hide Step, HeldIsInChain, StoreIsChain, Successes;
    var init, e := events[..|events| - 1], events[|events| - 1];
    var run, seen := ClientOf(Run(events), c).run, ClientOf(Run(events), c).seen;
    HoldingComesFrom(Run(init), e, c);
    if ClientOf(Run(init), c) != ClientOf(Run(events), c) {
      ReadIsInChain(init, run);
    }
    assert HeldIsInChain(init, run, seen);
    HeldInStore(init, run, seen);
    ChainGrows(events, run);
    HeldStays(init, events, run, seen);
  }

  lemma HeldInStore(events: seq<Event>, run: string, seen: Job)
    requires HeldIsInChain(events, run, seen)
    ensures run in Run(events).jobs
  {
  }

  // ---------------------------------------------------------------- main results

  /** No lost update: under any interleaving the stored document is the initial one with every
      successful mutation applied to its immediate predecessor, and the revision counts them. */
  lemma NoLostUpdate(events: seq<Event>, run: string)
    requires run in Run(events).jobs
    ensures Replay(Initial(run), Successes(events, run)) == Ok(Run(events).jobs[run])
    ensures Run(events).jobs[run].revision == |Successes(events, run)|
  {
    RunKeepsChain(events);
    ReplayCounts(Initial(run), Successes(events, run));
  }

  /** Creating a run that exists changes nothing, however far it has progressed. */
  lemma CreateNeverClobbers(events: seq<Event>, run: string)
    requires run in Run(events).jobs
    ensures Run(events + [Create(run)]) == Run(events)
  {
    NoLostUpdate(events, run);
    assert (events + [Create(run)])[..|events|] == events;
    if Run(events).jobs[run].revision == 0 {
      assert Run(events).jobs[run] == Initial(run);
    }
  }

  function RunFrom(s: System, events: seq<Event>): System {
    if |events| == 0 then s else Step(RunFrom(s, events[..|events| - 1]), events[|events| - 1])
  }

  lemma {:induction false} RunSplits(before: seq<Event>, events: seq<Event>)
    ensures Run(before + events) == RunFrom(Run(before), events)
  {
    if |events| == 0 {
      assert before + events == before;
    } else {
      assert (before + events)[..|before + events| - 1] == before + events[..|events| - 1];
      RunSplits(before, events[..|events| - 1]);
    }
  }

  lemma {:induction false} Steps(events: seq<Event>, states: seq<System>)
    requires |states| == |events| + 1
    requires forall n :: 0 <= n < |events| ==> Step(states[n], events[n]) == states[n + 1]
    ensures RunFrom(states[0], events) == states[|events|]
  {
    if |events| > 0 {
      Steps(events[..|events| - 1], states[..|events|]);
    }
  }

  /** Every successful swap replaces the very document its mutation was applied to. */
  lemma SwapActsOnCurrent(events: seq<Event>, e: Event)
    requires Swapped(Run(events), e).Some?
    ensures var (run, m) := Swapped(Run(events), e).value;
            run in Run(events).jobs && Committed(m, Run(events).jobs[run]).Ok?
            && Run(events + [e]).jobs == Run(events).jobs[run := Committed(m, Run(events).jobs[run]).value]
  {
    RunKeepsChain(events);
    var client := ClientOf(Run(events), e.client);
    SwapSawCurrent(events, client.run, client.seen);
    assert (events + [e])[..|events|] == events;
  }

  /** A finished run is reopened by exactly one kind of step: a client's decision to dispatch it, made
      earlier, that is swapped in now. Every other step of every client leaves it finished. */
  lemma ReopenedExactly(events: seq<Event>, e: Event, run: string)
    requires run in Run(events).jobs && Run(events).jobs[run].state.Terminal()
    ensures run in Run(events + [e]).jobs
    ensures !Run(events + [e]).jobs[run].state.Terminal() <==> Swapped(Run(events), e) == Some((run, MarkDispatching))
  {
    hide Step, Swapped;
    NoLostUpdate(events, run);
    RunNext(events, e);
    DocStep(Run(events), e, run);
    if Swapped(Run(events), e).Some? && Swapped(Run(events), e).value.0 == run {
      SwapActsOnCurrent(events, e);
      OnlyMarkReopens(Run(events).jobs[run], Swapped(Run(events), e).value.1);
    }
  }

  lemma RunNext(events: seq<Event>, e: Event)
    ensures Run(events + [e]) == Step(Run(events), e)
  {
    assert (events + [e])[..|events|] == events;
  }

  /** Of all mutations that commit on a finished job only the mark leaves it unfinished. */
  lemma OnlyMarkReopens(job: Job, m: Mutation)
    requires job.state.Terminal() && Committed(m, job).Ok?
    ensures !Committed(m, job).value.state.Terminal() <==> m == MarkDispatching
  {
  }

  // A schedule: client 0 has decided to dispatch, client 1 claims and completes, client 0 goes on.

  function Claiming(run: string, worker: string): seq<Event> {
    [Create(run), Begin(0, run, MarkDispatching), Begin(1, run, ClaimState(0, worker, 1)), Read(1), Commit(1)]
  }

  function Finishing(run: string, worker: string): seq<Event> {
    [Begin(1, run, FinishState(worker, 1, Completed)), Read(1), Commit(1)]
  }

  function ClaimedJob(run: string, worker: string): Job {
    Job(1, run, Running, None, false, Some(worker), 1, Some(1), Some(0), -1, None)
  }

  function FinishedJob(run: string, worker: string): Job {
    ClaimedJob(run, worker).(revision := 2, state := Completed, leaseExpiresAt := None)
  }

  function Waiting(run: string, job: Job): System {
    System(map[run := job], map[0 := Intending(run, MarkDispatching), 1 := Idle])
  }

  lemma ClaimingReaches(run: string, worker: string)
    ensures Run(Claiming(run, worker)) == Waiting(run, ClaimedJob(run, worker))
  {
    var claim, job := ClaimState(0, worker, 1), Initial(run);
    var waiting := Intending(run, MarkDispatching);
    assert Committed(claim, job) == Ok(ClaimedJob(run, worker));
    Steps(Claiming(run, worker), [
      EMPTY, System(map[run := job], map[]), System(map[run := job], map[0 := waiting]),
      System(map[run := job], map[0 := waiting, 1 := Intending(run, claim)]),
      System(map[run := job], map[0 := waiting, 1 := Holding(run, claim, job)]),
      Waiting(run, ClaimedJob(run, worker))]);
    RunSplits([], Claiming(run, worker));
    assert [] + Claiming(run, worker) == Claiming(run, worker);
  }

  lemma FinishingReaches(run: string, worker: string)
    ensures RunFrom(Waiting(run, ClaimedJob(run, worker)), Finishing(run, worker)) == Waiting(run, FinishedJob(run, worker))
  {
    var finish, job := FinishState(worker, 1, Completed), ClaimedJob(run, worker);
    var waiting := Intending(run, MarkDispatching);
    assert Committed(finish, job) == Ok(FinishedJob(run, worker));
    Steps(Finishing(run, worker), [
      Waiting(run, job),
      System(map[run := job], map[0 := waiting, 1 := Intending(run, finish)]),
      System(map[run := job], map[0 := waiting, 1 := Holding(run, finish, job)]),
      Waiting(run, FinishedJob(run, worker))]);
  }

  lemma MarkingReaches(run: string, job: Job)
    ensures RunFrom(Waiting(run, job), [Read(0), Commit(0)]).jobs ==
            map[run := job.(revision := job.revision + 1, state := Dispatching)]
  {
    var marked := job.(revision := job.revision + 1, state := Dispatching);
    assert Committed(MarkDispatching, job) == Ok(marked);
    Steps([Read(0), Commit(0)], [
      Waiting(run, job),
      System(map[run := job], map[0 := Holding(run, MarkDispatching, job), 1 := Idle]),
      System(map[run := marked], map[0 := Idle, 1 := Idle])]);
  }

  /** At this granularity a finished run can be reopened: a client that saw it queued marks it
      dispatching after another worker has claimed and completed it. */
  lemma DispatchReopensFinishedRun(run: string, worker: string) returns (events: seq<Event>, n: nat)
    ensures n < |events|
    ensures run in Run(events[..n]).jobs && Run(events[..n]).jobs[run].state == Completed
    ensures run in Run(events).jobs && Run(events).jobs[run].state == Dispatching
  {
    var claiming, finishing, marking := Claiming(run, worker), Finishing(run, worker), [Read(0), Commit(0)];
    ClaimingReaches(run, worker);
    FinishingReaches(run, worker);
    MarkingReaches(run, FinishedJob(run, worker));
    RunSplits(claiming, finishing);
    RunSplits(claiming + finishing, marking);
    events, n := claiming + finishing + marking, |claiming + finishing|;
    assert events[..n] == claiming + finishing;
  }
}
