# Video analysis: verified model

This project models the parts of a video-analysis backend whose correctness is a matter of state,
protocol or arithmetic, and proves what they keep, compute and mean. Every module names the component
it models. The source decides; where its own documentation says something else, that is listed below.

| Area | Modules |
|---|---|
| Temporal rules and the hard gate | `LineReducer`, `RuleReducer`, `ZoneReducer`, `SignalIntervals`, `ZoneRules`, `Disposition`, `RuleFlush`, `TrackedRules`, `RunEngine`, `EndToEnd` |
| Jobs, leases, fences, restart | `JobRecords`, `JobService`, `JobInterleaving`, `CoreRepository`, `RunProtocol`, `Recovery`, `SnapshotCodec`, `SnapshotStore`, `RestartedState` |
| Budget ledger | `Ledger`, `LedgerInterleaving`, `Base64` |
| Evaluation | `Matching`, `Confusion`, `Evaluation` |
| Geometry and compact algorithms | `Segments`, `Polygons`, `Triangles`, `ConvexPolygons`, `IntervalMerge`, `PlanGraph`, `Paging` |
| Semantic windows | `Windows`, `SemanticReasoning`, `SemanticEngine` |
| Shared | `Contracts`, `Sorting` (a stable sort), `TextOrder` |

Source times are integers in milliseconds, coordinates and ratios are reals, ids are strings, and what
detectors, trackers, clocks, identifier factories and providers answer is an arbitrary input.
Operations that change state are methods on classes with the source's fields, specified by functions on
those fields; the theorems are lemmas about these functions.

**How the rule engine is specified.** A trace is read twice. Once by the state machine, as the source
does; once by quantifiers over positions (`IsBracket`, `IsStay`, `IsConfirmedRun`), which mention no
state. The main lemmas say that both agree, for every trace, in both directions. `EndToEnd` joins the
machines, the gate and the run into equivalences about raw observations, up to a whole specification.

**How the protocols are specified.** Jobs and budget accounts are modelled at two granularities.
`JobInterleaving` and `LedgerInterleaving` interleave any number of clients at single reads and
compare-and-swaps. `JobService`, `Ledger` and `RunProtocol` run one operation at a time, which the
snapshot gate arranges (backend/src/vision_app/persistence/snapshot.py:193-203). `RunProtocol` joins job
store, domain store, worker, clock and restart into one transition system and proves its invariant over
every run. `RestartedState` puts documents, jobs and run bookkeeping into one snapshot and proves that a restart,
a save and another restart change nothing more (`RestartedState.RestartComesBack`).

## What the code does that a reader might not expect

- A rule whose two sides are equal, or one of which is the dead band, misses brackets
  (`LineReducer.UndirectedRuleMissesBracket`). The engine only builds directed rules (`TrackedRules.ConfiguredIsSound`).
- Two signal samples at one instant can give an interval that contains a sample of another colour
  (`SignalIntervals.SharedInstant`): exactly when the stability time is 0 and the sample before the run shares its
  instant (`SignalIntervals.SamplesInside`, `EndToEnd.RedInWindow`).
- In a zone rule a stay of a single sample just before an over-long gap makes the reducer raise, although
  the episode it builds there is thrown away anyway (`ZoneReducer.LoneSampleRefused`; `ZoneReducer.RefusedExactly`
  says exactly which traces are refused).
- The fallback end of a source of unknown duration is never reached after a frame: the progress update that follows the
  first frame would have an empty range, and the run fails (`RunEngine.UnknownDurationFails`).
- A zone rule that refuses at the end of the source fails the run after the events of the rules before it have been
  emitted (`RunEngine.FlushAll`).
- The gate accepts red of any region: `governing_signals` decides which regions are observed, not which
  rule an interval gates (`EndToEnd.PooledReds`).
- `finish` does not look at `cancel_requested`; the worker does, and must (`RunProtocol.FinishNeedsTheGuard`).
- Between single compare-and-swaps `dispatch` can reopen a finished run (`JobInterleaving.DispatchReopensFinishedRun`),
  and nothing else can (`JobInterleaving.ReopenedExactly`); with atomic operations it cannot either
  (`RunProtocol.FinishedStaysFinished`).
- A second worker that starts under a live lease is handed the same attempt and fence, while the domain
  store lifts the run fence past them; neither worker, nor any later one, can commit again
  (`RunProtocol.ReclaimLocksOut`, `RunProtocol.LockoutIsForever`).
- A top-level or listed float that is not finite encodes without complaint; writing the JSON refuses it,
  and decoding would (`SnapshotCodec.RoundTrip`).
- A class named like the "none" label shares its row and column with it. Its row sum is then off as soon as there
  are false alarms, its column sum as soon as there are misses (`Confusion.TableAccounts`).
- With a stride longer than the window an absent analysis says nothing about the instants stepped over
  (`SemanticReasoning.AbsenceIsComplete`).
- An actual cost above its estimate takes the ledger over its limit (`Ledger.OverdrawnAccount`) exactly when the
  excess is more than what is left of the limit (`Ledger.LimitHoldsExactly`, `LedgerInterleaving.LimitKeptExactly`),
  and never by more than the excess (`Ledger.BudgetHolds`).

## Model

| member | source | states |
|---|---|---|
| EndToEnd.SpecificationIsSound | backend/src/vision_app/runtime/engine.py:172-350 | A completed run of a whole specification, any mix of rules: under the id of each line rule the supported crossings are exactly those that the raw input proves for it, and under the id of each zone rule the stays of a track contain an instant exactly when its raw observations show it staying in the polygon then |
| EndToEnd.RunIsSound | backend/src/vision_app/runtime/engine.py:223-304 | Whatever other rules run beside it: a supported crossing of a directed line rule is emitted if and only if the raw input contains it as a proven crossing, namely an approach-side and a far-side observation of one track, both really observed, with only dead-band samples and no over-long gap between them and none after them, and, for a red-phase rule, some signal region whose every sample was red from the margin before to the margin after |
| EndToEnd.RunReportsStays | backend/src/vision_app/runtime/engine.py:223-304 | Whatever other rules run beside it: the stays emitted for a track under the id of a zone rule cover exactly the instants at which the raw observations show its anchor staying in the polygon since the last resetting gap |
| EndToEnd.EmittedUnderId | backend/src/vision_app/runtime/engine.py:298-304 | With distinct rule ids, what the run emits under an id is what that rule emits |
| EndToEnd.SupportedIsProven | backend/src/vision_app/rules/reducer.py:260-317 | The same equivalence for one line rule of either capability, with the emitted candidate determined down to its id, bracket and facts |
| EndToEnd.SupportedMeansRed | backend/src/vision_app/rules/disposition.py:64-104 | The hard gate answers supported exactly when the raw samples of some region were red around the bracket and its margin |
| EndToEnd.CoveredMeansRed | backend/src/vision_app/rules/disposition.py:12-27 | Some confirmed red interval covers bracket and margin exactly when the samples were red from at or before the window up to a non-red sample, or the source end, beyond it |
| EndToEnd.RedInWindow | backend/src/vision_app/rules/disposition.py:12-27 | All samples in such a window were red exactly when those at its very first instant were; with distinct sample times they always were |
| EndToEnd.ProvenHasObservations | backend/src/vision_app/rules/reducer.py:29-135 | Both ends of a proven crossing are observations in the input frames, of that track, observed and not predicted, on the approach and the far side |
| EndToEnd.TracksHoldExactly | backend/src/vision_app/rules/reducer.py:207-228 | After any accepted sequence of frames every track holds exactly the brackets of its own trace after its last over-long gap, whatever other tracks did |
| EndToEnd.CandidatesAreBrackets | backend/src/vision_app/rules/reducer.py:302-317 | The candidates a rule emits are exactly those of such brackets, over all tracks |
| EndToEnd.PooledReds | backend/src/vision_app/runtime/engine.py:287-295 | The gate sees the confirmed red of every region: an interval is in the pooled list exactly when some region reported it as red |
| RunEngine.Run | backend/src/vision_app/runtime/engine.py:172-350 | The rules are configured first, and a specification that cannot be is refused. Up to the first frame at which it is cancelled the run takes in every frame; it fails exactly when a limit, a signal trace, a rule or an update refuses its frame, or a zone rule refuses at the end; cancelled it emits nothing, completed it emits what all rules emit against all confirmed red, and broken off what the rules before the refusing one emit |
| RunEngine.RunRules | backend/src/vision_app/runtime/engine.py:223-350 | The same for configured rules, with every progress update that was sent |
| RunEngine.UpdatesOfRun | backend/src/vision_app/runtime/engine.py:262-282 | However a run ends its updates are numbered from 0 without a gap and never show an empty range, and exactly the last one of a run that does not fail tells how it ended |
| RunEngine.ReportsFitExactly | backend/src/vision_app/runtime/engine.py:262-275 | An update fails exactly when its frame lies at or beyond the end of the source |
| RunEngine.UnknownDurationFails | backend/src/vision_app/runtime/engine.py:262-275 | A source of unknown duration fails at its first frame |
| RunEngine.FeedFrames | backend/src/vision_app/runtime/engine.py:226-282 | The frame loop accepts exactly the input before the first cancelled frame that limits, signals, rules and updates accept; then every confirmer has seen exactly its region's samples and every rule exactly the batches |
| RunEngine.ProcessFrame | backend/src/vision_app/runtime/engine.py:233-282 | One frame: its signals, its observations, and its update when one is due; a refusal names what refused |
| RunEngine.ObserveSignals | backend/src/vision_app/runtime/engine.py:252-255 | One frame advances every region by its own sample; a refusal is final for the whole trace |
| RunEngine.AdvanceRules | backend/src/vision_app/runtime/engine.py:257-260 | One frame advances every rule by the batch; a refusal is final for the whole input |
| RunEngine.CollectReds | backend/src/vision_app/runtime/engine.py:287-295 | Flushing all confirmers at the source end yields exactly the red intervals of all complete traces, region by region |
| RunEngine.EmitCandidates | backend/src/vision_app/runtime/engine.py:298-304 | Rule by rule the supported and inconclusive candidates are emitted up to the first rule that refuses; what was emitted before stays |
| RunEngine.FlushAll | backend/src/vision_app/runtime/engine.py:284-304 | The end-of-source flush produces the run's result from the states of confirmers and rules, or breaks off at a refusing rule |
| TrackedRules.RuleConfig | backend/src/vision_app/runtime/engine.py:89-132 | A rule is configured exactly when its capability is known and some shape of its kind can be used: its own, or else the first usable one |
| TrackedRules.Configure | backend/src/vision_app/runtime/engine.py:203-209 | All rules in order, or the reason why one cannot be configured; without a calibration none can |
| TrackedRules.ConfiguredIsSound | backend/src/vision_app/runtime/engine.py:89-124 | Every configured line rule is directed, with two different real sides and a margin that is not negative, and every zone rule has a real polygon and no merge gap |
| TrackedRules.ConfiguredOnce | backend/src/vision_app/runtime/engine.py:89-132 | The calibration determines the configuration |
| TrackedRules.AdvanceRule | backend/src/vision_app/rules/reducer.py:207-228 | A batch advances a rule of either kind by the reducer of that kind |
| TrackedRules.FedIsReduced | backend/src/vision_app/rules/reducer.py:207-228 | Feeding a rule frame by frame is feeding the reducer of its kind |
| TrackedRules.EmitRule | backend/src/vision_app/rules/reducer.py:302-337 | A line rule emits its supported and inconclusive crossings and never refuses; a zone rule emits all its stays or refuses |
| LineReducer.HeldEpisodes | backend/src/vision_app/rules/reducer.py:29-135 | For a directed rule the per-track machine refuses a trace exactly when one of its brackets has no positive length, and otherwise holds, in trace order, exactly the brackets after the last over-long gap |
| LineReducer.ExactForDirectedRules | backend/src/vision_app/rules/reducer.py:29-135 | Directedness is exactly the condition under which this holds for every trace |
| LineReducer.UndirectedRuleMissesBracket | backend/src/vision_app/rules/reducer.py:62-77 | For any undirected rule, a two-sample trace that contains a bracket the machine does not hold |
| LineReducer.StrictTimesAreAccepted | backend/src/vision_app/rules/reducer.py:89-92 | Strictly increasing times are never refused |
| RuleReducer.ApplyObservations | backend/src/vision_app/rules/reducer.py:207-228 | A batch is put in stable time order and folded observation by observation, from the given state or an empty one |
| RuleReducer.TracksAreIndependent | backend/src/vision_app/rules/reducer.py:219-228 | Interleaving tracks gives each one the state its own observations alone would give, and refuses exactly when some track alone is refused |
| RuleReducer.SortSorts | backend/src/vision_app/rules/reducer.py:216-218 | Sorting a batch puts it in time order and keeps every observation |
| RuleReducer.SortSplits | backend/src/vision_app/rules/reducer.py:216-218 | Sorting consecutive batches one by one is sorting them together |
| RuleReducer.FrameByFrame | backend/src/vision_app/rules/reducer.py:207-228 | Feeding time-ordered frames one at a time and feeding everything at once end in the same state, refusals included |
| RuleFlush.Flush | backend/src/vision_app/rules/reducer.py:302-317 | The flush lists, track by track in first-seen order, one candidate per held crossing episode |
| RuleFlush.CandidateHasEpisode | backend/src/vision_app/rules/reducer.py:302-317 | A candidate is in that list exactly when it is the candidate of some held episode |
| ZoneReducer.HeldStays | backend/src/vision_app/rules/reducer.py:138-204 | The zone machine holds, in order, exactly the stays (maximal runs inside, ended by a sample outside) since the last gap that reset it |
| ZoneReducer.RefusedExactly | backend/src/vision_app/rules/reducer.py:147-190 | A zone trace is refused exactly when some stay in it, ended by a sample outside or cut off by an over-long gap, has no positive length |
| ZoneReducer.LoneSampleRefused | backend/src/vision_app/rules/reducer.py:147-168 | With strictly increasing times the only such stay is a single sample before an over-long gap |
| ZoneReducer.MergeZoneEpisodes | backend/src/vision_app/rules/reducer.py:231-257 | Merged zone episodes are those of the merged ranges, all of the first episode's track |
| ZoneReducer.FlushTrack | backend/src/vision_app/rules/reducer.py:318-335 | The flush closes the stay still going on at the source end, merges, and emits one candidate per merged episode; it is refused when that stay would be empty |
| ZoneReducer.PendingCovers | backend/src/vision_app/rules/reducer.py:319-332 | Held and closing episodes together cover exactly the instants the track stayed inside since the last resetting gap |
| ZoneReducer.CandidatesAreStays | backend/src/vision_app/rules/reducer.py:333-335 | Without a merge gap the emitted candidates cover exactly those instants |
| ZoneReducer.CandidatesMergeStays | backend/src/vision_app/rules/reducer.py:333-335 | With one they are the one merge of those stays |
| ZoneRules.ApplyObservations | backend/src/vision_app/rules/reducer.py:207-228 | A batch is put in stable time order and folded observation by observation into the tracks of a zone rule |
| ZoneRules.Flush | backend/src/vision_app/rules/reducer.py:302-337 | Track by track in first-seen order the zone candidates, up to the first track that refuses |
| ZoneRules.SamplesAre | backend/src/vision_app/rules/reducer.py:138-145 | What a track shows of the zone: for each of its observations, whether the polygon test puts the bottom centre of its box inside |
| ZoneRules.TracksAreIndependent | backend/src/vision_app/rules/reducer.py:207-228 | Interleaving tracks gives each one the state its own observations alone would give, and refuses exactly when some track alone is refused |
| ZoneRules.ZonesAreStays | backend/src/vision_app/rules/reducer.py:138-335 | A whole run of a zone rule: some candidate of a track contains an instant exactly when the track's observations, frame by frame, show its anchor staying in the polygon then |
| SignalIntervals.ConfirmedSignalIntervals.Update | backend/src/vision_app/perception/signal/intervals.py:47-86 | An update refuses exactly a sample older than the last and leaves every field alone then; otherwise all fields become those of the next machine state |
| SignalIntervals.ConfirmedSignalIntervals.Close | backend/src/vision_app/perception/signal/intervals.py:88-107 | Closing appends one interval when it has positive length and forgets the confirmed colour either way |
| SignalIntervals.ConfirmedSignalIntervals.Flush | backend/src/vision_app/perception/signal/intervals.py:117-121 | Flushing closes an open interval at the given end and returns all intervals |
| SignalIntervals.AcceptedIsOrdered | backend/src/vision_app/perception/signal/intervals.py:47-50 | A whole trace is accepted exactly when its times never decrease |
| SignalIntervals.CompletedIntervals | backend/src/vision_app/perception/signal/intervals.py:47-121 | The completed intervals are, in order, exactly one per unbroken run of a colour that was confirmed and broken off after positive time, with both uncertainty brackets |
| SignalIntervals.IntervalIsWitnessed | backend/src/vision_app/perception/signal/intervals.py:47-121 | Every reported interval rests on a run of samples: all of its colour from the confirming sample up to the closing one, confirmed at the first sample at least the stability time after the run began |
| SignalIntervals.RunIsReported | backend/src/vision_app/perception/signal/intervals.py:117-121 | Conversely every confirmed run of positive length is reported, the one open at the source end included |
| SignalIntervals.IntervalsAreDisjoint | backend/src/vision_app/perception/signal/intervals.py:47-121 | Reported intervals come in time order and do not overlap |
| SignalIntervals.SamplesInside | backend/src/vision_app/perception/signal/intervals.py:47-121 | Every sample in a reported interval has its colour exactly when the sample before its run is older than its confirming one; with a positive stability time, or distinct sample times, that is always so |
| SignalIntervals.SharedInstant | backend/src/vision_app/perception/signal/intervals.py:47-86 | Two samples at one instant: a red interval that contains the time of a green sample |
| Disposition.RejectedMeans | backend/src/vision_app/rules/disposition.py:64-104 | A crossing is rejected exactly when no interval covers it, it touches no gap, and all confirmed red lies before it or all of it after it |
| Disposition.GapHasTwoSides | backend/src/vision_app/rules/disposition.py:44-61 | When nothing overlaps, lying between two sorted neighbours is having red on both sides |
| JobService.JobStateRepository.CompareAndSwap | backend/src/vision_app/bootstrap.py:556-567 | The value is stored exactly when the named revision is the stored one, a missing job counting as revision 0; no other job changes |
| JobService.JobDispatchService.Mutate | backend/src/vision_app/jobs/service.py:229-237 | Alone at the store the loop commits the mutation of the stored document with the next revision, or changes nothing and names the error |
| JobService.JobDispatchService.Create | backend/src/vision_app/jobs/service.py:94-99 | Creating stores the initial document only over a missing job or revision 0, and refuses an empty run id without touching the store |
| JobService.JobDispatchService.Get | backend/src/vision_app/jobs/service.py:101-102 | The stored job, or not found |
| JobService.JobDispatchService.Dispatch | backend/src/vision_app/jobs/service.py:104-125 | Dispatch refuses finished runs, repeats a recorded invocation, and otherwise marks, submits and records; the stored invocation is the one returned |
| JobService.JobDispatchService.Claim | backend/src/vision_app/jobs/service.py:127-150 | A claim conflicts on finished or cancelled runs, hands out a live lease again, or grants a new attempt under the next fence |
| JobService.JobDispatchService.Heartbeat | backend/src/vision_app/jobs/service.py:152-167 | Only the holder of an unexpired lease renews it |
| JobService.JobDispatchService.Reconcile | backend/src/vision_app/jobs/service.py:169-178 | Reconciling dispatches an undispatched run and takes over an unclaimed or expired one, leaving finished and cancelled ones alone |
| JobService.JobDispatchService.Cancel | backend/src/vision_app/jobs/service.py:180-189 | Cancelling marks, cancels and ends the lease whatever the state was, and names the recorded invocation for the executor to stop |
| JobService.JobDispatchService.CommitProgressUpdate | backend/src/vision_app/jobs/service.py:191-210 | Progress of a stale or cancelled attempt or with a lower sequence is refused; it is to be emitted exactly when its sequence is beyond the stored one |
| JobService.JobDispatchService.Finish | backend/src/vision_app/jobs/service.py:212-221 | Only a real end state may be finished to, and only by the attempt and fence on record |
| JobRecords.ReplayCounts | backend/src/vision_app/jobs/service.py:229-237 | Committed mutations are counted by the revision and never change the run id |
| JobInterleaving.NoLostUpdate | backend/src/vision_app/jobs/service.py:229-237 | Any interleaving of any number of clients at single reads and swaps: the stored job is its initial form with every successful mutation applied to its immediate predecessor, and the revision counts them |
| JobInterleaving.SwapActsOnCurrent | backend/src/vision_app/jobs/service.py:229-237 | Every successful swap replaces the very document its mutation was computed from |
| JobInterleaving.CreateNeverClobbers | backend/src/vision_app/jobs/service.py:94-99 | In every reachable state creating an existing run again changes nothing |
| JobInterleaving.ReopenedExactly | backend/src/vision_app/jobs/service.py:104-125 | In every reachable state: the next step reopens a finished run if and only if it is the successful swap of a dispatch marking that run |
| JobInterleaving.DispatchReopensFinishedRun | backend/src/vision_app/jobs/service.py:104-125 | A schedule in which that happens: a completed run becomes dispatching again |
| CoreRepository.InMemoryRepository.ClaimAttempt | backend/src/vision_app/persistence/memory.py:406-429 | A claim is refused exactly for an unknown run or a known attempt with a fence below the run's; accepted, it lifts the run fence past every earlier one, makes the attempt active, and notes it in a run document that has a field for it |
| CoreRepository.InMemoryRepository.CommitEvent | backend/src/vision_app/persistence/memory.py:431-448 | An event is stored exactly when its attempt is active and its fence not below the run's, which then becomes the run's |
| CoreRepository.InMemoryRepository.CommitProgress | backend/src/vision_app/persistence/memory.py:450-469 | The same for a progress record, filed under run, attempt and sequence |
| CoreRepository.InMemoryRepository.FinalizeRun | backend/src/vision_app/persistence/memory.py:471-486 | Exactly the active attempt of a stored run can be selected |
| CoreRepository.StepRaisesFence | backend/src/vision_app/persistence/memory.py:406-469 | No operation lowers a run's fence; every accepted claim and every restart interruption strictly raises it |
| CoreRepository.FenceNeverFalls | backend/src/vision_app/persistence/memory.py:406-469 | Over any history the fence of a run never decreases |
| CoreRepository.StaleFenceNeverCommits | backend/src/vision_app/persistence/memory.py:431-469 | Over any history: once a takeover or interruption follows an accepted commit, no commit of that run under that fence or a smaller one is ever accepted again |
| CoreRepository.ClaimMayCommit | backend/src/vision_app/persistence/memory.py:415-423 | A claim lets its own worker commit exactly when its fence is beyond the run's |
| CoreRepository.SecondClaimLocksOut | backend/src/vision_app/persistence/memory.py:415-423 | Claiming the same attempt and fence twice leaves a worker that cannot commit |
| RunProtocol.RunKeepsInv | backend/src/vision_app/bootstrap.py:929-965 | Every sequence of job operations, worker steps, clock ticks and restarts keeps jobs, lease history and domain fences in agreement |
| RunProtocol.JobsMatchGrants | backend/src/vision_app/jobs/service.py:104-221 | In every reachable state a job is marked cancelled exactly when its state is cancelled, and an open job names attempt, fence and expiry of its last grant |
| RunProtocol.FinishNeedsTheGuard | backend/src/vision_app/bootstrap.py:931-936 | Finishing preserves that agreement exactly when nobody has asked for cancellation: the worker's check is necessary and sufficient |
| RunProtocol.FenceNamesOneAttempt | backend/src/vision_app/jobs/service.py:127-150 | A fence of a run names one attempt at all times, across any two moments of any history |
| RunProtocol.LeasesNeverOverlap | backend/src/vision_app/jobs/service.py:127-167 | The lease windows of two attempts of a run never overlap, renewals included |
| RunProtocol.CancellationIsFinal | backend/src/vision_app/jobs/service.py:135-136 | Once cancelled a run stays cancelled and no worker can start on it |
| RunProtocol.FinishedStaysFinished | backend/src/vision_app/jobs/service.py:104-221 | With atomic operations no later step reopens a finished run |
| RunProtocol.OnlyLatestCommits | backend/src/vision_app/persistence/memory.py:431-469 | In every reachable state only the latest grant of a run can write to the domain store |
| RunProtocol.LockedOutMeans | backend/src/vision_app/persistence/memory.py:431-469 | Under a lockout no grant of the run can write |
| RunProtocol.ReclaimLocksOut | backend/src/vision_app/persistence/memory.py:419-423 | A second worker start under a live lease locks the run out, the new worker included |
| RunProtocol.LockoutIsForever | backend/src/vision_app/persistence/memory.py:406-469 | No later step lifts a lockout |
| RunProtocol.HistoryExtends | backend/src/vision_app/jobs/service.py:104-221 | Between any two moments grants are only appended and renewed, jobs never vanish, reopen or forget a cancellation |
| Recovery.SeedJobs | backend/src/vision_app/persistence/snapshot.py:376-388 | A queued job is made up for exactly the live, unfinished runs that have none |
| Recovery.FindLatest | backend/src/vision_app/persistence/snapshot.py:407-412 | The search returns the record with the highest sequence of an attempt, or nothing when there is none |
| Recovery.FinalOf | backend/src/vision_app/persistence/snapshot.py:400-422 | The failed record is due exactly for a stored run with a known attempt, and carries on the latest one |
| Recovery.InterruptJob | backend/src/vision_app/persistence/snapshot.py:389-426 | Closing one job changes that job, its run's fence, active and selected attempt, and adds its record; nothing else |
| Recovery.Interrupt | backend/src/vision_app/persistence/snapshot.py:374-426 | The loop over jobs ends in one state, whatever order the jobs come in |
| Recovery.RestartClosesEverything | backend/src/vision_app/persistence/snapshot.py:374-426 | After a restart every job is terminal, finished jobs are untouched, none is lost, and every live unfinished run has a job that says it failed |
| Recovery.OneFailedRecord | backend/src/vision_app/persistence/snapshot.py:400-426 | Each interrupted job with a known attempt and stored run gains exactly one record: failed, numbered beyond every earlier one of the attempt and beyond the job's, under a new key |
| Recovery.RecordsSurvive | backend/src/vision_app/persistence/snapshot.py:423-425 | A restart overwrites no earlier record |
| Recovery.InterruptedRunIsFenced | backend/src/vision_app/persistence/snapshot.py:398-399 | Nobody can commit to an interrupted run, and its fence is beyond the run's and the job's former ones |
| Recovery.RestartIsIdempotent | backend/src/vision_app/persistence/snapshot.py:374-426 | A second restart changes nothing |
| RestartedState.LocalStateSnapshot.SaveState | backend/src/vision_app/persistence/snapshot.py:221-258 | Saving replaces the snapshot by the whole state, documents, jobs and run bookkeeping, or leaves the old one and names the cause |
| RestartedState.LocalStateSnapshot.LoadState | backend/src/vision_app/persistence/snapshot.py:278-372 | Loading rebuilds documents, jobs and run bookkeeping and refuses what does not check; no snapshot is not an error |
| RestartedState.RestartComesBack | backend/src/vision_app/persistence/snapshot.py:221-426 | Restart from any snapshot, save, restart again: the save succeeds, the file loads back to exactly the saved state, and closing interrupted jobs again changes nothing in it |
| RestartedState.RestartIsShown | backend/src/vision_app/persistence/snapshot.py:374-426 | The documents after a restart show exactly the restarted domain state, and still fit to be stored and filed |
| RestartedState.InterruptionIsDocumented | backend/src/vision_app/persistence/snapshot.py:400-426 | Every interrupted job with a known attempt and stored run has a new document: a failed record numbered beyond every earlier one |
| RestartedState.SoundComesBack | backend/src/vision_app/persistence/snapshot.py:221-372 | A state whose documents can be stored and are filed under their own identities is saved, and loading gives it back |
| RestartedState.RestoredIsSound | backend/src/vision_app/persistence/snapshot.py:291-318 | Whatever is restored can be stored again and is filed under its own identities |
| RestartedState.RestartKeepsCore | backend/src/vision_app/persistence/snapshot.py:374-426 | A restart keeps all events, workers and earlier records and of a run changes at most the selected attempt |
| SnapshotCodec.RoundTrip | backend/src/vision_app/persistence/snapshot.py:128-173 | For every value that encodes, decoding gives it back exactly when no number in it is infinite or undefined; otherwise decoding refuses it |
| SnapshotCodec.StoredComesBack | backend/src/vision_app/persistence/snapshot.py:128-173 | Whatever can be written comes back unchanged |
| SnapshotCodec.EncodingIsInjective | backend/src/vision_app/persistence/snapshot.py:128-149 | Different storable values never share an encoding |
| SnapshotCodec.NothingSecretIsStored | backend/src/vision_app/persistence/snapshot.py:113-149 | An encoded value holds no credential field at any depth of its JSON |
| SnapshotStore.EncodeDocuments | backend/src/vision_app/persistence/snapshot.py:221-258 | The loop over the documents encodes all of them or names the cause |
| SnapshotStore.RebuildStore | backend/src/vision_app/persistence/snapshot.py:291-318 | The loop rebuilds the documents one by one and refuses duplicates, foreign owners, foreign ids and undecodable values |
| SnapshotStore.SavedExactly | backend/src/vision_app/persistence/snapshot.py:221-258 | A store is saved exactly when each of its values can be written |
| SnapshotStore.RestoresExactly | backend/src/vision_app/persistence/snapshot.py:291-318 | A saved store can be restored exactly when it is well filed: every document under its own workspace and id, no id twice |
| SnapshotStore.SavedComesBack | backend/src/vision_app/persistence/snapshot.py:278-341 | What is restored is then exactly that store |
| Base64.DecodeUndoesEncode | backend/src/vision_app/operations/ledger.py:153-161 | Unpadded base64url decoding undoes encoding for every byte string (sections 3.2 and 5 of RFC 4648) |
| Base64.EncodeIsBody | backend/src/vision_app/operations/ledger.py:153-155 | The encoding has no padding and no character outside the URL alphabet, in particular no dot |
| Ledger.OwnerComesBack | backend/src/vision_app/operations/ledger.py:153-163 | A reservation id leads back to the owner it was issued for, whatever the identifier contains |
| Ledger.ReservationIdsDiffer | backend/src/vision_app/operations/ledger.py:153-155 | Two reservation ids are equal only for the same owner and identifier |
| Ledger.BudgetAccounts.CompareAndSwap | backend/src/vision_app/persistence/memory.py:151-190 | A missing account takes only revision 0, a stored one only its own revision, a deleted one nothing |
| Ledger.Sum | backend/src/vision_app/operations/ledger.py:63-67 | Summing the reservations in any order gives their total |
| Ledger.Mutate | backend/src/vision_app/operations/ledger.py:63-97 | The three changes of an account with their refusals: over budget, not found |
| Ledger.BudgetLedgerService.Read | backend/src/vision_app/operations/ledger.py:122-128 | A missing account reads as an empty one with this instance's limit |
| Ledger.BudgetLedgerService.Update | backend/src/vision_app/operations/ledger.py:130-140 | Alone at the store one change is committed or nothing happens; a deleted account stays contended |
| Ledger.BudgetLedgerService.Reserve | backend/src/vision_app/operations/ledger.py:56-72 | Owner and amount are checked first; a refused reservation changes nothing and a granted one returns an id that leads back to its owner |
| Ledger.BudgetLedgerService.Settle | backend/src/vision_app/operations/ledger.py:74-86 | A settlement finds its account through its id and closes exactly that reservation |
| Ledger.BudgetLedgerService.Release | backend/src/vision_app/operations/ledger.py:88-97 | A release finds its account through its id and closes exactly that reservation |
| Ledger.BudgetLedgerService.SettleAll | backend/src/vision_app/operations/ledger.py:105-106 | Settlements run in order and stop at the first refusal |
| Ledger.BudgetLedgerService.ReleaseAll | backend/src/vision_app/operations/ledger.py:107-108 | Releases run in order and stop at the first refusal |
| Ledger.BudgetLedgerService.Cancel | backend/src/vision_app/operations/ledger.py:99-108 | All settlements, then all releases, stopping at the first refusal; what was closed before stays closed |
| Ledger.BudgetLedgerService.Snapshot | backend/src/vision_app/operations/ledger.py:110-120 | The figures of the account, with the true sum and number of its reservations |
| Ledger.ReservationsAreOpen | backend/src/vision_app/operations/ledger.py:56-97 | After any accepted changes an account holds exactly the reservations made and not closed, each at its estimate, and nothing is closed twice or without having been made |
| Ledger.AccountsBalance | backend/src/vision_app/operations/ledger.py:56-97 | Conservation: the estimated total is what is reserved, what was released and the sum of the smaller of estimate and actual over all settlements |
| Ledger.BudgetHolds | backend/src/vision_app/operations/ledger.py:63-67 | Measured and reserved exceed the limit by no more than settlements exceeded their estimates |
| Ledger.StaysWithinLimit | backend/src/vision_app/operations/ledger.py:63-97 | From an account within its limit an accepted change leads beyond it exactly when it is a settlement that exceeds its estimate by more than what is left of the limit |
| Ledger.LimitHoldsExactly | backend/src/vision_app/operations/ledger.py:63-97 | A whole sequence of accepted changes stays within the limit at every moment exactly when no settlement in it does that |
| Ledger.OverdrawnAccount | backend/src/vision_app/operations/ledger.py:79-84 | For every positive limit, a reservation and its settlement that end beyond it |
| Ledger.NoOverrun | backend/src/vision_app/operations/ledger.py:79-84 | There is no such excess exactly when every settlement stays within its estimate |
| Ledger.ReserveNeedsFreshId | backend/src/vision_app/operations/ledger.py:68-69 | Reserving keeps the books balanced exactly when the id is not held at a positive amount |
| LedgerInterleaving.AccountIsItsLog | backend/src/vision_app/operations/ledger.py:130-140 | Competing instances at single reads and swaps: a stored account is the initial one after every successful change in turn, counted by its revision |
| LedgerInterleaving.LedgerConserves | backend/src/vision_app/operations/ledger.py:56-97 | Conservation in every reachable state under any interleaving |
| LedgerInterleaving.LedgerHoldsOpen | backend/src/vision_app/operations/ledger.py:56-97 | In every reachable state each reservation is closed at most once and exactly the unclosed ones are held |
| LedgerInterleaving.LimitHolds | backend/src/vision_app/operations/ledger.py:63-67 | In every reachable state measured plus reserved is at most the limit plus the overrun, hence at most the limit while settlements stay within their estimates |
| LedgerInterleaving.LimitKeptExactly | backend/src/vision_app/operations/ledger.py:63-97 | Over any interleaving all accounts stay within their limits exactly when no successful settlement exceeds its estimate by more than what is left |
| LedgerInterleaving.LimitBrokenExactly | backend/src/vision_app/operations/ledger.py:63-97 | In every reachable state within the limit, the next step breaks it if and only if it is such a settlement's successful swap |
| Paging.SortSorts | backend/src/vision_app/api/runs/router.py:141 | Sorting keeps exactly the given events and puts them in strictly increasing (start, id) order |
| Paging.CursorComesBack | backend/src/vision_app/api/runs/router.py:243-260 | Decoding a cursor gives back the key it was made from |
| Paging.PageSplits | backend/src/vision_app/persistence/memory.py:630-639 | A page is sorted, holds every event after the cursor up to its last key and no others, and has a next cursor exactly when events remain |
| Paging.RequestIsPage | backend/src/vision_app/api/runs/router.py:141-149 | One API request with a cursor is one repository page from the key behind it |
| Paging.CursorsAreTransparent | backend/src/vision_app/api/runs/router.py:141-149 | Following cursors through the API delivers what following keys through the repository would |
| Paging.CrawlVisitsAll | backend/src/vision_app/api/runs/router.py:137-149 | Following cursors over an unchanging set delivers every event exactly once, in order, within as many requests as there are pages, for every page limit of at least one |
| Paging.CrawlNeverRepeats | backend/src/vision_app/api/runs/router.py:137-149 | However the set changes between requests, no event is delivered twice and the order holds |
| Paging.CrawlMissesNothing | backend/src/vision_app/api/runs/router.py:137-149 | An event stored throughout is delivered to every client that follows the cursors to the end |
| Matching.IouMeans | backend/src/vision_app/evaluation/metrics.py:83-96 | The overlap ratio is symmetric, between 0 and 1, is 1 exactly for equal ranges and 0 exactly for ranges without a common instant |
| Matching.RankedIsRanked | backend/src/vision_app/evaluation/metrics.py:126-131 | The ranking holds every pair of an event and an annotation once, strictly ordered |
| Matching.GreedyPass | backend/src/vision_app/evaluation/metrics.py:132-152 | The loop returns the greedy choice, with the used sets marking exactly its events and annotations; stopping at the threshold loses nothing |
| Matching.MatchEvents | backend/src/vision_app/evaluation/metrics.py:121-152 | Bad thresholds and durations are refused in this order; otherwise the greedy choice over all pairs |
| Matching.GreedyIsOneToOne | backend/src/vision_app/evaluation/metrics.py:135-152 | No event and no annotation is matched twice |
| Matching.GreedyHasNoBlocking | backend/src/vision_app/evaluation/metrics.py:135-152 | Every unmatched eligible pair has an endpoint matched by a pair ranked before it |
| Matching.StableIsUnique | backend/src/vision_app/evaluation/metrics.py:135-152 | A choice is one-to-one, eligible and free of blocking pairs if and only if it is the greedy one |
| Matching.MatchesAreStable | backend/src/vision_app/evaluation/metrics.py:126-152 | The same stated on the events and annotations themselves |
| Confusion.LabelsHold | backend/src/vision_app/evaluation/metrics.py:154-157 | The labels are exactly the classes seen, in strict text order, and then the "none" label, which is looked up at the end |
| Confusion.Confuse | backend/src/vision_app/evaluation/metrics.py:154-166 | The table counts exactly one entry per match, per unmatched event and per unmatched annotation |
| Confusion.TableAccounts | backend/src/vision_app/evaluation/metrics.py:154-183 | A row sums to the annotations of its class and a column to its events exactly when the class is not named like the "none" label, or that label has no false alarms (no misses); the whole table always sums to events plus annotations minus matches |
| Confusion.DiagonalIsCorrect | backend/src/vision_app/evaluation/metrics.py:176 | The diagonal cell of a class counts its correct matches |
| Evaluation.EvaluateEvents | backend/src/vision_app/evaluation/metrics.py:113-203 | The whole result: the stable matches, the table, the totals and the figures of every class |
| Evaluation.PerClass | backend/src/vision_app/evaluation/metrics.py:171-191 | Every label but the last gets figures, computed from its row, its column and the rest of the table |
| Evaluation.CountCorrect | backend/src/vision_app/evaluation/metrics.py:168 | Correct matches are counted |
| Evaluation.OffIs | backend/src/vision_app/evaluation/metrics.py:177-182 | The sum off a row and a column is the whole minus both plus their common cell |
| Evaluation.ErrorsCount | backend/src/vision_app/evaluation/metrics.py:168-170 | False positives and negatives are the unmatched ones plus the matches of wrong class, never negative |
| Evaluation.ClassFiguresMean | backend/src/vision_app/evaluation/metrics.py:171-191 | Precision is the share of a class's events, recall the share of its annotations, that are in a match of the class; accuracy leaves out exactly its errors |
| Evaluation.ClassesAddUp | backend/src/vision_app/evaluation/metrics.py:168-191 | The reported true positives of the classes add up to the correct matches, plus, when a class is named like the "none" label, the unmatched events and annotations of that class |
| PlanGraph.Search.Visit | tools/validate_plan.py:22-27 | The recursive visit returns on every graph, leaves the visiting set as it was, records only nodes that lie on cycles, and finishes a node after all its dependencies unless a cycle was recorded |
| PlanGraph.FindCycles | tools/validate_plan.py:21-28 | A cycle is reported exactly when the dependencies contain one, each report names a node on a cycle, and without one the finishing order is topological |
| PlanGraph.TableErrors | tools/validate_plan.py:16-20 | The table errors in their order: the count, then the unknown dependencies |
| PlanGraph.Validate | tools/validate_plan.py:15-29 | All errors in order, the last part empty exactly for an acyclic graph |
| PlanGraph.OrderedIsAcyclic | tools/validate_plan.py:21-28 | A topological order rules out every cycle |
| PlanGraph.UnknownsReported | tools/validate_plan.py:18-20 | The unknown dependencies reported are exactly those there are |
| PlanGraph.PassesExactly | tools/validate_plan.py:15-29 | A plan passes exactly when it has the expected size, names nothing unknown and has no cycle |
| Segments.OnSegmentIsExact | backend/src/vision_app/geometry/segments.py:23-32 | With tolerance 0 a point passes exactly when it lies on the closed segment |
| Segments.IntersectionIsExact | backend/src/vision_app/geometry/segments.py:35-56 | With tolerance 0 two closed segments intersect exactly when they share a point, collinear and degenerate ones included |
| Segments.IntersectionPointIsShared | backend/src/vision_app/geometry/segments.py:59-86 | With tolerance 0 a point is returned exactly when the segments share it and are not parallel |
| Segments.SharedIsUnique | backend/src/vision_app/geometry/segments.py:75-86 | Segments that are not parallel share at most one point |
| Segments.ValidateSegment | backend/src/vision_app/geometry/segments.py:89-96 | A segment is accepted exactly when it has two different end points |
| Segments.TrajectoryCrossesSegment | backend/src/vision_app/geometry/segments.py:99-111 | The early-returning loop answers whether any edge meets the segment |
| Segments.CrossingSegmentIndices | backend/src/vision_app/geometry/segments.py:114-125 | The loop lists the edges that meet the segment |
| Segments.EdgesAreListed | backend/src/vision_app/geometry/segments.py:114-125 | An edge is listed exactly when it meets the segment, in increasing order |
| Segments.CrossesIffListed | backend/src/vision_app/geometry/segments.py:99-125 | A trajectory crosses a segment exactly when the list is not empty |
| Polygons.PointInPolygon | backend/src/vision_app/geometry/polygons.py:42-75 | Boundary first, then the parity of crossings; fewer than three vertices are refused |
| Polygons.RotationInvariant | backend/src/vision_app/geometry/polygons.py:42-75 | Starting the vertex list elsewhere never changes the answer |
| Polygons.ReversalInvariant | backend/src/vision_app/geometry/polygons.py:42-75 | Reversing the vertex list never changes the answer |
| Polygons.EvenStraddles | backend/src/vision_app/geometry/polygons.py:70 | Round a closed polygon an even number of edges straddle any height |
| Polygons.OutsideBoxIsOutside | backend/src/vision_app/geometry/polygons.py:42-75 | A point outside the bounding box by more than the tolerance is never inside, on either policy |
| Polygons.DiagonalCut | backend/src/vision_app/geometry/polygons.py:62-75 | Cutting along a diagonal: the ray crosses the whole an odd number of times exactly when it crosses one part, and not the other, an odd number of times |
| Polygons.ValidatePolygon | backend/src/vision_app/geometry/polygons.py:17-39 | Too few vertices and too small an area are refused, anything else comes back unchanged |
| Polygons.ValidationInvariant | backend/src/vision_app/geometry/polygons.py:17-39 | Whether a polygon is accepted depends neither on its first vertex nor on its direction |
| Polygons.ShoelaceMoves | backend/src/vision_app/geometry/polygons.py:30-34 | The area sum does not depend on where the polygon lies |
| Triangles.TriangleIsExact | backend/src/vision_app/geometry/polygons.py:42-75 | With tolerance 0 the answer for every triangle is the geometric one: the outline follows the policy, elsewhere inside means seeing the vertices in one strict turning direction |
| ConvexPolygons.ConvexIsExact | backend/src/vision_app/geometry/polygons.py:42-75 | With tolerance 0 the answer for every convex polygon of any size is the geometric one: a point on an edge follows the policy, any other is inside exactly when it is strictly left of every edge |
| ConvexPolygons.ConvexOtherWay | backend/src/vision_app/geometry/polygons.py:42-75 | The same for vertices listed the other way round, with strictly right |
| ConvexPolygons.ConvexIsHalfOpen | backend/src/vision_app/geometry/polygons.py:62-75 | For every point, on the boundary too, the ray crosses an odd number of edges exactly when the point is on the half-open left of all of them |
| IntervalMerge.MergeTimeRanges | backend/src/vision_app/rules/intervals.py:9-32 | The loop that replaces or appends the last range computes the merge of the sorted input |
| IntervalMerge.MergedIsMerge | backend/src/vision_app/rules/intervals.py:9-32 | The merge covers every input, adds only holes up to the limit, and leaves ranges sorted and further apart than that |
| IntervalMerge.MergeIsUnique | backend/src/vision_app/rules/intervals.py:9-32 | It is the only list with these properties |
| IntervalMerge.ExactUnion | backend/src/vision_app/rules/intervals.py:9-32 | With no gap allowed it covers exactly the union |
| IntervalMerge.OrderIndependent | backend/src/vision_app/rules/intervals.py:20 | Order and repetition of the inputs make no difference |
| IntervalMerge.MergeIsIdempotent | backend/src/vision_app/rules/intervals.py:9-32 | Merging again changes nothing |
| Windows.CutWindows | backend/src/vision_app/reasoning/service.py:42-51 | The loop cuts the windows; a window or stride that is not positive is refused |
| Windows.WindowsFit | backend/src/vision_app/reasoning/service.py:42-51 | Windows are not empty, lie in the source and are no longer than asked |
| Windows.CoverageIsExact | backend/src/vision_app/reasoning/service.py:42-51 | The windows cover the whole source exactly when the stride is no longer than the window or one window is enough |
| Windows.EqualStrideTiles | backend/src/vision_app/runtime/semantic_engine.py:125-128 | With equal stride the windows tile the source |
| Windows.TilesOnce | backend/src/vision_app/runtime/semantic_engine.py:125-128 | In a tiling no instant lies in two windows |
| SemanticReasoning.SemanticReasoningService.Analyze | backend/src/vision_app/reasoning/service.py:67-112 | The analysis for every pattern of answers and timeouts, and exactly the smaller of windows and budget as the number of calls |
| SemanticReasoning.AnswersAreValid | backend/src/vision_app/reasoning/service.py:54-65 | Every answer that is kept passed the checks against its own window and condition |
| SemanticReasoning.UnknownIsExact | backend/src/vision_app/reasoning/service.py:72-110 | The unknown ranges cover exactly the windows over budget, timed out or uncertain |
| SemanticReasoning.EpisodesAreExact | backend/src/vision_app/reasoning/service.py:90-98 | The episodes cover exactly the instants reported by present answers |
| SemanticReasoning.EpisodeEvidence | backend/src/vision_app/reasoning/service.py:93-98 | An episode carries exactly the evidence of the present answers that meet it, and never none |
| SemanticReasoning.DispositionMeans | backend/src/vision_app/reasoning/service.py:100-107 | Partial exactly when a window is undecided, absent exactly when every window was answered absent, present exactly when all are decided and something was seen |
| SemanticReasoning.AbsenceIsComplete | backend/src/vision_app/reasoning/service.py:67-112 | An absent analysis speaks for every instant exactly when the stride is no longer than the window or one window is enough |
| SemanticEngine.SemanticRun.BeforeAttempt | backend/src/vision_app/runtime/semantic_engine.py:83-89 | A physical request is counted exactly when it may be made, and never beyond the smallest of six, the spec's and the context's limit |
| SemanticEngine.SemanticRun.Generate | backend/src/vision_app/providers/gemini/live.py:222-265 | A provider call makes at most one attempt and its retries, each counted, and answers only with what some attempt gave |
| SemanticEngine.SemanticRun.Progress | backend/src/vision_app/runtime/semantic_engine.py:91-99 | Updates that the sink takes are numbered without gap and repeat the coverage so far; a refused one uses up no number |
| SemanticEngine.SemanticRun.PublishCondition | backend/src/vision_app/runtime/semantic_engine.py:188-227 | All events of a condition are published in order and inside the window, or the run stops |
| SemanticEngine.SemanticRun.PublishAnswer | backend/src/vision_app/runtime/semantic_engine.py:186-227 | The same for a whole validated answer |
| SemanticEngine.SemanticRun.AssessWindow | backend/src/vision_app/runtime/semantic_engine.py:132-227 | A window is only passed with an exact clip and a valid answer that an attempt gave, its events published |
| SemanticEngine.SemanticRun.Round | backend/src/vision_app/runtime/semantic_engine.py:132-229 | One round extends the coverage by its window and sends one running update, or stops, also when the sink refuses it |
| SemanticEngine.SemanticRun.Prepare | backend/src/vision_app/runtime/semantic_engine.py:102-131 | Only an accepted configuration and source with enough budget for all windows goes on |
| SemanticEngine.SemanticRun.Cover | backend/src/vision_app/runtime/semantic_engine.py:132-230 | All windows done means a tiled source, every window validly answered and exactly the events of the answers |
| SemanticEngine.SemanticRun.Run | backend/src/vision_app/runtime/semantic_engine.py:63-244 | A completed run tiles [0, duration) without overlap, within the request budget including retries, with exactly the events of its answers; every run sends running updates and then at most one with its outcome, which is missing only when the sink refused it, and never for a completed run; an undisturbed run of valid answers completes with one request per window |
| SemanticEngine.EmptyMeansAbsent | backend/src/vision_app/runtime/semantic_engine.py:40-45 | A completed run has no events exactly when every condition was assessed absent for every instant of the source |
| SemanticEngine.NoEventsOfRun | backend/src/vision_app/runtime/semantic_engine.py:246-256 | The answers yield no event exactly when all of them are absent throughout |
| SemanticEngine.MembersOfIds | backend/src/vision_app/runtime/semantic_engine.py:246-250 | A valid answer assesses exactly the conditions asked for |

## Left out

- FastAPI wiring, authentication, ownership checks, error mapping and the front end.
- Decoders, detector, tracker, signal observer, HTTP, storage and the provider's own answers: inputs here.
- Floating-point rounding: coordinates are reals. The code runs with a tolerance of 1e-9, which the models of
  `Segments` and `Polygons` carry as a parameter; the statements that call a test exact are about tolerance 0.
- The square root in the signed distance: the dead band compares squares instead.
- Episode ids are the inputs of their hash, not the hash; nothing here needs hashes to differ.
- RunEngine.Run: usage, evidence, reviews, the ledger calls and the event and progress sinks, which never refuse here,
  are not modelled. Rule ids are distinct: two rules of one id would share a state in the code. Region names are
  distinct, as dictionary keys are, and a run without a signal observer is one without regions.
- EndToEnd.RunIsSound: speaks of brackets after the last over-long gap only, since the code discards the others.
- ZoneReducer.HeldStays: of one track, from given inside flags; `ZoneRules.ZonesAreStays` has tracks, frames and polygon.
  Stays before a resetting gap are discarded by the code. The last anchor is not carried, since nothing reads it.
- RuleReducer.ApplyObservations: the line half; the zone half is `ZoneRules.ApplyObservations`, and
  `TrackedRules.AdvanceRule` chooses between them.
- ZoneRules.ZonesAreStays: without a merge gap, which is what the engine configures; with one, `ZoneReducer.CandidatesMergeStays`
  holds for each track.
- A negative merge gap or stability time: the first is not used by any caller, the second is refused on construction.
- A rule object of an unknown class in the reducer, which raises; an unknown capability is refused on configuration.
- The kind and principal arguments of the stores; the executor's and the sinks' own behaviour.
- JobService.JobDispatchService.CommitProgressUpdate: whether to emit is returned, not done. Under contention the
  emit flag survives a failed swap, so exactly-once emission is not claimed.
- JobInterleaving.NoLostUpdate: executor calls and emissions between swaps are not events of the interleaving.
- JobService.JobDispatchService.Reconcile: specified on its own; it is not a step of `RunProtocol`, as nothing calls it
  in the composed application.
- JobService.JobDispatchService.Heartbeat: a missing expiry, a type error in the source, is the error `NoLease`.
- RunProtocol.RunKeepsInv: attempt ids are fresh, each operation is atomic, and a restart assumes that every operation
  before it reached the snapshot.
- Finding a document across workspaces is a single lookup: identities are unique, which restoring checks.
- Progress keys are tuples rather than joined text, and progress records are filed under their own ids.
- RestartedState.RestartComesBack: idempotency keys, budgets, bindings, media assets and the id counter, which are
  copied as they are, and the file operations of the atomic replacement are not modelled. Progress records are dumped and
  read by any format that reads back what it dumped and names records injectively, as joining with colons does for ids
  without colons; a snapshot's progress records are taken to be filed as `CommitProgress` files them.
- SnapshotCodec.RoundTrip: models are a class name and a JSON dump, reading JSON text gives back what was written,
  and field validation is assumed to accept its own dumps. A secret field and a number that is not finite are one error,
  as both raise the same exception. Keys of dictionaries are strings.
- SnapshotCodec.NothingSecretIsStored: keys are lowered as far as it can make a name on the list, all of which are ASCII.
- Paging.CursorComesBack: the JSON text of a key is any serialisation that can be read back.
- Ledger.OwnerComesBack: owner ids are their UTF-8 bytes.
- Candidate reviews, latency and cost aggregation, box overlap and the progress polling route.
- SemanticEngine.SemanticRun.Run: building and publishing evidence is one step that works or fails; usage records,
  the prompt text, the cancellation of the surrounding task and the second deadline check of the call guard are not modelled.
- ConvexPolygons.ConvexIsExact: strictly convex polygons; for other simple polygons `Polygons.DiagonalCut` reduces the
  parity to parts, but what inside means for them is not defined here.
- Parsing the plan's markdown table.
