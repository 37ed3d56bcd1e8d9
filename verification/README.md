# Verified model of manteion-go

Manteion-go runs fault-injection experiments. An operator describes an experiment as runs that
depend on each other; the orchestrator starts them in order, drives each through its phases, attacks
the target through Zeus, and finalizes the experiment. The faults it injects are specs and
compositions of specs that are validated, stored, attached to rules, compiled, and delivered to SDK
instances, which poll with a version tag. This project models that logic in Dafny and proves what
it is meant to guarantee, and exactly where it does not.

`dafny verify dfyconfig.toml` checks everything.

## Files

- `RunGraph.dfy`: the run-dependency graph and `ValidateRunGraph`. Validity is defined by paths; the
  two recursive searches with their mutable maps are proved sound and complete against it.
- `Scheduler.dfy`: the scheduler as a state machine over the experiment row, the run rows, the
  in-memory map of running runs and the goroutines launched but not yet run. Safety over whole runs,
  absence of deadlock, bounds on the number of stops, and what a restart can break.
- `Orchestrator.dfy`: the orchestrator's methods, each proved to be its step of that machine.
- `StopRace.dfy`: overlapping stops, pauses, resumes, starts, cascade writes and watchers of one run,
  interleaved at every store call and every use of the handle map.
- `AttackIds.dfy`: the write-ahead protocol for Zeus attack ids, with a crash possible between any
  two calls.
- `Conditions.dfy`, `PhaseWatch.dfy`: metric conditions, the phase watcher's window, and the watcher,
  poller and phase of one run.
- `Composition.dfy`, `Incompatibility.dfy`, `CompatibilityTable.dfy`, `CompositionValidator.dfy`: fault
  compositions, the depth check, the two tree walks, the compatibility matrix and what it says in terms
  of fault types, and the whole validator.
- `RuleConv.dfy`: rules and their compilation; validator and compiler agree, compilation keeps
  leaves, directions and the fields of every level.
- `FaultStore.dfy`: specs, compositions and rules under the database's keys.
- `SpecChange.dfy`: which spec updates the stored compositions survive.
- `AcceptedStore.dfy`: which histories keep every stored composition acceptable.
- `InsertGap.dfy`: a history in which writes between validation and insert break the store.
- `RulePolling.dfy`: version-tagged polling against concurrent rule mutations.
- `PolicyEngine.dfy`: policy firings and their cooldown.
- `EventBroker.dfy`, `Fanout.dfy`: the SSE broker and the bounded fan-out.
- `Wrappers.dfy`: `Option` and `Result`.

Store errors, failed pushes, Zeus answers, metric samples and clock readings are inputs of the
operations and range over everything the environment can do. Clock readings do not go back.

## Where the code and what it promises differ

- `Recover` writes a run whose attacks are lost as failed without triggering the scheduler, and a
  crash also loses an advance that was launched and not yet run. The process can then have nothing
  left to do for a running experiment until it is called (`Scheduler.RestartLeavesNothingActiveIff`,
  `Scheduler.RestartLeavesNobodyDrivingIff`, `Scheduler.RestartCanStrand`); a stop of any unfinished
  run, pending ones included, gets it going again (`Scheduler.UndrivenUntilCalled`).
- An auto-complete whose store calls fail is not repeated, so a run without watcher and poller can stay
  running with nothing to complete it (`Scheduler.QueueLostIff`, `Scheduler.UndrivenRunsAreQueued`).
- `StartRun` called directly ignores `DependsOn` (`Scheduler.DirectStartIsSafeIff`,
  `Scheduler.DirectStartCanJumpTheQueue`).
- `ValidateRunGraph` is documented to come before any run is started. Stopping a run of a planned
  experiment launches an advance that can start others unchecked, and a direct start is unchecked too
  (`Scheduler.PlannedMeansPendingIff`, `Scheduler.StopStartsAnUncheckedExperiment`,
  `Scheduler.DirectStartOfAPlannedExperiment`).
- Only the terminal write of `StopRun` is conditional. A terminal status can be overwritten by a pause,
  resume, start or cascade that compared the row before, and by the phase write of a watcher that the
  stop did not cancel: one a start spawns after its Zeus call, or one of two overlapping starts
  (`StopRace.TerminalIsFinalIff`, `StopRace.PauseCanReviveAStoppedRun`,
  `StopRace.PhaseWriteRevivesAStoppedRun`, `StopRace.ForgottenWatcherRevivesAStoppedRun`).
- `StartRun` compares and writes in two store calls, so overlapping starts can start a run twice
  (`StopRace.StartedOnceIff`).
- The poller and `advancePhase` call `StopRun` with the context that `StopRun` cancels first, so the row
  is neither read nor written: the run stays running with nothing to drive it
  (`PhaseWatch.PhaseDriver.PollerStops`, `PhaseWatch.PhaseDriver.AdvancePhase`,
  `Scheduler.DrivenRunsNeverFinish`).
- A pause ignores a failed `StopAttack`, and the next resume replaces the list of attack ids, so that
  attack is forgotten while it runs (`AttackIds.ResumeForgetsUnlessAllStopped`, `AttackIds.ResumeCanForget`).
- `advancePhase` ignores the error of the phase write. The phases a run enters climb one by one except
  when a resume finds the row behind because of that, or a watcher recovered two or more phases behind
  advances (`PhaseWatch.PhaseDriver.ResumeRun`, `PhaseWatch.PhaseDriver.AdvancePhase`,
  `PhaseWatch.LostPhaseWriteRepeatsAPhase`, `PhaseWatch.RestartRepeatsAPhase`).
- `UpdateSpec` is not checked against the compositions that use the spec. Exactly the changes named by
  `SpecChange.SafeChange` keep every stored composition acceptable (`SpecChange.SpecUpdateIsSafeIff`,
  `SpecChange.ErrorToResetBreaks`). Whether anything compiles does
  not depend on it.
- A composition is validated before, not inside, the transaction that inserts it. If other writes come
  in between, the insert can store a composition that does not compile
  (`InsertGap.ValidatedInsertCanBreakTheStore`); it does so exactly when the tree no longer fits
  (`FaultStore.InsertIsSafeIff`).
- The comment on `DeleteSpec` says it fails if a rule refers to the spec; the keys of composition
  members make it fail for those too, and the model follows the keys.
- The depth check follows the child reference of a member that also names a spec, the compiler does
  not (`RuleConv.BothReferencesDisagree`); the member check and the database rule such members out.
- A fan-out with concurrency 0 blocks for ever unless it has no targets (`Fanout.BlocksIffNoSlots`).

## Model

| member | source | states |
|---|---|---|
| RunGraph.ValidateRunGraph | internal/model/experiment.go:182-237 | The start-time check returns no error exactly when every dependency exists in the same experiment, the dependency graph has no cycle, and every non-baseline run with frozen services reaches a baseline run; an error always names an edge, a cycle or a run for which that is really false. |
| RunGraph.CycleCheck.Dfs | internal/model/experiment.go:192-216 | The depth-first search over the visited and on-path sets terminates; without an error the run is visited and the visited runs stay topologically ordered; an error is a genuine cycle, unknown or cross-experiment dependency. |
| RunGraph.BaselineSearch.Walk | internal/model/experiment.go:246-261 | The seen-set walk answers yes only if a baseline is there, and no only if everything newly seen is not a baseline and leads nowhere unseen. |
| RunGraph.FindBaselineAncestor | internal/model/experiment.go:239-264 | True exactly when a baseline run can be reached along one or more dependency edges, even when the walk shares its seen set between branches. |
| RunGraph.CheckDependencies | internal/model/experiment.go:183-224 | The loop over all runs: no error means sound dependencies and an acyclic graph, an error is genuine. |
| RunGraph.CheckBaselines | internal/model/experiment.go:225-236 | No error exactly when every non-baseline run with frozen services has a baseline ancestor; the run named has none. |
| RunGraph.GenuineErrorsInvalidate | internal/model/experiment.go:182-237 | Any error of the kinds the check reports really makes the graph invalid. |
| RunGraph.SettledOrderIsSound | internal/model/experiment.go:192-224 | If the runs can be finished one after another, each after all its dependencies, the graph has sound dependencies and no cycle. |
| RunGraph.PathClosesCycle | internal/model/experiment.go:193-196 | Meeting a run that is on the current search path means the run reaches itself. |
| RunGraph.SinkExists | internal/model/experiment.go:182-224 | What the scheduler gets from acyclicity: every non-empty set of runs has a member that depends on nothing in the set. |
| Scheduler.CascadeIsExact | internal/orchestrator/orchestrator.go:446-476 | A cascade that marks only doomed runs and stops with nothing left to mark has marked exactly the pending runs with a dependency path through pending runs to a failed run. |
| Scheduler.FailurePathIsMarked | internal/orchestrator/orchestrator.go:446-476 | Along such a path every run is marked once the cascade is quiet, whatever order it worked in. |
| Scheduler.StepKeepsInv | internal/orchestrator/orchestrator.go:98-591 | Start, advance, pause, resume, stop, auto-complete and restart keep: an active run has all dependencies completed; the in-memory map only holds running runs; a completed experiment has only completed runs, a failed one only terminal runs and a failed one among them; terminal rows stay. |
| Scheduler.AdvanceKeepsInv | internal/orchestrator/orchestrator.go:438-526 | The same for one advance call, whatever writes and starts fail in it. |
| Scheduler.TraceIsSafe | internal/orchestrator/orchestrator.go:404-591 | The same at every point of every run of the system, and a row that was terminal earlier still has that status later. |
| Scheduler.AdvanceIsIdempotent | internal/orchestrator/orchestrator.go:436-526 | Once the experiment is finalized, another advance changes nothing at all. |
| Scheduler.PendingRunsDoNotBlock | internal/orchestrator/orchestrator.go:446-497 | On an acyclic graph pending runs cannot all wait for each other: some run is active or some pending run is ready. |
| Scheduler.CleanAdvanceProgresses | internal/orchestrator/orchestrator.go:438-526 | After an advance without errors on a validated graph the experiment is finalized, or some run is running or paused. |
| Scheduler.StepKeepsNoDeadlock | internal/orchestrator/orchestrator.go:404-591 | No error-free step leaves a running experiment without an active run and without a pending advance. |
| Scheduler.TraceNeverDeadlocks | internal/orchestrator/orchestrator.go:404-591 | Over every error-free run of the system, for every choice and order of stops, pauses and resumes, a running experiment always has an active run or an advance on its way. |
| Scheduler.StopsAreBounded | internal/orchestrator/orchestrator.go:530-591 | In every run of the system, errors and restarts included, at most one stop per run takes effect. |
| Scheduler.RoundFinishesOne | internal/orchestrator/orchestrator.go:530-591 | One stop of an active run plus the advance it launches strictly reduces the unfinished runs and leaves the experiment finalized or with an active run. |
| Scheduler.RoundsFinish | internal/orchestrator/orchestrator.go:404-591 | An experiment with n unfinished runs is finalized after at most n such rounds, whichever run each round stops and with whichever outcome. |
| Scheduler.CleanStart | internal/orchestrator/orchestrator.go:404-430 | An error-free start of a planned experiment with a valid graph leaves it finalized or with an active run. |
| Scheduler.ExperimentFinishes | internal/orchestrator/orchestrator.go:404-591 | From start to finish: a validated experiment of n runs started without errors is finalized after at most n stop-and-advance rounds, and until then there is always a run to stop. |
| Scheduler.RestartLeavesNothingActiveIff | internal/orchestrator/orchestrator.go:98-169 | A restart leaves a running experiment without an active run exactly when no run is paused and every running run is written as failed by Recover, which launches no advance. |
| Scheduler.RestartLeavesNobodyDrivingIff | internal/orchestrator/orchestrator.go:98-169 | Recover leaves nothing that drives the experiment, no run with handles, no advance and no auto-complete, exactly when the in-flight runs could not be read, in which case the process exits, or the attacks of every running run are lost, whether or not their rows could be written. |
| Scheduler.DrivenRunsNeverFinish | internal/orchestrator/poller.go:33-58 | Over every run of the system: a run that is active with a watcher or poller, that nobody stops from outside and whose process does not restart, is never finished, and its running experiment never finalized, because every stop by its own watcher or poller fails to read the row. |
| Scheduler.UndrivenUntilCalled | internal/orchestrator/orchestrator.go:530-591 | A process with nothing to do runs no step by itself; a stop call launches an advance again exactly when its run is unfinished, pending runs included. |
| Scheduler.QueueLostIff | internal/orchestrator/orchestrator.go:278-591 | One step leaves such a running run without an auto-complete exactly when it is its last auto-complete and a store call of it fails, or a restart that cannot list the runs or cannot write the run as failed. |
| Scheduler.UndrivenRunsAreQueued | internal/orchestrator/orchestrator.go:98-591 | Over every run of the system, restarts included: as long as every start, resume and recovery of a run finds neither watcher nor poller for it, an auto-complete waits for it whenever it is running, until it is paused or terminal, unless an auto-complete or a restart meets a store error. |
| Scheduler.RestartCanStrand | internal/orchestrator/orchestrator.go:98-169 | After an error-free start of two chained runs, a restart that finds the attacks of the running one lost leaves the experiment running with one failed and one pending run and nothing to act; if the failed status could not be written either, a run that looks running has nothing to act for it. |
| Scheduler.DirectStartIsSafeIff | internal/orchestrator/orchestrator.go:221-295 | StartRun does not look at DependsOn: starting a pending run directly keeps the safety invariant exactly when its dependencies are completed. |
| Scheduler.DirectStartCanJumpTheQueue | internal/orchestrator/orchestrator.go:221-295 | A concrete trace: right after an error-free start a direct start of the waiting run succeeds and breaks the invariant. |
| Scheduler.PlannedMeansPendingIff | internal/orchestrator/orchestrator.go:221-591 | In every run of the system in which runs may also be started directly, at every point at which the experiment is still planned, its rows are all pending exactly when no stop has taken effect and no direct start has succeeded. |
| Scheduler.DirectStartOfAPlannedExperiment | internal/orchestrator/orchestrator.go:221-228 | A concrete one: a direct start leaves the experiment planned with a run running that waits for another. |
| Scheduler.StopStartsAnUncheckedExperiment | internal/orchestrator/orchestrator.go:530-591 | A concrete trace: completing a run of a planned experiment starts the run behind it although the graph has a cycle and was never checked. |
| Orchestrator.Orchestrator.StartRun | internal/orchestrator/orchestrator.go:221-295 | Succeeds exactly when the run is there and pending and store and phase entry answer; then it is running and registered, and one auto-complete is launched exactly when it has neither watcher nor poller; every error leaves everything unchanged. |
| Orchestrator.Orchestrator.PauseRun | internal/orchestrator/orchestrator.go:299-330 | Succeeds exactly when the run is there and running and both store calls answer; the handles of a running run are dropped before the write, so a failed write leaves the row but not the handles. |
| Orchestrator.Orchestrator.ResumeRun | internal/orchestrator/orchestrator.go:333-395 | Succeeds exactly when the run is there and paused and store and phase entry answer; then it is running with new handles, and one auto-complete is launched exactly when it has neither watcher nor poller; every error leaves everything unchanged. |
| Orchestrator.Orchestrator.StopRun | internal/orchestrator/orchestrator.go:530-591 | An unfinished run gets the requested terminal status and exactly one advance is launched; a terminal run is left alone and nothing is launched; the handles are gone in both cases. |
| Orchestrator.Orchestrator.Recover | internal/orchestrator/orchestrator.go:98-169 | Run by run: a running run whose attacks are lost is written as failed, any other running run gets its handles back, everything else is untouched. |
| Orchestrator.Orchestrator.Restart | internal/orchestrator/orchestrator.go:98-169 | A crash followed by Recover is the restart step of the state machine. |
| Orchestrator.TryFail | internal/orchestrator/orchestrator.go:462-474 | The dependency loop for one run: fails it only for a failed dependency, and if no write failed and it did not, there is none. |
| Orchestrator.Orchestrator.CascadePass | internal/orchestrator/orchestrator.go:456-475 | One pass marks only doomed runs; if it reports a change some pending run is gone; if it reports none and no write failed, nothing is left to cascade. |
| Orchestrator.Orchestrator.Cascade | internal/orchestrator/orchestrator.go:450-476 | The whole loop marks only doomed runs, all of them if no write fails, in at most one pass more than there are pending runs, even when writes fail. |
| Orchestrator.Orchestrator.StartReady | internal/orchestrator/orchestrator.go:478-497 | Starts only runs that are ready in the snapshot, each at most once, and all of them if no start fails. |
| Orchestrator.Orchestrator.Judge | internal/orchestrator/orchestrator.go:499-512 | The status loop computes whether every run is terminal and whether some run failed. |
| Orchestrator.Orchestrator.AdvanceExperiment | internal/orchestrator/orchestrator.go:438-526 | The cascade, start and finalize loops together are one advance step of the state machine, and the error-free one if nothing fails; the experiment is written as failed or completed exactly when all runs are terminal and the write succeeds. |
| Orchestrator.Orchestrator.StartExperiment | internal/orchestrator/orchestrator.go:404-430 | Starts exactly the planned experiments whose run graph is valid, by one advance; every refusal changes nothing and an invalid-graph error is genuine. |
| Orchestrator.Orchestrator.RunAdvance | internal/orchestrator/orchestrator.go:589-590 | A launched advance goroutine is one advance step of the state machine. |
| Orchestrator.Orchestrator.RunAutoStop | internal/orchestrator/orchestrator.go:280-292 | A launched auto-complete goroutine is taken off and completes an unfinished run if the store answers, which launches one advance. |
| Scheduler.DistinctIdsAreIndexed | internal/orchestrator/orchestrator.go:446-449 | With distinct ids the run list and the lookup map describe the same rows. |
| StopRace.OneStopWins | internal/store/experiment_repo.go:354-366 | Any number of StopRun callers on a run whose own registered watcher goes on working, interleaved and failing at every store call and every use of the handle map: at most one wins, the row then has the winner's status, the scheduler is triggered at most once and only by the winner; without a winner the row is unchanged. |
| StopRace.SomeoneWins | internal/orchestrator/orchestrator.go:530-591 | If the store never fails and everyone has returned, exactly one caller won, its status is the final one, and the scheduler was triggered once. |
| StopRace.LosersLoseToAWinner | internal/orchestrator/orchestrator.go:552-554 | Without store failures a caller that gives up does so because the row is already terminal. |
| StopRace.StepKeepsRaceInv | internal/store/experiment_repo.go:354-366 | Each single turn of a caller or of the watcher keeps the one-winner invariant, and after the first turn of any stopper no watcher can write the row. |
| StopRace.CallerTurnRow | internal/orchestrator/orchestrator.go:221-591 | Who writes the row, when and what: a stop its status if the row is still unfinished, a start running, a pause or a cascade its status whatever the row is by then; a failing store call writes nothing. |
| StopRace.TestPassedIff | internal/orchestrator/orchestrator.go:221-235 | A caller goes on after its read exactly when the store answered and the row is unfinished, for a stop, or has the status it expects. |
| StopRace.WatcherTurnRow | internal/orchestrator/runner.go:52-93 | A watcher writes running exactly when it entered its phase, was not cancelled and the store answered; it stops the run, with one launch, exactly when the entry failed, the row is unfinished, and the stop does not cancel the watcher itself. |
| StopRace.WatcherLinesEnd | internal/orchestrator/runner.go:14-93 | Every watcher and those it hands over to end: each turn takes one from a count that starts below four for each later phase, and a new watcher is registered by the one before it. |
| StopRace.TerminalIsFinalIff | internal/store/experiment_repo.go:327-366 | From a terminal row on, no schedule of any stops, pauses, resumes, starts, cascade writes and watchers changes the row, exactly when at that moment no writer or starter has compared the row and has still to write, no starter has still to spawn a watcher, and no watcher is uncancelled or can still hand over to an uncancelled one. |
| StopRace.PhaseWriteRevivesAStoppedRun | internal/orchestrator/orchestrator.go:221-276 | A concrete schedule in which a run is stopped while its start is inside the Zeus call: no write is late, but the watcher that the start then spawns writes the completed run back to running. |
| StopRace.ForgottenWatcherRevivesAStoppedRun | internal/orchestrator/orchestrator.go:260-276 | The same with two overlapping starts, of which the handle map and therefore the stop only know the second. |
| StopRace.StartedOnceIff | internal/orchestrator/orchestrator.go:221-243 | Whatever else goes on, no schedule starts a run twice exactly when at most one start has passed the pending test or can still pass it. |
| StopRace.PauseCanReviveAStoppedRun | internal/orchestrator/orchestrator.go:299-330 | A concrete schedule in which a pause brings a completed run back to paused. |
| AttackIds.LiveAttacksArePersisted | internal/orchestrator/orchestrator.go:613-649 | At every point of every history of starts, pauses, resumes, stops, recoveries and crashes, an attack that is live at Zeus is on the run's persisted list, provided no pause misses a live attack and Zeus honours client ids; failed stops of attacks that are not live are allowed. |
| AttackIds.StepKeepsInv | internal/store/experiment_repo.go:369-397 | Each single call of the protocol keeps that, under the same two conditions. |
| AttackIds.OperationsEnd | internal/orchestrator/orchestrator.go:299-649 | Whatever calls fail, an operation comes to its end: each of its calls leaves fewer, and one is possible while any are left. |
| AttackIds.StatusChangesIff | internal/orchestrator/orchestrator.go:98-591 | Only the begin of a start or resume, the end of a pause or stop and the two failing writes change the row's status, each to its own. |
| AttackIds.LiveChangesIff | internal/orchestrator/orchestrator.go:597-649 | An attack becomes live exactly by a launch that Zeus carried out, answered or not, and stops being live exactly by a confirmed stop of it or by itself. |
| AttackIds.CleanStopLeavesNothingRunning | internal/orchestrator/orchestrator.go:530-591 | A stop that missed no live attack, whatever Zeus answered for ids it does not know or has ended, leaves no live attack when it writes the requested terminal status. |
| AttackIds.AbandonedIff | internal/orchestrator/orchestrator.go:98-169 | A step that makes the row terminal leaves a live attack exactly when Recover gives up a run with one, or a stop that missed one finalizes; a terminal row never gets a live attack later. |
| AttackIds.TerminalRowsAreAbandonedOnly | internal/orchestrator/orchestrator.go:552-554 | Over whole histories, a terminal row has a live attack only if such a step abandoned it. |
| AttackIds.StopLeavesBehindIff | internal/orchestrator/orchestrator.go:530-591 | After a whole StopRun, stop by stop with its answers, no attack is live exactly when every attack that was live had a successful stop. |
| AttackIds.CoverageLostIff | internal/store/experiment_repo.go:369-397 | Coverage is lost by exactly two steps: recording a new attack while an old one is still live, and an attack that Zeus started under an unpersisted id. |
| AttackIds.ResumeForgetsUnlessAllStopped | internal/orchestrator/orchestrator.go:299-395 | After a pause and a resume every live attack is persisted exactly when the pause stopped every attack that was live. |
| AttackIds.ResumeCanForget | internal/orchestrator/orchestrator.go:299-395 | A concrete history from a fresh run: start, a pause that cannot stop the attack, and a resume after which two attacks are live and one is persisted. |
| AttackIds.PauseStops | internal/orchestrator/orchestrator.go:313-326 | The stop loop of a pause removes from the live attacks exactly the listed ones whose stop succeeded. |
| PhaseWatch.WatchPhase | internal/orchestrator/runner.go:14-50 | The watcher advances at the first tick at which the condition has held at every tick of a stretch that spans the window, and at no other tick; a query error or an unmet sample starts the window again. |
| PhaseWatch.DueIff | internal/orchestrator/runner.go:26-47 | A tick is due exactly when some earlier tick lies at least the window back and every query from there on was answered with a value that meets the condition. |
| Conditions.OperatorsOrder | internal/conditions/conditions.go:13-24 | Exactly one of "lt", "eq" and "gt" holds, and "lte" and "gte" are the two that include equality. |
| Conditions.OperatorsAreMonotone | internal/conditions/conditions.go:13-24 | Raising the value or lowering the threshold keeps "gt" and "gte", the other way round "lt" and "lte"; a smaller value is "lt" a larger one, which is "gt" it, and every value is "eq" itself. |
| Conditions.OtherwiseUnmet | internal/conditions/conditions.go:10-27 | A value that is no finite number, or an operator other than the five, meets no condition. |
| PhaseWatch.PhaseDriver.OneDriverEach | internal/orchestrator/orchestrator.go:260-276 | At most one live watcher and one live poller per run, and while there is one the run is running and its cancel function is registered. |
| PhaseWatch.PhaseDriver.AdvancePhase | internal/orchestrator/runner.go:52-91 | Enters exactly the phase after the one the watcher works on, which exists; that breaks the one-by-one climb of the phases entered exactly when the watcher was made two or more phases behind; the row falls behind exactly when its write fails; hands over to a new watcher exactly when that phase is not the last. When the phase cannot be entered, the stop cancels the context it runs in: the row stays running with no watcher, poller or handles. |
| PhaseWatch.PhaseDriver.StartRun | internal/orchestrator/orchestrator.go:240-276 | Enters phase 0, leaves a watcher exactly when there is a next phase and a transition condition, and a poller exactly when the run has attacks; failures install nothing. |
| PhaseWatch.PhaseDriver.PauseRun | internal/orchestrator/orchestrator.go:308-329 | Every watcher and poller of a running run is cancelled, even if the row then cannot be written; the phase is kept. |
| PhaseWatch.PhaseDriver.ResumeRun | internal/orchestrator/orchestrator.go:342-379 | Re-enters the phase of the row, which breaks the climb exactly when the row is behind the phase entered last; leaves a watcher on that phase exactly when there is a next one and a condition, and a poller exactly when the run has attacks. |
| PhaseWatch.PhaseDriver.Recover | internal/orchestrator/orchestrator.go:98-169 | After a crash a running run is written as failed if its attacks are lost; otherwise it gets a watcher on the phase of the row, as far behind the phase entered last as the row is, and a poller exactly when it has attacks. |
| PhaseWatch.PhaseDriver.StopRun | internal/orchestrator/orchestrator.go:535-551 | Every watcher and poller of the run is cancelled; the row is finalized exactly when the caller is not one of them, it is unfinished and the store answers. |
| PhaseWatch.PhaseDriver.PollerStops | internal/orchestrator/poller.go:33-58 | A stop by the poller leaves the row running with nothing to drive it. |
| PhaseWatch.LadderGrows | internal/orchestrator/runner.go:52-53 | One more phase keeps the climb exactly when it is the phase entered last or the next one. |
| PhaseWatch.EntryKeepsSound | internal/orchestrator/runner.go:52-75 | With every phase entered the phases stay within the run, the row is never ahead of them, and they climb one by one exactly when none was below the one before it. |
| PhaseWatch.LostPhaseWriteRepeatsAPhase | internal/orchestrator/runner.go:69-70 | A concrete run in which the ignored error of the phase write makes a pause and resume enter phase 0 again after phase 1. |
| PhaseWatch.RestartRepeatsAPhase | internal/orchestrator/orchestrator.go:133-138 | A concrete run in which two lost phase writes and a restart make the recovered watcher enter phase 1 again after phase 2. |
| CompositionTree.DepthCheckIsExact | internal/model/composition_validate.go:18-38 | The depth check counting from 1 accepts exactly the trees that have at most the allowed number of levels and no dangling child. |
| CompositionTree.WalkMembersChecksEach | internal/model/composition_validate.go:26-36 | The member loop of the depth check examines every child reference. |
| CompositionTree.FittingPathsAreShort | internal/model/composition_validate.go:22-38 | Below an accepted tree no path of child references is longer than the allowed depth, so it contains no cycle, whatever else the resolver knows. |
| CompositionTree.CollectLeaves | internal/model/composition_validate.go:150-172 | The leaf walk, which has no depth guard, ends on every tree that passed the depth check and returns the type names of the in-order leaf specs or the first missing spec. |
| CompositionTree.CollectNetworkMembers | internal/model/composition_validate.go:80-113 | The network walk ends likewise and returns the network leaves in order, each with its own direction or the one it takes from the members above it. |
| Incompatibility.CheckPair | internal/model/composition_validate.go:129-142 | One pair against all rules: an error exactly when a hard rule matches it, otherwise the number of matching rules. |
| Incompatibility.CheckRow | internal/model/composition_validate.go:128-143 | One leaf against every later leaf: the same for all those pairs. |
| Incompatibility.CheckPairs | internal/model/composition_validate.go:118-146 | A hard error is returned exactly when some ordered leaf pair matches a hard rule, and names such a pair; otherwise there is one warning per matching pair and rule. |
| Incompatibility.DefaultIncompatibilities | internal/model/fault.go:340-349 | The filter keeps the pair rules of the matrix in order. |
| CompatibilityTable.HardPairIff | internal/model/fault.go:244-261 | Two valid faults are a hard pair under the default matrix exactly when they stand in parallel, both are network faults, and one is a blackhole or one is a drip and the other a throttle or a latency. |
| CompatibilityTable.WarningsOfPair | internal/model/fault.go:263-300 | In parallel mode exactly the pairs hang and blackhole, retransmit delay and reset, error and hang, cpu and memory, latency and hang get a warning, in either order; in sequential mode only an error before a latency; each gets one. |
| CompatibilityTable.AnyHardPairIff | internal/model/composition_validate.go:118-146 | Under the default matrix a list of leaves is refused exactly when it is parallel and some two of them are network faults of which one is a blackhole, or one a drip and the other a throttle or a latency. |
| CompatibilityTable.WarningsOfLeaves | internal/model/composition_validate.go:118-146 | A list of leaves that is not refused gets exactly one warning for each ordered pair of a discouraged kind. |
| Incompatibility.PairsKeepEveryPair | internal/model/fault.go:340-349 | A constraint survives the filter exactly when it is a pair rule of the matrix. |
| Incompatibility.HardVerdictIsAboutTheBag | internal/model/composition_validate.go:118-146 | In parallel mode the hard verdict depends only on which leaves there are and how often. |
| Incompatibility.VerdictIgnoresOrder | internal/model/composition_validate.go:178-191 | In parallel mode neither the verdict nor the warning count changes under any permutation of the leaves. |
| Incompatibility.WarningsIgnoreOrder | internal/model/composition_validate.go:118-146 | The warning count of a parallel composition is invariant under permutation. |
| Incompatibility.SequentialOrderMatters | internal/model/composition_validate.go:180-186 | In sequential mode it is not: an error before a latency is warned about, after it is not. |
| CompositionValidator.GroupByDirection | internal/model/composition_validate.go:59-66 | The direction map holds, for each direction, as many network faults as have it. |
| CompositionValidator.CheckDirections | internal/model/composition_validate.go:50-77 | Reports a clash exactly when two network leaves have the same direction, and names a direction that is taken twice. |
| CompositionValidator.ValidateComposition | internal/model/composition_validate.go:208-230 | Accepts exactly the well-formed compositions of depth at most 3 whose specs exist and which, in parallel mode, have no two leaves that are incompatible by their fault types and no two network leaves with the same direction; malformed and too-deep compositions get those errors first. |
| CompositionValidator.AcceptsIffByType | internal/model/composition_validate.go:208-230 | Over valid specs and directions the verdict through the matrix, its wildcards and type names is the verdict by fault types and directions. |
| CompositionValidator.ValidateIncompatibilities | internal/model/composition_validate.go:118-204 | On a tree that fits, fails exactly when a spec is missing; otherwise a hard verdict exactly when two leaves of a parallel composition are incompatible by their fault types, and else one warning for each discouraged pair. |
| CompositionValidator.WalksAgreeOnNetwork | internal/model/composition_validate.go:80-172 | The direction walk and the leaf walk see the same network faults in the same order. |
| CompositionValidator.NetworkDirectionsAreValid | internal/model/composition_validate.go:80-113 | Inheritance never produces a direction other than upstream, downstream or none. |
| CompositionValidator.VerdictDependsOnTypes | internal/model/composition_validate.go:208-230 | The verdict on a composition depends on its specs only through their category and fault type. |
| CompositionValidator.BlackholeClashes | internal/model/fault.go:244-256 | A blackhole and any other network fault are a hard pair in parallel mode under the default matrix. |
| CompositionValidator.AcceptedParallelIsNarrow | internal/model/composition_validate.go:208-230 | An accepted parallel composition has at most three network leaves, and only one if one of them is a blackhole. |
| Rules.ValidatedRulesAreComplete | internal/model/rule.go:108-136 | A rule that passes has a valid mode and start policy, differs from the input only where those were empty, and passes again unchanged; only a cachebox rule may leave the mode out. |
| Rules.RuleAcceptedIff | internal/model/rule.go:108-136 | A rule is valid exactly when id, name and service are given, its action is valid, its mode is inline or background or, for a cachebox rule, left out, and its start policy is known or left out. |
| RuleConv.ResolveComposition | internal/ruleconv/ruleconv.go:194-245 | Filling the member slots one by one yields the compiled tree of the depth-guarded recursion, or its first error; every level of the tree mirrors its stored row. |
| RuleConv.CompilationMirrors | internal/ruleconv/ruleconv.go:160-245 | At every level the compiled composition has the name, the execution mode, the timing and, member by member, the directions of its stored row; every fault in it has the fields of its spec, with "proxy" for an empty host of a network fault and no network envelope for any other. |
| RuleConv.CompileRules | internal/ruleconv/ruleconv.go:92-110 | Succeeds exactly when every rule compiles, and then returns their compiled forms in order, each with the fields of its rule. |
| RuleConv.CompiledRuleMirrors | internal/ruleconv/ruleconv.go:121-158 | A compiled rule has the name, injection point, mode, priority and start policy of its rule, and the one payload its action asks for, mirrored from the stored spec or composition. |
| RuleConv.ResolvesIffLeavesResolve | internal/ruleconv/ruleconv.go:194-245 | On a tree that fits in the levels the compiler has left, the compiler succeeds exactly when the validator's leaf walk does. |
| RuleConv.ResolvedTreesFit | internal/ruleconv/ruleconv.go:194-245 | A composition that compiles fits in the levels the compiler had left. |
| RuleConv.ValidatorAndCompilerAgree | internal/ruleconv/ruleconv.go:192-245 | For members with at most one reference, depth check plus leaf walk succeed exactly when compilation succeeds, so the counters from 1 and from 0 agree. |
| RuleConv.BothReferencesDisagree | internal/model/composition_validate.go:22-38 | With both references on one member they do not: the depth check follows a child that the compiler never looks at. |
| RuleConv.CompilationKeepsLeaves | internal/ruleconv/ruleconv.go:211-244 | The in-order leaves of the compiled tree are the compiled leaves of the source tree. |
| RuleConv.CompilationKeepsDirections | internal/ruleconv/ruleconv.go:211-244 | Reading directions top-down from the compiled tree gives the same network faults, order and directions as the validator's bottom-up rewriting of the source tree. |
| FaultStore.ApplyKeepsInv | internal/store/fault_repo.go:24-301 | Every accepted or refused write of specs, compositions and rules under the foreign keys, composition inserts validated at the moment of the insert, keeps: stored specs are valid; stored compositions are well formed, at most 3 deep, with every reference present; stored rules have valid actions with existing references. |
| FaultStore.WritesReadBack | internal/store/fault_repo.go:24-301 | After every accepted write of a spec, composition or rule its row reads back as given, up to an empty envelope and a rule's defaults, a deleted row is gone, and no other row changes; a refused write changes nothing. |
| FaultStore.InsertAcceptedIff | internal/store/fault_repo.go:190-223 | A composition is inserted exactly when it is well formed, its id is free and every spec and child its members name is stored or, for a child, the composition itself; a create needs the validator's consent too. |
| FaultStore.RuleWritesAcceptedIff | internal/store/rule_repo.go:25-118 | A rule is created or updated exactly when it is valid, has a known injection point, the spec or composition it names is stored, and its id is free or taken as it needs. |
| FaultStore.EveryHistoryCompiles | internal/store/rule_repo.go:25-132 | Over every history of writes on an empty store, inserts that rely on an earlier validation included: the store is sound after every write exactly when each such insert fits at its moment, and then every stored composition and every stored rule compiles. |
| FaultStore.HistoryStaysSoundIff | internal/store/fault_repo.go:190-223 | The same from any sound store. |
| FaultStore.StoredThingsCompile | internal/ruleconv/ruleconv.go:121-245 | In a store with that invariant no compilation fails. |
| FaultStore.StoredRulesKeepTheirFaults | internal/ruleconv/ruleconv.go:121-158 | The payload of each compiled stored rule carries exactly the faults of the rule, in order; it carries none exactly for cachebox rules, which keep their configuration. |
| FaultStore.MembersHaveLeaves | internal/model/fault.go:163-202 | Every member of a stored composition contributes at least one fault, so no stored composition is empty. |
| FaultStore.CompositionGraphIsShallow | internal/db/migrations.go:359-370 | No path of child references through stored compositions is longer than two steps or returns to its start. |
| FaultStore.ValidatedCompiles | internal/model/composition_validate.go:208-230 | A validated composition compiles as soon as the resolver knows it. |
| FaultStore.InsertIsSafeIff | internal/store/fault_repo.go:190-223 | An insert that passes the well-formedness check, the primary key and the foreign keys keeps the store sound exactly when the tree fits at that moment, and exactly then the inserted composition compiles. |
| InsertGap.ValidatedInsertCanBreakTheStore | internal/api/fault_handler.go:203-213 | A concrete history: a composition is accepted, its child is deleted and created again one level deeper by accepted writes, and the insert then succeeds with every key in place and leaves a composition that does not compile. |
| SpecChange.SpecUpdateIsSafeIff | internal/store/fault_repo.go:63-98 | Spec updates are not checked against compositions. An update keeps the verdict on every accepted composition of every sound store exactly when the new spec is no network fault, or both are and every network type that is a hard pair with the new one is one with the old one. |
| SpecChange.SafeChangeKeepsVerdict | internal/model/composition_validate.go:208-230 | A safe change keeps an accepted composition accepted, at any depth and however often it uses the spec. |
| AcceptedStore.CarefulStoresStayAccepted | internal/store/fault_repo.go:24-301 | Over every history of writes on an empty store in which every spec update is a safe change and every late insert is accepted at its moment, every stored composition is still accepted; so every stored parallel one has at most three network leaves, and only one if one is a blackhole. |
| AcceptedStore.CarefulWriteKeepsAccepted | internal/store/fault_repo.go:24-301 | Each such write, accepted or refused, keeps all verdicts. |
| AcceptedStore.VerdictInLarger | internal/model/composition_validate.go:208-230 | More stored specs and compositions never change the verdict on a tree whose rows are all there. |
| SpecChange.UnsafeChangeBreaks | internal/store/fault_repo.go:63-98 | For every unsafe change there is a sound store with one composition of two specs that is accepted before and refused after it. |
| SpecChange.ErrorToResetBreaks | internal/store/fault_repo.go:63-98 | A concrete one without a blackhole: an inline error becomes a reset beside a network fault. |
| SpecChange.SpecUpdateBypassesValidation | internal/store/fault_repo.go:63-98 | Turning one of two specs of any accepted parallel pair into a blackhole beside a network fault always succeeds and leaves a stored composition the validator refuses. |
| SpecChange.PairVerdict | internal/model/composition_validate.go:208-230 | A parallel composition of two specs is accepted exactly when they are not two network faults with the same direction and not a hard pair. |
| SpecChange.HardPairsAreNetwork | internal/model/fault.go:244-334 | Under the default matrix hard pairs are pairs of network faults in parallel mode only. |
| SpecChange.SameTypeUpdateKeepsVerdicts | internal/store/fault_repo.go:63-98 | A spec update that keeps category and fault type keeps the verdict on every composition. |
| FaultStore.StoringKeepsMeaning | internal/store/fault_repo.go:24-98 | Storing an empty network envelope as none changes neither the validity of a spec nor what it compiles to. |
| FaultStore.DeleteCompositionKeepsInv | internal/store/fault_repo.go:295-301 | Deleting a composition no other row refers to leaves every other tree intact. |
| FaultStore.FaultRepo.WriteSpec | internal/store/fault_repo.go:24-98 | Create and update of a spec: refused as invalid, duplicate or missing in exactly those cases, otherwise exactly that row is written as the columns hold it; the store invariant is kept. |
| FaultStore.FaultRepo.RemoveSpec | internal/store/fault_repo.go:179-185 | Deleting a spec is refused while a member or a rule refers to it. |
| FaultStore.DeletesRefusedIff | internal/db/migrations.go:359-370 | A stored spec can be deleted exactly when no member and no rule names it, a stored composition exactly when no other composition's member, no rule and no fault config does, a stored rule always. |
| FaultStore.FaultRepo.AddComposition | internal/api/fault_handler.go:188-216 | Validation followed at once by the insert: refused with a reason exactly when the validator refuses; the store invariant is kept. |
| FaultStore.FaultRepo.Insert | internal/store/fault_repo.go:190-223 | The insert transaction alone: refused as malformed, duplicate or dangling, and otherwise the invariant is kept exactly when the tree fits. |
| FaultStore.FaultRepo.RemoveComposition | internal/store/fault_repo.go:295-301 | Deleting a composition is refused while another composition, a rule, or a fault config without a request of its own refers to it. |
| FaultStore.FaultRepo.WriteRule | internal/store/rule_repo.go:25-118 | Create and update of a rule: refused as invalid, for its injection point, as duplicate, missing or dangling in exactly those cases, otherwise exactly that row is written, with its defaults filled in; the store invariant is kept. |
| FaultStore.FaultRepo.CompileStored | internal/api/sdk_handler.go:211-221 | In a sound store compiling any selection of stored rules succeeds, each with the fields of its rule, so the poll handler's fallback to raw rules is not taken. |
| RulePolling.EveryNotModifiedIsCurrent | internal/api/sdk_handler.go:192-201 | Under every interleaving of any number of polls with rule mutations, a client that is answered 304 already holds exactly the stored rules that are enabled and belong to its service, as they are stored. |
| RulePolling.NotModifiedMeansCurrent | internal/api/sdk_handler.go:197-201 | In every state with the invariant, equal versions mean equal rows. |
| RulePolling.RunHasHistory | internal/store/rule_repo.go:188-209 | In every reachable state each client's rows are those of its service at some version at least as new as its tag. |
| RulePolling.StepKeepsInv | internal/api/sdk_handler.go:178-221 | Each commit, version read, row read, lost answer and SDK restart keeps that. |
| RulePolling.PollDelivers | internal/api/sdk_handler.go:178-221 | A whole poll of a client whose version differs, whatever commits between its two reads, leaves it with the version of the first read and exactly the enabled rules of its service at the second. |
| RulePolling.EventsTouchOneClient | internal/api/sdk_handler.go:178-221 | Only a client's own polls and restarts change what it holds, a poll under way keeps the version it read, and only commits change the store. |
| RulePolling.VersionsIncrease | internal/api/sdk_handler.go:192-221 | Until an SDK restarts, each 200 it gets carries a larger version than the one before, and the store is never behind it. |
| RulePolling.RuleServer.Transact | internal/store/rule_repo.go:25-132 | A mutation bumps the version exactly when it commits, its rule is valid and its id is free or taken as it needs; then its row reads back as given up to defaults, or is gone, and no other row changes; otherwise nothing does. |
| RulePolling.MutationLeavesRow | internal/store/rule_repo.go:25-132 | The same for every mutation of the model's store. |
| RulePolling.RuleServer.HandlePoll | internal/api/sdk_handler.go:171-247 | 304 exactly when the requested version is the one read; otherwise the tag is the version read first, and the rows are exactly the stored rules of the service that are enabled, as they are after whatever committed in between. |
| PolicyEngine.FiresExactlyOutsideCooldown | internal/policy/engine.go:165-183 | Over a whole run with a clock that does not go back, an evaluation fires exactly when its condition is met and every earlier firing of the rule is at least its cooldown ago. |
| PolicyEngine.FoldHoldsLatest | internal/policy/engine.go:165-183 | The cooldown map holds for each rule the time of its latest firing. |
| PolicyEngine.Engine.Tick | internal/policy/engine.go:106-118 | One tick folds the evaluations of its rules in order and fires exactly those. |
| PolicyEngine.Engine.Decide | internal/policy/engine.go:128-160 | A decision on a snapshot leaves the same cooldown map as evaluating the same rules, values and times one by one, and returns one effect for each firing rule with a push configuration, in order, with the rule's action and service and, for push_rules only, its rule ids. |
| PolicyEngine.EffectsAreThePushes | internal/policy/engine.go:141-158 | The effects are those of the firing rules with a push configuration, one each and in order, each asking for what its rule says. |
| PolicyEngine.PushesAreTheFirings | internal/policy/engine.go:141-150 | A rule of the snapshot gets an effect exactly when it fires and has a push configuration. |
| PolicyEngine.FiringIsStamped | internal/policy/engine.go:165-183 | An evaluation fires exactly with a value that meets the condition outside the cooldown of the last stamp; then that rule alone gets the new stamp, otherwise no stamp changes. |
| PolicyEngine.Engine.Evaluate | internal/policy/engine.go:165-183 | Fires and stamps exactly when the query succeeded, the condition is met and the cooldown is over. |
| EventChannel.OnlyFullChannelsDrop | internal/api/sse_broker.go:59-68 | Received plus buffered events are exactly the offered ones that found fewer than 16 buffered, in order; so they are a subsequence of the offers, and as many are missing as found 16 buffered. |
| EventChannel.SixteenAreKept | internal/api/sse_broker.go:26-35 | A channel that nobody reads holds the first 16 events it was offered and no more. |
| EventChannel.NothingDroppedWhileRoom | internal/api/sse_broker.go:59-68 | A subscriber whose buffer is never full when an event comes misses nothing. |
| EventBroker.EverySubscriberIsServed | internal/api/sse_broker.go:26-68 | For every channel the broker ever made: its offers are the broadcasts to its service between its subscription and its close, and what its reader received and what is buffered are exactly those that found room, in order. |
| EventBroker.BroadcastTellsAll | internal/api/sse_broker.go:59-68 | One broadcast extends, for every channel, the events it was offered exactly as it extends the broadcasts it is due. |
| EventBroker.EventBroker.Subscribe | internal/api/sse_broker.go:26-35 | A new, open, empty channel is added and no other channel changes. |
| EventBroker.EventBroker.Unsubscribe | internal/api/sse_broker.go:40-55 | Closes a channel exactly when it is subscribed to that service, so never twice; otherwise nothing changes. |
| EventBroker.EventBroker.Broadcast | internal/api/sse_broker.go:59-68 | Every open channel of the service is offered the event once, no other channel changes, no send meets a closed channel, and every channel has been offered exactly what it is due. |
| EventBroker.EventBroker.ClientCount | internal/api/sse_broker.go:71-79 | The sum over services is the number of open channels. |
| Fanout.ScheduleKeepsInv | internal/atrocontrol/fanout.go:28-57 | In every schedule at most the configured number of calls is in flight, and the two result lists hold each recorded target once. |
| Fanout.ResultsPartitionTargets | internal/atrocontrol/fanout.go:28-62 | When the wait group is done, OK and Failed together hold every target exactly once, and OK holds exactly those whose call returned without error. |
| Fanout.BlocksIffNoSlots | internal/atrocontrol/fanout.go:25-29 | Some step is possible until everything is done, in every schedule, exactly when the concurrency is at least 1 or there are no targets. |
| Fanout.SchedulesEnd | internal/atrocontrol/fanout.go:28-60 | Every schedule is finite: each target takes exactly four steps. |
| Fanout.StepKeepsInv | internal/atrocontrol/fanout.go:28-57 | Each spawn, return, record and release keeps the slot bound and the result lists. |

## Left out

- HTTP handlers other than the rule poll and the composition create, JSON, the Zeus, Atropos and
  Prometheus clients and the SSE streaming loop: only their outcomes appear, as inputs.
- SQL text, row scanning and null conversion: rows are values, keys and checks are preconditions of
  the store's operations. Row timestamps are not modelled.
- Result harvesting: rows come from Zeus and may be stored twice; no claim is made about them.
- Cancellation of the context inside `StopRun` in the scheduler machine: its stop steps take the answers of
  the store as inputs, and a stop by the run's own watcher or poller is one whose read fails.
  `PhaseWatch.dfy` models which stops those are.
- Liveness of a running run: a run in its last phase without a poller has no driver, so no claim is
  made that every run is stopped. The progress results start from the stops that do happen.
- Overlapping operations on one run outside `StopRace.dfy`: the scheduler machine takes each public
  operation and each advance as one step, and a crash there falls between operations.
- PhaseWatch.PhaseDriver.AdvancePhase: only entered from a live watcher, which exists only below the last phase, so the branch
  of the source that completes a run past its last phase is shown unreachable and not written out.
- PhaseWatch.PhaseDriver.OneDriverEach: for operations on the run that do not overlap; `StopRace.dfy` shows what overlapping starts do.
- StopRace.TerminalIsFinalIff: pollers, and restarts of the process, are not among the turns; a poller only stops, and a restart
  reads the row first.
- FaultStore.FaultRepo.RemoveComposition: the table of fault configs is not part of this model; whether one pins the composition
  is an input.
- EventBroker.EventBroker.Broadcast: two broadcasts hold the read lock together in the source and may reach two subscribers in
  different orders; here they run one after the other. `EventChannel` holds for either, since it is
  about the order of sends on one channel.
- Incompatibility.CheckPairs: warnings are counted, their texts are not modelled.
- RuleConv.CompileRules: a rule with a cachebox action and no configuration yields an error here and a nil dereference in the
  source; no stored rule is of that kind.
- RulePolling.EveryNotModifiedIsCurrent: about rule rows. Spec updates and deleted fault configurations do not bump the version,
  so nothing is claimed for spec contents, active faults or the freeze configuration. Rules of equal
  priority have no order in the source, and rows are compared as a table. Version numbers do not wrap.
- PolicyEngine.FiresExactlyOutsideCooldown: the grace tick after a process start and the delivery of pushed rules are not modelled.
- PhaseWatch.WatchPhase: one clock reading per tick; metric values are reals, with NaN and the infinities as separate values.
- Delivery of compiled rules to instances, `collectServices`, cache preload, the catalog, pagination,
  match expressions and SDK liveness: single-branch code or I/O.
- Field-by-field checks of experiments, runs and results, and laws about the field checks of specs, actions and
  members: each is visible from its own body.
