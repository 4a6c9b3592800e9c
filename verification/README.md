# Capsulet, verified

A Dafny model of the protocols at the centre of the Capsulet orchestration platform, with proofs
about every run of them. Nothing here executes the original program: the model follows the Rust
sources and the SQL they send branch by branch, and the statements below are proved of it.

`dafny verify dfyconfig.toml` checks the whole project.

## What is modelled

**Durable graph runs.** `Definition`, `RunEvents`, `RunStates`, `RunEffects`, `Waits`, `Loops`, `Stopping`
and `DecisionCore` are the runtime crate: events, the strict fold, keys and claims, waits, loop bounds
and repair routes, compensation, and the decision function. `GraphWorkers` is the fleet: any number of
workers lease one run, fold its log, decide, claim, ask executors and append under an epoch. One
interleaving is a sequence of steps, so "for every interleaving" covers every crash, stall and takeover.
`LogReadings` and `RunTallies` read the folded state off the log, and say which logs fold at all;
`EffectKeys` says when keys are shared and `RunResults` what completion reports. `Causes` states on
definition and state what justifies a repair, an escalation, a stopped loop or a failed run, and
`DecisionTable` which condition leads to which decision. `RunProtocol` states the law a run's log obeys,
`DecisionSoundness` that decisions lead only to lawful events, `GraphWorkerSafety` the inductive
invariant of the fleet, and `GraphWorkerTheorems`, `UnrepeatableEffects`, `RunOutcomes`, `RunEndings`,
`RunRecords`, `LogIntegrity` and `BrokenLogs` what follows. `LeasedWorkers` and `AdvancingLeases` are the
worker as a program over a changing log. `LeaseTurns` says, turn by turn, what it does and how it ends;
the program is proved to do exactly that, and only what the interleaving model does.

**Agent runs.** `AgentRuntime` is the executing program over a repository that may fail at any write;
`AgentRuns` relates it to a reference that follows the executor with exact sums, and says what every
prefix of its writes looks like; `AgentTraces` is about runs that are called again.

**Jobs.** `JobWorkers` is the fleet of job workers around one stored run, with any number of ticks under
one worker's id; `JobAttempts` is about finishing attempts, `JobOutcomes` about statuses, retries and
outputs. `JobOutputs` and `Utf8` store artifacts and logs.

**Triggers.** `Schedules` is the cron cursor under concurrent evaluators; `Conditions` the two condition
parsers and what a verdict depends on.

**Claims and encodings.** `Claims` is claim review and conflict detection; `Webhooks`, `Digests` and
`Hexadecimal` are the signed preimage and the digest's text form. `Identifiers`, `Text`, `Wrappers`
hold order, trimming, numerals and machine arithmetic.

## Where the code does not do what is expected of it

Each comes with the exact condition under which it happens and a concrete run or input that shows it.

1. A repair route may name a node that a dead worker left running; starting it makes the log
   unfoldable (`BrokenLogs.RepairCanBreakTheLog`).
2. The inbox is answered before the run's status is looked at, and a cancellation keeps the wait it
   interrupted; a signal that answers the wait of a cancelled run makes the log unfoldable
   (`BrokenLogs.SignalCanBreakTheLog`). Outside tests nothing in the repository requests a cancellation
   yet, so this needs a writer that is still to come. `LogIntegrity.RunFoldsExactlyWhen` says that 1 and
   2 are all.
3. Effect keys join names with ':', which names may contain, and a run-scoped key leaves the node out,
   so different effects can share a key (`EffectKeys.KeysCollideExactlyWhen`,
   `EffectKeys.DifferentEffectsShareKeys`).
4. The save that starts a job attempt names no owner. After a stall it can let an attempt be finished
   twice (`JobAttempts.SecondFinishExactlyWhen`, `JobAttempts.StalledSaveFinishesTwice`), a run be retried
   too often (`JobOutcomes.RetriesAreBounded`, `JobOutcomes.StalledSaveRetriesTooOften`), or a run be left
   that nobody can lease (`JobWorkers.OwnershipBreaksExactlyWhen`, `JobAttempts.StalledSaveOrphansTheRun`).
   The finish is fenced by the worker's id, which several ticks of a worker share, so comparing owners
   would not repair it (`JobAttempts.MatchingOwnerIsNotEnough`).
5. An evaluator asks for a further occurrence before it fires, so the last occurrence of a finite
   schedule never fires (`Schedules.FiresExactlyWhenNotLast`, `Schedules.SingleOccurrenceNeverFires`).
6. Conflict names replace every special character by '_', so two conflicts can share a row
   (`Claims.PairsAreRecordedExactlyWhen`, `Claims.CollidingNamesLoseAConflict`), and only the 500 most
   recently updated claims are compared (`Claims.OnlyListedClaimsAreCompared`,
   `Claims.CrowdedApprovalMissesAConflict`).
7. A stop reason the policy does not name leaves an agent run running, and the next call overwrites the
   rows of its trace (`AgentTraces.StaysRunningExactlyWhen`, `AgentTraces.SecondCallReplacesRows`,
   `AgentTraces.CalledTwice`).
8. A completed run's outputs are keyed by node, dot and port, and both names may contain dots, so one
   output can replace another (`RunRecords.CompletionReportsAllExactlyWhen`, `RunResults.OneOutputIsLost`).
9. Artifact rows are named by run and file name joined with '_', which both may contain, so artifacts of
   two runs can share a row's name (`JobOutputs.IdsCollideExactlyWhen`, `JobOutputs.TwoRunsShareAnId`);
   their objects never do (`JobOutputs.KeysAreDistinct`).
10. A resumption that the store refuses does not report a lost lease: the worker goes on to decide, and a
    run that only waits is reported as suspended (`LeaseTurns.RefusedResumptionLooksSuspended`).

The comments of `crates/runtime/src/state.rs` call a log that does not fold one no run could have
produced; 1 and 2 show runs that produce one, and the model follows the code.

## Model

| member | source | states |
|---|---|---|
| RunStates.FoldLog | crates/runtime/src/state.rs:178-310 | the one-pass fold computes the recursive meaning of a log, and refuses it with the first error |
| LogReadings.FoldReadsTheLog | crates/runtime/src/state.rs:178-444 | a folded state is read off the log: outputs of the last finish since an iteration took the node in, readings by port, failures in order, nodes still running, open claims in order, loops, the wait, the cancellation and the failure |
| LogReadings.FoldsExactlyWhen | crates/runtime/src/state.rs:178-444 | a log folds exactly when it is admitted first and no event is refused by the ones before it, each refusal said on the log alone |
| LogReadings.FirstRefusalIsTheError | crates/runtime/src/state.rs:178-444 | the first event that may not follow decides the error, whatever comes after it |
| RunStates.Without | crates/runtime/src/state.rs:321-364 | resolving an effect removes exactly the claims on it, and whether any was open shows in the length |
| Waits.Resume | crates/runtime/src/wait.rs:106-182 | a signal resumes only the wait the run is in, and is "not waiting" exactly when there is none |
| Stopping.OwedFor | crates/runtime/src/failure.rs:83-109 | nothing is owed exactly when every finalized effect was compensated or cannot be undone |
| Stopping.TimedOutNode | crates/runtime/src/failure.rs:120-146 | finds an overdue running node whenever there is one |
| DecisionCore.LoopDecision | crates/runtime/src/decide.rs:264-305 | stops only loops still running and never for a false condition; silent only when every stopped loop stopped on its condition |
| DecisionCore.NextReadyNode | crates/runtime/src/decide.rs:477-505 | yields a ready node whenever one exists |
| DecisionTable.ReadyExactlyWhen | crates/ir/src/graph.rs:328-352 | a node is ready exactly when it is idle, in an open iteration of its loop, and every other source of an edge into it is done |
| DecisionTable.LateExactlyWhen | crates/runtime/src/failure.rs:120-171 | the run or a node is late exactly when its declared time has gone by, and the first late node in order is named |
| DecisionTable.DecidesBeforeWork | crates/runtime/src/decide.rs:93-170 | what comes first for every state: the end, open claims, doubt, cancellation, waits and the start, and that a failure waits for what is owed |
| DecisionTable.DecidesWhatStandsInTheWay | crates/runtime/src/decide.rs:170-231 | a run under way decides late nodes, its own deadline, the first loop out of bounds, then failures, in that order |
| DecisionTable.FirstStandingLoop | crates/runtime/src/decide.rs:264-305 | the first loop that stopped short fails the run with its reason, and the first out of bounds is stopped for a cause it declares |
| DecisionTable.DecidesWorkInOrder | crates/runtime/src/decide.rs:377-538 | with nothing in the way, the first loop that is due decides, then the first startable node with its effect first, then completion exactly when everything finished |
| DecisionSoundness.FailuresFollowTheirRoutes | crates/runtime/src/decide.rs:309-375 | the first unresolved failure fails the run without a route or with one that rejects, is escalated, repaired, or retried while the count allows and otherwise stops its loop |
| EffectKeys.KeysCollideExactlyWhen | crates/runtime/src/effect.rs:228-239 | two keyed effects of a run share their key exactly when their declared sources and names collide, for all three sources |
| EffectKeys.PlainNamesCollideExactlyWhen | crates/runtime/src/effect.rs:228-239 | with no ':' in any name, only the same effect or equally named run-scoped effects share a key |
| EffectKeys.DifferentEffectsShareKeys | crates/runtime/src/effect.rs:228-239 | three definitions with two different effects under one key |
| RunResults.EverythingReportedExactlyWhen | crates/runtime/src/state.rs:547-563 | joined names report every output exactly when no two different outputs' names read alike |
| RunResults.OneOutputIsLost | crates/runtime/src/state.rs:547-563 | two nodes one of whose outputs is not reported |
| RunProtocol.PermittedKeepsGood | crates/runtime/src/state.rs:222-440 | every lawful event is accepted by the fold and keeps the invariant of run states |
| Loops.RetriesExactlyWhen | crates/runtime/src/loops.rs:70-106 | a retry route runs its node again exactly while the failure was reported no more often than allowed |
| DecisionSoundness.LoopsGoOnExactlyWhen | crates/runtime/src/loops.rs:108-189 | loops leave the decision to others exactly when each is within its budgets, invariants and progress, or ended on its condition |
| DecisionSoundness.DoubtComesFirst | crates/runtime/src/decide.rs:233-262 | an open claim outranks everything: it is retried, or the run halts if it must not be repeated |
| DecisionSoundness.NothingLeftMeansLoopsDone | crates/runtime/src/decide.rs:377-462 | with every node finished and nothing to decide about loops, each loop stopped because its condition went false |
| DecisionSoundness.DecisionIsSound | crates/runtime/src/decide.rs:93-231 | every decision taken in a good state meets the conditions of the events it leads to |
| RunLogs.ScanIsFold | crates/runtime/src/state.rs:178-221 | the longest foldable prefix of a log is the whole log exactly when the log folds |
| RunLogs.ProjectionAgrees | migrations/20260906120000_ir_runs.sql:133-163 | the status column computed from event kinds is the status the fold computes |
| RunTallies.FoldCountsSpending | crates/runtime/src/state.rs:321-444 | what a run has spent is the capped sum of what its log spent, whatever restarts happened |
| RunTallies.FoldMeasuresLoops | crates/runtime/src/state.rs:366-444 | a loop's last two readings and its standstill are those of the log |
| GraphWorkerSafety.StepKeepsInv | crates/graph-worker/src/runtime.rs:179-805 | every step of every worker keeps the fleet's invariant |
| GraphWorkerSafety.RunKeepsInv | crates/graph-worker/src/runtime.rs:143-805 | the invariant holds after every interleaving |
| GraphWorkerTheorems.AppendsAreFenced | crates/graph-worker/src/runtime.rs:763-805 | an append lands at the next position, under the one current lease, on exactly the log that worker last read plus its own appends |
| GraphWorkerTheorems.LogIsOrdered | crates/postgres/src/ir_runs.rs:132-197 | positions are gapless and epochs never decrease |
| GraphWorkerTheorems.FencedForever | crates/graph-worker/src/runtime.rs:365-518 | a fenced lease never asks for another node or effect, however the run goes on |
| GraphWorkerTheorems.RefusalFences | crates/graph-worker/src/runtime.rs:717-791 | a refused append, of an event or of an answer to a signal, fences its lease |
| GraphWorkerTheorems.ExecutorCallsAreWrittenAhead | crates/graph-worker/src/runtime.rs:365-472 | every node or effect request has its start or its claim, with the same attempt and key, in the log under the same epoch |
| GraphWorkerTheorems.KeyedEffectHasOneKey | crates/graph-worker/src/runtime.rs:260-277 | across all crashes and takeovers every request for a keyed effect presents the effect's one key |
| UnrepeatableEffects.UnrepeatableEffectLandsAtMostOnce | crates/graph-worker/src/runtime.rs:428-517 | an effect that must not be repeated is requested at most once without an explicit refusal, in every interleaving |
| RunOutcomes.LogObeysTheLaw | crates/graph-worker/src/runtime.rs:235-345 | each event of every log that folds was lawful in the state the events before it fold to |
| RunEndings.RunsEndClean | crates/runtime/src/decide.rs:93-231 | said on the log: a cancelled run was asked to and undid every reversible effect by its declared route; a failed one did too, or failed over the newest it could not undo; a completed one finished every node, ended every loop on its condition and left nothing in doubt |
| RunEndings.UndoingIsNewestFirst | crates/runtime/src/failure.rs:83-109 | what is undone was finalized, is undone by its declared route, and everything reversible finalized after it is undone already |
| RunOutcomes.EffectsAreFinalizedOnce | crates/runtime/src/state.rs:333-351 | no log finalizes an effect twice, and the fold's order of finalizations is the log's |
| RunOutcomes.LoopsAreBounded | crates/runtime/src/decide.rs:391-462 | no restart lets a loop start more iterations than it declared |
| RunOutcomes.IterationsAreNumbered | crates/runtime/src/decide.rs:391-462 | iterations of a loop are numbered 0, 1, 2, ... in the log, each closed before the next opens |
| RunOutcomes.NodesStartInOrder | crates/runtime/src/decide.rs:477-538 | a node starts only when idle, inside an open iteration of its loop, with the source of every edge into it finished and the loops they leave stopped, or because a Retry or Repair route of the failed node's running loop names it, with attempts left |
| RunOutcomes.EndsHaveCauses | crates/runtime/src/decide.rs:264-375 | in every log a loop is stopped, a run suspended and a run failed only for a cause the definition declares and the state before shows |
| RunOutcomes.LoopsFollowTheirCondition | crates/runtime/src/decide.rs:391-462 | a loop goes round again only when its condition was reported true, and ends on it only when false |
| RunOutcomes.StoppedLoopsStayStopped | crates/runtime/src/decide.rs:264-305 | after a loop stops no iteration of it starts or ends and it does not stop again |
| RunOutcomes.EffectsAreUndoneOnce | crates/runtime/src/failure.rs:83-109 | no log records that an effect was undone twice |
| RunRecords.RecordsAreReadFromTheLog | crates/graph-worker/src/runtime.rs:525-642 | iterations reset exactly their region, and closing records hold the outputs and readings that events before them report |
| RunRecords.IterationsAreTimedByTheLog | crates/graph-worker/src/runtime.rs:620-642 | a closed iteration reports the time from its opening event to its closing event, at least 0, whichever workers wrote them |
| RunRecords.CompletionReportsAllExactlyWhen | crates/graph-worker/src/runtime.rs:326-335 | a completed run reports only outputs its log records, the last node in order keeps a key, and nothing is lost exactly when no two different outputs clash |
| RunOutcomes.NoClaimAfterFinalization | migrations/20260906160000_ir_effect_abandoned.sql:18-40 | the ledger's refusal of a claim on a finalized effect is never met |
| LogIntegrity.LogBreaksExactlyWhen | crates/graph-worker/src/runtime.rs:179-400 | a step makes a folding log unfoldable exactly when it starts a running node or resumes an ended run |
| LogIntegrity.RunFoldsExactlyWhen | crates/graph-worker/src/runtime.rs:179-756 | a log folds exactly when no step of its interleaving was one of those two |
| LogIntegrity.BrokenLogOnlyWindsDown | crates/graph-worker/src/runtime.rs:796-805 | after the breaking event a log collects only the endings of nodes under way and cancellation requests |
| BrokenLogs.RepairCanBreakTheLog | crates/runtime/src/decide.rs:309-375 | a concrete run in which a repair route starts a running node |
| BrokenLogs.SignalCanBreakTheLog | crates/graph-worker/src/runtime.rs:703-756 | a concrete run in which a signal resumes a cancelled run |
| LeasedWorkers.Lease.AppendRecorded | crates/graph-worker/src/runtime.rs:772-794 | an append takes the next position under the lease's epoch, or is refused and changes nothing |
| LeasedWorkers.Lease.RunNode | crates/graph-worker/src/runtime.rs:350-401 | adds a prefix of start and ending; asks the executor only once the start is recorded |
| LeasedWorkers.Lease.PerformEffect | crates/graph-worker/src/runtime.rs:408-520 | adds a contiguous prefix of start, claim, then finalization and finish or abandonment and failure; asks the far side only once the claim is recorded |
| LeasedWorkers.Lease.Compensate | crates/graph-worker/src/runtime.rs:645-700 | asks first and records only the outcome |
| LeasedWorkers.Lease.AnswerSignals | crates/graph-worker/src/runtime.rs:703-756 | not waiting consumes nothing; waiting consumes all, resumes once at the recorded position and refuses the rest; a refused resumption consumes only what came before |
| LeasedWorkers.FirstAnswer | crates/graph-worker/src/runtime.rs:703-756 | the first signal that ends the wait |
| LeasedWorkers.ReadInvariants | crates/graph-worker/src/runtime.rs:581-602 | reads every declared invariant or reports that one was not evaluated |
| LeasedWorkers.ProgramFollowsPhases | crates/graph-worker/src/runtime.rs:350-520 | undisturbed, the interleaving model's worker appends what the program writes |
| AdvancingLeases.EffectMatches | crates/graph-worker/src/runtime.rs:408-520 | wherever an effect's script is cut off, the interleaving model reaches the same log and requests |
| LeaseTurns.AnswerComesFirst | crates/graph-worker/src/runtime.rs:184-192 | a waiting run with an answer in its inbox resumes on the first such signal before anything is decided; that signal is consumed with its position, the others as refused |
| LeaseTurns.DecisionIsCarriedOut | crates/graph-worker/src/runtime.rs:235-345 | otherwise a decision the definition can carry out makes the log or the requests grow by its first event or request, named for each decision |
| LeaseTurns.PlaysExactlyWhen | crates/graph-worker/src/runtime.rs:350-670 | a decision cannot be carried out exactly for want of a node, an effect, a known key source, a loop or a reported reading |
| LeaseTurns.TurnEndsExactlyWhen | crates/graph-worker/src/runtime.rs:179-232 | the exact condition of each progress: stuck, lease lost, ended, suspended, still running |
| LeaseTurns.LeaseEndsExactlyWhen | crates/graph-worker/src/runtime.rs:179-232 | a lease reports a progress exactly when the first turn that puts the run down does so that way |
| LeaseTurns.LeaseSpendsPatience | crates/graph-worker/src/runtime.rs:763-805 | over a whole lease every accepted append is one event of the log at the next position, nothing is taken back, and each turn makes at most one request |
| LeaseTurns.RefusedResumptionLooksSuspended | crates/graph-worker/src/runtime.rs:717-735 | a refused resumption is reported as a lost lease exactly when the decision that follows can be carried out |
| AdvancingLeases.CarryOut | crates/graph-worker/src/runtime.rs:235-345 | leaves exactly the log, requests and ownership the decision calls for, by steps of the interleaving model |
| AdvancingLeases.Advance | crates/graph-worker/src/runtime.rs:184-229 | one turn of the program is one turn of the reference: inbox, decision, heartbeat and progress |
| AdvancingLeases.AdvanceLeased | crates/graph-worker/src/runtime.rs:179-232 | a whole lease leaves the log, requests, inbox and progress of its turns, and is a sequence of steps of the interleaving model |
| AgentRuntime.ExecuteNode | crates/application/src/agent_runtime.rs:239-276 | writes the node's part of the transcript up to the first refused write |
| AgentRuntime.ExecuteRun | crates/application/src/agent_runtime.rs:168-221 | writes exactly the transcript, up to the first refused write, and returns its record only when all of it was written; refuses another agent's run and a succeeded, failed, cancelled or stopped one, exactly, and then writes nothing |
| AgentRuns.CappedDecidesExactly | crates/application/src/agent_runtime.rs:261-262 | saturating counters decide every limit as exact sums would |
| AgentRuns.StopsAtTheFirstObstacle | crates/application/src/agent_runtime.rs:168-299 | a call ends at the first entry with an exhausted step limit, a failure, a stop or an exact total at its limit, with that ending and record; otherwise it completes |
| AgentRuns.WritesExactly | crates/application/src/agent_runtime.rs:168-299 | everything a call writes, event by event and save by save, up to and including its first obstacle, from the reference |
| AgentRuns.CompletesExactlyWhen | crates/application/src/agent_runtime.rs:168-221 | success by completion exactly when all present nodes are clean, no entry met the step limit and the exact totals stayed below |
| AgentRuns.TotalsBeforeTheLastEntry | crates/application/src/agent_runtime.rs:278-299 | the exact totals before the last entry are below both limits |
| AgentRuns.StepsAreBounded | crates/application/src/agent_runtime.rs:223-276 | at most `max_steps` executor calls, and the version grows by the completed nodes |
| AgentRuns.EveryCrashPoint | crates/application/src/agent_runtime.rs:173-338 | at every prefix of the writes: gapless trace numbers, events that tell the version and totals so far, terminal saves last and after their closing event, completed nodes ahead of the saved version by at most one; the last write is the returned record |
| AgentTraces.StaysRunningExactlyWhen | crates/application/src/agent_runtime.rs:456-472 | a call hands a run back running exactly when the first entry to stop it asks, within the step limit, for a reason the policy does not name |
| AgentTraces.SecondCallReplacesRows | crates/postgres/src/agents.rs:297-320 | wherever a second call is cut off, the first call's events survive exactly from the second's own count on |
| AgentTraces.EveryCallLeavesEvents | crates/application/src/agent_runtime.rs:168-221 | every call writes at least one event, so a second one always replaces the first row |
| AgentTraces.CalledTwice | crates/application/src/agent_runtime.rs:456-472 | a run handed back running by an unnamed safety stop, and the mixed trace its second call leaves |
| JobAttempts.SecondFinishExactlyWhen | crates/postgres/src/repositories.rs:14-52 | a step makes a second finish of an attempt possible exactly when it restarts a finished attempt on a held row |
| JobAttempts.RestartFinishesTwiceExactlyWhen | crates/application/src/execution.rs:253-257 | a save that restarts a finished attempt can be continued to a second finish exactly when the row has an owner; without one nothing is ever finished again |
| JobAttempts.WithoutAdoptionExactlyWhen | crates/application/src/execution.rs:219-358 | where runs are not adopted, it can exactly when some tick under way has the owner's name and the restarted attempt |
| JobAttempts.AttemptsFinishOnceExactlyWhen | crates/application/src/execution.rs:219-358 | all along an interleaving no attempt is finished twice, nor can be without another save, exactly when no step is such a restart |
| JobAttempts.TimelySavesFinishOnce | crates/application/src/execution.rs:253-257 | saves that land under their tick's own lease suffice for that |
| JobAttempts.StalledSaveFinishesTwice | crates/application/src/execution.rs:253-257 | workers of different names finish attempt 1 twice |
| JobAttempts.MatchingOwnerIsNotEnough | crates/worker/src/runtime.rs:497-535 | ticks of one worker finish attempt 1 twice, without adoption, although every save found its worker's name on a leased row |
| JobAttempts.StalledSaveOrphansTheRun | crates/application/src/execution.rs:253-257 | a stalled save leaves a running row without a lease |
| JobWorkers.OwnershipBreaksExactlyWhen | crates/postgres/src/repositories.rs:32-39 | an active row loses its owner exactly when a save lands on an unleased row |
| JobWorkers.OrphansStay | crates/postgres/src/job_runs.rs:148-218 | short of a cancellation, a running row without a lease is never leased, requeued or finished |
| JobOutcomes.OnlyTheOwnerFinishes | crates/postgres/src/job_runs.rs:288-352 | an attempt is finished only by the lease owner, for the attempt the row is on |
| JobOutcomes.HeartbeatsDecide | crates/application/src/execution.rs:403-473 | a tick goes on exactly while its worker holds the leased or running row; otherwise it stops and changes nothing |
| JobOutcomes.LeasesAndRequeuesExactlyWhen | crates/postgres/src/job_runs.rs:148-218 | when a run is leased, adopted and requeued, with the row and tick each leaves |
| JobOutcomes.SavesAndFinishesExactlyWhen | crates/application/src/execution.rs:253-358 | the save that starts an attempt lands exactly on a row that has not ended; a finish lands exactly for the holder of a running row on that attempt, with the status its report calls for |
| JobOutcomes.ReturnsAndStoresExactlyWhen | crates/application/src/execution.rs:258-298 | a runner's return counts exactly for a tick that executes, and outputs are stored exactly by one that holds a renewed lease |
| JobWorkers.TerminalForever | crates/postgres/src/repositories.rs:38-39 | a terminal row never changes |
| JobOutcomes.FinalsReportOutcomes | crates/application/src/execution.rs:299-338 | each stored status stands for exactly one kind of outcome, and a terminal one ends the run |
| JobOutcomes.RejectionIsFinal | crates/application/src/execution.rs:299-338 | a run one of whose artifacts is refused ends failed and is never tried again, whatever the runner reported |
| JobOutcomes.RetriesAreBounded | crates/application/src/execution.rs:628-643 | in every interleaving a run is rescheduled at most one time less than its attempts, plus once for each restart of a finished attempt on a held row |
| JobOutcomes.StalledSaveRetriesTooOften | crates/application/src/execution.rs:628-643 | two attempts allowed and two retries scheduled, after one such restart |
| JobOutcomes.OutputsAreFenced | crates/application/src/execution.rs:403-473 | outputs are stored only after a heartbeat that followed the runner's return |
| JobOutputs.AcceptedExactlyWhen | crates/core/src/domain/artifact.rs:67-105 | an artifact is accepted exactly when its name is one plain non-blank file name and its type is not blank |
| JobOutputs.RefusedExactlyWhen | crates/core/src/domain/artifact.rs:67-105 | which reason a refused artifact gets, for each reason; a blank name is always refused as a blank key |
| JobOutputs.FirstRejected | crates/application/src/execution.rs:572-622 | the first artifact that is refused |
| JobOutputs.Stores.PersistArtifacts | crates/application/src/execution.rs:572-622 | stores exactly the artifacts before the first refused one, each object before its metadata, and reports that refusal; fails exactly when the stores accept fewer writes, with the error of the one that refused and what was written until then |
| JobOutputs.KeysAreDistinct | crates/storage/src/object_store.rs:251-258 | accepted artifacts share an object key exactly when run and name are the same |
| JobOutputs.IdsCollideExactlyWhen | crates/application/src/execution.rs:572-622 | two artifact rows share their name exactly when the '_' falls differently in run and file name |
| JobOutputs.TwoRunsShareAnId | crates/application/src/execution.rs:572-622 | two runs whose accepted artifacts share a row's name |
| JobOutputs.Stores.PersistLog | crates/application/src/execution.rs:505-553 | a log is whole inline or whole in the object store, or the refused write is named and the earlier ones stay; never refused as empty |
| JobOutputs.HeartbeatSeconds | crates/application/src/execution.rs:395-401 | the longest whole interval within a third of the lease, or one second; none for a lease that is not positive |
| Utf8.EncodeScalar | crates/application/src/execution.rs:555-564 | one to four bytes, the first and only the first not a continuation |
| Utf8.DecodeUndoesEncode | crates/application/src/execution.rs:555-564 | an encoded character stands for its code point |
| Utf8.FittingIsLongest | crates/application/src/execution.rs:555-564 | the characters kept fit, one more would not, and at most three bytes are given up |
| Utf8.Truncate | crates/application/src/execution.rs:555-564 | the loop stops at exactly those characters |
| Schedules.FiredIsAnInitialSegment | crates/evaluator/src/schedule.rs:35-84 | with any evaluators the fired instants are exactly the occurrences from the first cursor to the present one: none skipped, twice or early |
| Schedules.LastOccurrenceNeverFires | crates/evaluator/src/schedule.rs:71-79 | an occurrence with none after it is never fired |
| Schedules.SingleOccurrenceNeverFires | crates/evaluator/src/schedule.rs:52-79 | a schedule with one occurrence never fires |
| Schedules.FiresExactlyWhenNotLast | crates/evaluator/src/schedule.rs:52-79 | an occurrence can be fired exactly when another follows |
| Schedules.TickFiresExactlyWhen | crates/evaluator/src/schedule.rs:52-84 | a tick fires exactly when the cursor is due by both clocks and an occurrence is still to come |
| Schedules.TickReportsExactlyWhen | crates/evaluator/src/schedule.rs:35-84 | a tick is an error exactly when the schedule is missing or has no occurrence after now or after a due cursor |
| Schedules.TickIsThreeSteps | crates/evaluator/src/schedule.rs:35-84 | an undisturbed tick is three steps of the concurrent model |
| Schedules.CursorStore.ProduceOne | crates/evaluator/src/schedule.rs:35-84 | one trigger's tick: its cursor, the event with its instant, and no other cursor |
| Schedules.CursorStore.ProduceDueEvents | crates/evaluator/src/schedule.rs:11-33 | every trigger is ticked whatever happens to the others; exactly their events, in order, are enqueued and counted |
| Conditions.ParsersAgree | crates/evaluator/src/service.rs:167-193 | the evaluator accepts exactly what the API accepts without empty groups, as the same tree |
| Conditions.StoredConditionsParse | crates/api/src/automations.rs:605-642 | what the API stores the evaluator reads back unchanged |
| Conditions.ReferencesExactlyWhen | crates/core/src/domain/automation.rs:338-352 | references are valid exactly when no group is empty and every mentioned trigger is known |
| Conditions.ParsingUndoesWriting | crates/evaluator/src/service.rs:167-193 | both parsers read a written condition back at every depth |
| Conditions.HoldsExactlyWhenCovered | crates/core/src/domain/automation.rs:302-312 | a condition holds exactly when one of its ways, a choice in every disjunction, is satisfied in full |
| Conditions.EvaluateIsMonotone | crates/core/src/domain/automation.rs:302-312 | more satisfied triggers never falsify a condition |
| Conditions.OnlyMentionsMatter | crates/core/src/domain/automation.rs:302-312 | only mentioned triggers matter |
| Conditions.ValidConditionsAreProper | crates/core/src/domain/automation.rs:319-330 | a condition without empty groups needs an event, and all its triggers satisfy it |
| Conditions.EmptyConjunctionHoldsOnNothing | crates/api/src/automations.rs:619-642 | the API's parser alone admits a condition that holds on nothing |
| Conditions.VerdictExactlyWhen | crates/evaluator/src/service.rs:83-140 | true exactly when there are events of one group, their enabled names are not blank, the condition parses, the automation runs, and some way has each of its names enabled and carried; and the condition of false and of each error |
| Conditions.MembersCountInOrder | crates/api/src/automations.rs:605-642 | which member of a condition object is read when several are there |
| Conditions.VerdictIgnoresOrder | crates/evaluator/src/service.rs:83-140 | order and repetition of events do not change a verdict or an error |
| Conditions.VerdictIsMonotone | crates/evaluator/src/service.rs:115-131 | a satisfied group stays satisfied when events of the group join |
| Claims.MemoryStore.ReviewClaim | crates/api/src/ingestion.rs:381-423 | only an existing candidate is reviewed; approval records its conflicts, other outcomes only the status |
| Claims.MemoryStore.DetectConflicts | crates/api/src/ingestion.rs:425-476 | records every disagreement with a listed active claim and changes nothing else |
| Claims.BatchIsRecorded | crates/api/src/ingestion.rs:381-476 | a batch leaves the statuses, names and rows its pairs call for, whatever the order |
| Claims.PairsAreRecordedExactlyWhen | crates/api/src/ingestion.rs:425-502 | every disagreeing active pair touched by the batch has its own record exactly when no two of them share a name |
| Claims.ApprovalOrderDoesNotMatter | crates/api/src/ingestion.rs:381-502 | with distinct names the conflicts do not depend on the order of approval |
| Claims.ConflictNamesBothClaims | crates/api/src/ingestion.rs:442-469 | a record holds its two claims in order, whichever was reviewed last, and the subject's canonical entity |
| Claims.CanonicalOf | crates/api/src/ingestion.rs:478-496 | the canonical entity is that of the subject's first resolution that was not rejected |
| Claims.CollidingNamesLoseAConflict | crates/api/src/ingestion.rs:690-701 | three claims whose batch always loses a conflict |
| Claims.OnlyListedClaimsAreCompared | crates/postgres/src/memory.rs:350-372 | an approval records a new conflict exactly with a listed claim |
| Claims.CrowdedApprovalMissesAConflict | crates/api/src/ingestion.rs:425-476 | with 500 or more claims updated in between, an approval misses an active disagreement |
| Webhooks.Mac.PreimageInto | crates/api/src/webhooks.rs:196-210 | the loop feeds the six frames in order |
| Webhooks.PreimageLayout | crates/api/src/webhooks.rs:196-210 | the frames stand in the order automation, trigger, delivery, correlation, timestamp, body |
| Webhooks.FrameEndsItself | crates/api/src/webhooks.rs:192-210 | a framed field says where it ends, whatever follows |
| Webhooks.FramesAreInjective | crates/api/src/webhooks.rs:192-210 | equal framings are equal lists of fields |
| Webhooks.PreimageIsInjective | crates/api/src/webhooks.rs:192-211 | requests with equal preimages agree on all six fields |
| Webhooks.DecodeUndoesPrint | crates/api/src/webhooks.rs:230-246 | decoding a printed signature gives it back |
| Webhooks.IsPrintedExactlyWhen | crates/api/src/webhooks.rs:230-238 | an accepted text is the printed one exactly when it is all lower-case digits |
| Hexadecimal.Print | crates/api/src/webhooks.rs:240-246 | the printing loop writes each byte's two digits at twice its index |
| Digests.Display | crates/ir/src/digest.rs:50-58 | prints the prefix and the bytes |
| Digests.DecodePair | crates/ir/src/digest.rs:84-95 | accepts exactly the two-digit form of a byte, and its arithmetic stays in a byte |
| Digests.Parse | crates/ir/src/digest.rs:60-82 | accepts exactly the printed forms and gives back what was printed, with the error each other text gets |
| Digests.PrintedIsInjective | crates/ir/src/digest.rs:50-58 | equal texts are equal digests |

## Left out

- Storage failures other than a refused write, the network, clocks, tracing and metrics: outcomes are parameters or steps.
- HTTP handlers, authorization, the dashboard, the command line, certificates, the kernel checker and IR admission. What results about finished runs need of admission is `Definition.Admitted`.
- `outputs_digest` and other hashes: a digest stands for the content it digests; SHA-256 and HMAC are not modelled.
- Several runs at once: leases, pools and cursors of different runs do not interact in the modelled code. Pool limits and the choice of the next run are left to the interleaving.
- The inbox's durability, wake-up times and lease seconds: a graph run that is not terminal may be leased at any time, which allows more interleavings than the store does.
- Outside tests nothing in the repository appends a cancellation request; in the model a worker that holds a lease does.
- LeasedWorkers.Lease.Compensate: a compensation is not claimed before it is asked for, so it may be asked for more than once; only its recorded outcome is fixed.
- AgentRuntime.ExecuteRun: the version, step and sequence counters are unbounded; `max_seconds` is not enforced by the code.
- Digests.Parse: only ASCII text, since the code slices by byte offset.
- Webhooks.DecodeUndoesPrint: only ASCII text; the decoder also accepts upper case and a leading '+', so it is an inverse in one direction.
- Claims.ApprovalOrderDoesNotMatter: at most 500 claims, fixed entity resolutions and no other writer between approvals.
- Conditions.ParsersAgree: a JSON object is reduced to the three members the parsers read.
- SQL and custom triggers, retry delays, deterministic run ids, input artifacts and script bundles: short straight-line code beside the modelled protocols.
