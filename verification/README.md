# Greenrun: the scheduler, the verdict and the records of a run

Greenrun runs the jobs of CI workflows on one machine. Jobs of all workflows compete for weighted
slots in one queue, the first failure stops the run, and what the concurrent run left behind is
turned into statuses, logs, steps, statistics and published results. This project models that logic
in Dafny and proves what it promises.

| file | what it models |
|---|---|
| `model.dfy` | the result model: jobs, steps, workflows, statuses |
| `ranking.dfy`, `queue.dfy` | the queue seen from outside: rank order, ready, in flight, completed, the greedy dispatch pass |
| `scheduling.dfy` | `runQueue` itself, a class with the loop's variables as fields, refined to `Queue` |
| `completeness.dfy`, `runs.dfy`, `makespan.dfy` | whole runs: what completes, in which order, who waits and why, what a stop leaves, how long a run takes |
| `protocol.dfy` | the fail-fast protocol of job goroutines, log collectors, user and event loop as a state machine |
| `blocks.dfy`, `schedule.dfy` | dependency blocking, and the wiring of pending jobs into nodes |
| `outcomes.dfy`, `verdict.dfy`, `honesty.dfy`, `filing.dfy`, `falsegreen.dfy` | mapping results back, the verdict, and when a green verdict can be trusted |
| `mask.dfy` | the secret masker |
| `collector.dfy`, `collected.dfy`, `firing.dfy`, `steporder.dfy`, `planned.dfy`, `lognames.dfy`, `aliases.dfy` | the log collector: routing, buffers, steps, log files |
| `history.dfy`, `yields.dfy` | run statistics, the ranking they feed, and what both mean |
| `triggers.dfy` | trigger filters |
| `publish.dfy` | publishing results in a store several processes share, with crashes |

## How the parts are modelled

- `runQueue` is the class `QueueLoop`: its maps, lists, counters and result array change in place, method
  by method, and `Valid()` ties them to a value of `Queue.State`. Each method ends in the state that the
  corresponding function of `Queue` gives. Runs are sequences of completions chosen by the environment.
- The protocol takes one atomic action at a time, in any order: the user cancels, the context becomes
  cancelled, a collector reports a failure under any name, a node returns, the event loop receives or
  makes a pass. Between recording the first failure and cancelling the context, and between a node's
  return and its reception, anything may happen.
- `Fire` has two actions, masking without the collector's lock and writing under it. The class
  `LogCollector` has a method for each; the state machine in `firing.dfy` interleaves the actions of
  any number of entries, and those of the collectors of other workflows.
- act is an oracle: a node ends with any result in {unset, success, failure, skipped} and any error.
- Jobs of a workflow are an `array<Job>` wherever the source updates them through pointers.
- A function that a method and the theorems share is also described without its name, in terms of the data it
  reads: the weights of the nodes in flight, the jobs and flags behind a status, the patterns behind a trigger.
- Publishing is a state machine over file system operations, any number of runs interleaved, with a
  partial write and a crash possible between any two; the class `Disk` runs one process's operations
  in place and takes exactly its steps.

## Where the code does not do what it says

- **A run can be green although a job failed.** When two jobs call the same reusable workflow, its jobs
  have no alias and no fallback, and a failure in them is recorded under their own name. It stops the
  run, no job of the model has that name, the caller that failed reads as cancelled, and the status is
  `pass`. `FalseGreenHappens` is such a run with the log entry that causes it. `FalseGreenExactly` says
  for all runs when it happens, and `NamedExactly` says it in terms of the entry that made the record:
  it can be traced to a job of the schedule, and that job's node ended with act result failure or unset.
  `NoFalseGreen` and `GreenFromEntries` are the guarantees that remain.
- **Ambiguous reusable jobs.** The alias of a job claimed by several callers is meant to be dropped. It is
  dropped only if the number of claimants is even (`AmbiguityRecognised`, `ThreeClaimants`).
- **Jobs can share a log file.** The file name keeps nothing but the words of the workflow ID and the job
  ID, so `a_b` and `a-b`, or job `b-c` of `a` and job `c` of `a-b`, overwrite each other's log
  (`JobsShareLogExactly`, `DistinctJobsShareLogs`, `LogFileHolds`).
- **An entry can be overtaken.** The collector reads the clock and masks before it takes its lock. So a line
  may show a secret that is held when it is written, exactly if the secret was learnt in between and
  occurs in the message as masked before (`ShowsHeldExactly`); and a job or a step may end before it
  starts, exactly if one of its entries is older than its first (`JobForwardExactly`,
  `StepForwardExactly`). `OvertakenEntry` is a run with both.
- **Secrets with stars.** The mask is itself three stars. A secret is hidden in every text exactly if it is
  *solid*: it has no star at either end and no three in a row (`HiddenExactly`, `HiddenByAllExactly`). A
  solid secret is hidden whatever else is held (`MaskingComplete`); for any other there is a text that
  still shows it (`LeakShows`).

## Hypotheses

- (workflow ID, job ID) pairs are distinct where it says so: job IDs within a workflow, and workflow IDs in
  `AtMostOneFail`. Two files that differ only in `.yml` and `.yaml` share a workflow ID.
- Untriggered workflows have no pending jobs, as planning leaves them.
- `NoFalseGreen` and `FalseGreenExactly` take plans without needs cycles.
- Run IDs in `publish.dfy` are distinct and contain no white space.
- Weights are what `jobWeight` gives, or any weights where a result does not need more; ranks are exact reals.

## Model

| member | source | states |
|---|---|---|
| Ranking.StableSortIsStablyRanked | internal/engine/scheduler.go:124-128 | the sorted ready list is a permutation in descending rank, and nodes of equal rank keep their order |
| Ranking.StableSortUnique | internal/engine/scheduler.go:124-128 | that promise leaves exactly one list, so the dispatch order is determined |
| Ranking.TiesKeepOrder | internal/engine/scheduler.go:124-128 | of two nodes of equal rank, the one that comes first in the sorted list came first before |
| Queue.GreedyInv | internal/engine/scheduler.go:73-91 | a dispatch pass keeps slots conserved and nodes disjoint, completes nothing, only adds to what was dispatched, and ends when no ready node fits |
| Queue.CompleteInv | internal/engine/scheduler.go:96-118 | a completion keeps: ready, in flight and completed are disjoint, and together exactly the nodes whose needs have all completed |
| Scheduling.After | internal/engine/scheduler.go:94-120 | in every state a run can reach the queue invariant holds: slots within the pool, rank order, release exactly when needs are met |
| Scheduling.ReachedIsNewlyReady | internal/engine/scheduler.go:108-115 | counting down along the dependents list, duplicates included, finds exactly the nodes the completion releases, in index order |
| Scheduling.PassStep | internal/engine/scheduler.go:73-91 | free slots only shrink in a pass: a node passed over does not fit later, so one forward scan equals repeatedly picking the first that fits |
| Scheduling.QueueLoop.constructor | internal/engine/scheduler.go:40-65 | the loop starts with all slots free and exactly the nodes without needs ready, in rank order |
| Scheduling.QueueLoop.CountNeeds | internal/engine/scheduler.go:48-60 | every counter is the number of outstanding listings, every dependents list holds one entry per listing, the roots are sorted |
| Scheduling.QueueLoop.SortByRank | internal/engine/scheduler.go:124-128 | the in-place sort yields the stable descending order |
| Scheduling.QueueLoop.DispatchPass | internal/engine/scheduler.go:67-92 | the scan with backfilling launches exactly what the greedy specification launches, and nothing if the pass is stopped |
| Scheduling.QueueLoop.TryLaunch | internal/engine/scheduler.go:74-90 | a node no wider than the pool starts iff its weight fits the free slots, a wider one iff all slots are free; exactly those slots are taken |
| Scheduling.QueueLoop.Receive | internal/engine/scheduler.go:96-118 | a completion returns the slots the node took, records its result, and releases and sorts exactly what it makes ready |
| Scheduling.QueueLoop.FreeSlots | internal/engine/scheduler.go:67-97 | the free slots are the pool less the weights of the nodes in flight, a node wider than the pool counting for all of it, and the running counter is their number |
| Scheduling.QueueLoop.Release | internal/engine/scheduler.go:108-115 | all counters drop by the listings of the completed node and exactly the newly released nodes are appended |
| Scheduling.RunQueue | internal/engine/scheduler.go:39-122 | for any completion order, outcomes and moment of cancellation the loop terminates with the results of a legal run that has drained; a dispatched node's needs were all dispatched, and a node that was not has no failure and no error |
| Completeness.RunComplete | internal/engine/scheduler.go:48-121 | without a stop the nodes that completed are exactly those from which no needs chain reaches a cycle, whatever the weights |
| Completeness.RunTopological | internal/engine/scheduler.go:67-121 | each node completes at most once and only after all its needs |
| Completeness.StoppedDrains | internal/engine/scheduler.go:37-38 | once a pass is stopped by a failure in fail-fast mode or by the context, nothing is dispatched any more |
| Completeness.IdlePassDrains | internal/engine/scheduler.go:74-82 | over an idle pool a pass leaves nothing ready, even a node wider than the pool |
| Completeness.StuckReachesCycle | internal/engine/scheduler.go:95-121 | a node left behind by an idle queue has a needs chain that comes back to itself |
| Runs.SlotsNeverExceeded | internal/engine/scheduler.go:73-90 | at no time do the weights of the nodes in flight, one wider than the pool counting for the whole pool, exceed the slots |
| Runs.WaitingDoesNotFit | internal/engine/scheduler.go:73-91 | after a pass that was not stopped, each ready node's own weight exceeds the slots left; a node wider than the pool waits only while something runs |
| Runs.LowerRanksOnlyBackfill | internal/engine/scheduler.go:71-91 | no priority is inverted: a node left waiting does not fit beside what was in flight and what the pass launched that ranks at least as high |
| Runs.StartOrder | internal/engine/scheduler.go:60-65 | the list starts with exactly the nodes without needs, by descending rank, and in schedule order among equal ranks |
| Runs.CompleteOrder | internal/engine/scheduler.go:108-117 | after a completion the list is in the order of descending rank and, among equal ranks, of release, nodes released together in schedule order |
| Runs.NeedsComeFirst | internal/engine/scheduler.go:108-117 | a node in flight has not been received, and each of its needs has |
| Runs.NothingStartsAfterStop | internal/engine/scheduler.go:68-71 | after a failure received in fail-fast mode, or a completion at which the context was cancelled, nothing is started any more |
| Runs.NothingStartsWhenCancelled | internal/engine/scheduler.go:68-71 | a run whose context is cancelled before the first pass starts nothing |
| Runs.ResultsCarryOutcomes | internal/engine/scheduler.go:96-107 | the result of a node carries the failure and the error that were received for it, and a node that was not received has neither |
| Runs.ResultsComplete | internal/engine/scheduler.go:48-121 | without a stop a node's result says it was dispatched iff no chain of its needs comes back to itself |
| Makespan.TimedRunIsRun | internal/engine/scheduler.go:67-121 | a timed run is an unstopped run of the queue: the clock only adds times |
| Makespan.CriticalChain | internal/engine/scheduler.go:71-91 | up to the start of a node, time is spent on one chain of needs or while at least slots - widest + 1 slots are busy |
| Makespan.MakespanBound | internal/engine/scheduler.go:71-91 | (slots - widest + 1) * T <= total weighted work + (slots - widest + 1) * longest needs chain |
| Protocol.FailureState.RecordFailure | internal/engine/engine.go:88-98 | only the first failure is kept, and exactly its recorder learns that it was first |
| Protocol.ReachedInv | internal/engine/engine.go:78-104 | in every reachable state of every interleaving the joint invariant of queue, context, record and node reports holds |
| Protocol.RecordKept | internal/engine/engine.go:88-104 | the first record never changes and raised flags stay raised |
| Protocol.UndispatchedExplained | internal/engine/engine.go:167-181 | at return every node has completed or is explained by a recorded failure in fail-fast mode, the user's cancellation or a needs cycle |
| Protocol.QueueRuns | internal/engine/engine.go:167-169 | every interleaving drives the event loop through a legal run of the queue in which cancellation is sticky |
| Protocol.StepRecords | internal/engine/engine.go:88-98 | exactly the first report of a collector or the first failing node is put on record, under the workflow and job it names |
| Protocol.ReturnedResults | internal/engine/engine.go:167-181 | at return the result of each node is the failure and the error its goroutine ended with, and empty for a node that was never dispatched |
| Protocol.CancelOwed | internal/engine/engine.go:223-227 | the run may be cancelled exactly once the user has cancelled it, or a failure is on record in fail-fast mode |
| Blocks.StableBlocks | internal/engine/engine.go:657-676 | once stable, exactly the pending jobs that reach a non-pending job through needs are blocked, each on a needed job that is not pending, with a fidelity from such a chain's end |
| Blocks.EveryJobAfterBlocking | internal/engine/engine.go:657-676 | a blocked job says `dependency <needed job> is <its status>` of a needed job that is not pending, and has the fidelity of that job and of the end of a chain of needs; every other job is as it was |
| Blocks.TryBlock | internal/engine/engine.go:664-673 | the job is blocked iff one of its needs in the workflow is not pending, with the reason and fidelity of the first such need in its list, and no other job changes |
| Blocks.BlockPass | internal/engine/engine.go:658-675 | a pass in any order either changes nothing and proves stability or lowers the number of pending jobs |
| Blocks.MarkWorkflow | internal/engine/engine.go:651-676 | the loop terminates and blocks exactly the doomed jobs, for every map iteration order |
| Blocks.MarkDependencyBlocks | internal/engine/engine.go:650-677 | every workflow is blocked by itself alone |
| Schedule.JobWeight | internal/engine/engine.go:538-557 | the weight is the largest number of slots the matrix, the declared parallelism and the pool allow, and one if there is none or no resolvable matrix |
| Schedule.ScheduleFaithful | internal/engine/engine.go:196-275 | one node for each pending job of each triggered workflow, wired to exactly the nodes of its workflow whose jobs it needs |
| Schedule.ScheduleInPlanOrder | internal/engine/engine.go:199-260 | nodes stand in the order of their workflows and, within one, of their jobs |
| Schedule.ScheduleValid | internal/engine/engine.go:261-272 | every need index names a node |
| Schedule.BlockingAndWiringAgree | internal/engine/engine.go:261-272 | after blocking, every need of a scheduled job that exists in its workflow is itself a scheduled need of its node |
| Schedule.BuildSchedule | internal/engine/engine.go:196-275 | the loops fail iff a runnable workflow cannot be read, and otherwise build the faithful schedule |
| Outcomes.MarkCancelled | internal/engine/engine.go:499-507 | status, reason and the steps that read as failed or running are rewritten, all else stays |
| Outcomes.FindJob | internal/engine/engine.go:490-497 | finds the first job of that ID iff there is one |
| Outcomes.FinalJobOfNode | internal/engine/engine.go:414-464 | after the whole loop a job is what its own node made of it |
| Outcomes.ApplyOutcomes | internal/engine/engine.go:407-470 | all jobs are mapped back in place by their nodes, and the first engine error is returned, torn-down nodes included |
| Outcomes.FirstErrorExactly | internal/engine/engine.go:465-470 | the error returned is that of the first node, in schedule order, that was dispatched, has a job and ended with an error; none iff there is no such node |
| Outcomes.StatusMeans | internal/engine/engine.go:418-464 | when a job reads as fail, cancelled, error, skip and pass, each as an iff on act's result, the first failure on record, the mode and the node's result |
| Outcomes.ReasonMeans | internal/engine/engine.go:409-463 | a cancelled job says `cancelled after <job> failed` of the job on record or `run cancelled`; a job act skipped names the first of its needs that failed or was skipped; an error is the node's |
| Outcomes.UnmetMeans | internal/engine/engine.go:512-522 | the need found is the first that act knows to have failed or been skipped |
| Outcomes.RestIsKept | internal/engine/engine.go:499-507 | nothing else of a job is written, and a step changes only in a dispatched job that is cancelled, from failed or running to cancelled |
| Verdict.CombineFidelity | internal/engine/engine.go:781-792 | the result is one of the two and not higher than either |
| Verdict.LowestFidelity | internal/engine/engine.go:764-779 | the least fidelity among triggered workflows and their jobs that were not skipped |
| Verdict.LowestMeans | internal/engine/engine.go:764-792 | remote-only if anything that counts is, else approximate, else compatible, else exact |
| Verdict.ResultStatus | internal/engine/engine.go:737-762 | one iff for each of cancelled, error, fail, partial and pass in terms of the flags and the jobs: fail beats blocked or remote, which make a run partial |
| Honesty.NoFalseGreen | internal/engine/engine.go:110-192 | a `pass` verdict with a named failure or none means that every pending job was dispatched and ended pass or skip, and none failed, is blocked or is remote |
| Honesty.UnfinishedPlanIsNotGreen | internal/engine/engine.go:737-762 | whatever happens in a run, a plan with a failed, blocked or remote job is never reported as `pass` |
| Honesty.VerdictExactly | internal/engine/engine.go:110-192 | the verdict of every run, as iffs: cancelled, then error if a node or a write failed, then fail if the plan has a failed job or a node fails, then partial for blocked or remote jobs, else pass |
| Honesty.FailureIsReported | internal/engine/engine.go:431-463 | without cancellation and errors, a fail-fast stop by a failure the model names is reported as `fail`, and so is any failure in complete mode |
| Honesty.NodeStatusMeans | internal/engine/engine.go:414-464 | the final status of each scheduled job, as iffs on how its node ended and what the run recorded |
| Honesty.FinalReasonMeans | internal/engine/engine.go:409-463 | in the final model a cancelled job names the job whose failure stopped the run or the run's cancellation, and a job with an error carries its node's |
| Honesty.ErrorMeans | internal/engine/engine.go:465-470 | a run has an error iff some node returned one or a log or event could not be written |
| Honesty.FalseGreenExactly | internal/engine/engine.go:431-464 | a green verdict is false exactly when an unnamed failure stopped the run and some job was left undone |
| Honesty.TeardownHonest | internal/engine/engine.go:431-463 | after a fail-fast stop only the recorded failure may read as `fail`; all others passed, were skipped or are cancelled |
| Honesty.AtMostOneFail | internal/engine/engine.go:431-463 | and there is at most one such job |
| Honesty.CancelledStepsHonest | internal/engine/engine.go:499-507 | no dispatched job marked cancelled keeps a step that reads as failed or running |
| Honesty.CompleteModeKeepsFailures | internal/engine/engine.go:433-440 | in complete mode every failed job reads as failed, and only the user cancels |
| Honesty.FinalOfNode | internal/engine/engine.go:414-464 | the status of a scheduled job in the final model is the one its node's report calls for |
| FalseGreenRun.FalseGreenHappens | internal/engine/engine.go:573-624 | two callers of one reusable workflow: the entry of its failure, in a collector wired as built, makes a run that ends `pass` with the failed caller cancelled and the other never dispatched |
| FalseGreenRun.FiledUnderRunner | internal/engine/logging.go:94-96 | in every collector a failure without a job is filed under the runner |
| Filing.NamedExactly | internal/engine/engine.go:431-464 | the recorded failure is one the model names iff it was a node's own, or its entry can be traced to a scheduled job whose node ended with failure or unset |
| Filing.GreenFromEntries | internal/engine/engine.go:110-192 | if every failure entry is so accounted for, `pass` means that every pending job was dispatched and ended pass or skip |
| Filing.RecordedBy | internal/engine/engine.go:88-104 | every record was made by a step of the run: a collector's report or a node's own failure |
| Mask.MaskingComplete | internal/mask/mask.go:38-45 | no held solid secret occurs in masked text, for any other secrets held in any order |
| Mask.HiddenExactly | internal/mask/mask.go:41-43 | a secret held alone is hidden in every text iff it is solid: no star at either end, no three in a row |
| Mask.HiddenByAllExactly | internal/mask/mask.go:38-45 | every list that holds the secret hides it in every text iff it is solid |
| Mask.LeakShows | internal/mask/mask.go:42 | for every secret that is not solid, a text that still shows it after masking |
| Mask.IdempotentExactly | internal/mask/mask.go:38-45 | masking with one secret is idempotent iff the secret is solid or the mask itself |
| Mask.NeverCreated | internal/mask/mask.go:41-43 | no replacement, of whatever secret, makes a solid text appear that was not there before |
| Mask.FirstIsHidden | internal/mask/mask.go:42 | a replacement turns the first occurrence into three stars, keeps what is before it and goes on behind it |
| Mask.MaskingIsLongestFirst | internal/mask/mask.go:34-44 | masked text is the original with stretches that are held secrets hidden, and every occurrence of a secret runs into a hidden one at least as long; the longest may have stars anywhere, the others are solid or the mask itself |
| Mask.MaskingIdempotent | internal/mask/mask.go:38-45 | masking again changes nothing, for any list of secrets each of which is solid or the mask itself |
| Mask.IdempotentInAllExactly | internal/mask/mask.go:38-45 | a secret leaves masking idempotent in every such list iff it is one of these itself |
| Mask.StarsSurvive | internal/mask/mask.go:42 | for example, a secret of stars survives its mask, and masking it is not idempotent |
| Mask.Masker.Add | internal/mask/mask.go:22-36 | exactly a trimmed, non-empty, new value is added, and the list stays ordered by length |
| Mask.Masker.Apply | internal/mask/mask.go:38-45 | the loop replaces every held value in list order |
| Mask.Masker.Observe | internal/mask/mask.go:47-52 | the value behind the first marker of a line is added, and a line without one adds nothing |
| Mask.AnnouncedMeans | internal/mask/mask.go:47-52 | the value announced is what follows the first `::add-mask::`, without the white space around it |
| Mask.TrimMeans | internal/mask/mask.go:23 | trimming leaves exactly what stands between the white space at both ends |
| Collector.RoutingLaw | internal/engine/logging.go:71-96 | with the aliases and the fallback the engine builds: a selected job keeps its entries, other entries go to one of an odd number of claiming callers, else to the only caller, else nowhere |
| Collector.FiledUnderJobExactly | internal/engine/logging.go:73-96 | an entry, and a failure it reports, is filed under a scheduled job iff it can be traced to one: by its name, an odd number of claimants, a sole caller, or the runner's name |
| Collector.SharedChildIsLost | internal/engine/engine.go:573-624 | the entries of a job that an even number of callers claim stay under a name no job has |
| Collector.OwnSecretsHidden | internal/engine/logging.go:82-90 | an entry's masked message shows neither the value it announces nor one act has attached to it |
| Collected.ReportsFailureMeans | internal/engine/logging.go:143-144 | an entry reports a failure iff its result equals `failure` up to case, or it is an error of a job other than `greenrun` |
| Collected.StepShowsLatestResult | internal/engine/logging.go:118-141 | a step reads as fail iff its latest result equals `failure` up to case, as pass iff `success`, else as the result's text; it runs from its first mention to that result, and without one it is running |
| Collected.ResultShows | internal/engine/logging.go:118-201 | so every result that is the last of its step shows in the job as `Apply` leaves it |
| Collected.TextCons | internal/engine/logging.go:106 | a log file is its lines, each closed by a line feed |
| Collected.LinesCanBeReadBack | internal/engine/logging.go:106 | round trip: messages without line feeds are determined by the log file |
| Collected.LogIsNamedByWords | internal/engine/logging.go:170-175 | a job's log is named by the words of the workflow ID and the job ID, joined by dashes |
| Collector.LogCollector.constructor | internal/engine/logging.go:42-61 | a new collector holds nothing |
| Collector.LogCollector.MaskMessage | internal/engine/logging.go:82-90 | the action outside the lock: exactly what the entry announces or has attached is learnt, and then everything known masks the message |
| Collector.LogCollector.Write | internal/engine/logging.go:92-152 | the action under the lock: a message masked at any earlier time extends the history of its job; the first failure is recorded, and cancels iff in fail-fast mode |
| Collector.LogCollector.NoteTimes | internal/engine/logging.go:97-100 | a job's times are those of its first and last entry |
| Collector.LogCollector.NoteLine | internal/engine/logging.go:101-106 | the message ends up last in the buffer of its job and in no other |
| Collector.LogCollector.NoteStep | internal/engine/logging.go:118-141 | a step started with its first mention and ended with its latest result |
| Collector.LogCollector.Fire | internal/engine/logging.go:71-152 | both actions with no other entry in between: the history grows by the entry, masked with all that is known by then |
| Collector.LogCollector.HasJob | internal/engine/logging.go:154-159 | whether the history has an entry of the job |
| Collector.LogCollector.Apply | internal/engine/logging.go:161-207 | every job up to the first unwritable log takes log, times and steps from its history, and the rest stay as they were |
| Collector.RunLogs.WriteLog | internal/store/store.go:88-97 | the log is replaced as a whole under its safe name, or nothing changes |
| Collector.ArrivalOrder | internal/engine/logging.go:101-106 | every message is in exactly the buffer of its job, in order of arrival |
| Collector.LinesAreClean | internal/engine/logging.go:83-106 | no line of a buffer shows a solid secret that was held when its message was masked |
| Collector.JobForwardExactly | internal/engine/logging.go:97-100 | a job never ends before it starts, at any time, iff none of its entries is older than its first |
| Collector.StepForwardExactly | internal/engine/logging.go:118-141 | a step never ends before it starts, at any time, iff none of its results is older than its first mention |
| Collector.SpansForward | internal/engine/logging.go:173-183 | what is written onto a job runs forward if the job, and each step, is in order in that sense |
| Firing.OvertakenEntry | internal/engine/logging.go:72-100 | for any wiring, job and solid secret, a run in which a line shows the secret held at its writing and the job ends before it starts |
| Firing.WritesWhatWasMasked | internal/engine/logging.go:82-106 | the line an entry writes is its message as masked with what was held at its masking, whatever happened in between |
| Firing.CleanOfWhatWasHeld | internal/engine/logging.go:82-106 | in every interleaving, every line was masked before it was written and shows no solid secret held then |
| Firing.LearntBetweenExactly | internal/engine/logging.go:83-89 | a secret held at a moment was learnt since an earlier one iff it was not held then |
| Firing.ShowsHeldExactly | internal/engine/logging.go:82-106 | a line shows a solid secret held at its writing iff the secret was learnt between the entry's two actions and occurs in the message as masked |
| Firing.OwnSecretsNeverShown | internal/engine/logging.go:82-106 | in every interleaving, no line shows a solid secret that its own entry announces or has attached |
| Firing.HeldInOrder | internal/mask/mask.go:34-35 | the masker's list is ordered by length at every moment of every interleaving |
| Collector.StepListUnique | internal/engine/logging.go:184-201 | the history alone determines a job's step list, whatever the map iteration order |
| Collector.LogFileHolds | internal/engine/logging.go:167-175 | a job's log file holds the text of the last job with a buffer whose ID has the same words |
| Collector.FromText | internal/engine/logging.go:137-139 | a step result the collector does not know becomes the status of that text |
| StepOrder.TextLessTotal | internal/engine/logging.go:196-198 | names compare as a strict total order |
| StepOrder.TextLessMeans | internal/engine/logging.go:196-198 | a name is less iff it is smaller at the first difference or ends before it |
| StepOrder.SortedMeans | internal/engine/logging.go:188-201 | the steps of a job ascend by start time, and by name among those that started together |
| StepOrder.Arrange | internal/engine/logging.go:184-201 | collecting in any order and sorting yields exactly the job's steps in start time and name order |
| StepOrder.ArrangedUnique | internal/engine/logging.go:188-201 | and there is only one such list |
| Planned.ReconcilePlannedSteps | internal/engine/engine.go:626-648 | exactly selected jobs with evidence get the missing planned steps |
| Planned.PlannedStepsShown | internal/engine/engine.go:632-646 | executed steps stay first and unchanged, every nameable planned step is shown, and what is added is skipped |
| Planned.MissingMeans | internal/engine/engine.go:636-646 | added are exactly the planned steps with a nameable and unknown name, in plan order, as skipped steps that never started |
| Planned.NameableMeans | internal/engine/engine.go:638 | a name can be shown iff it is not empty and no `${{` occurs in it |
| Planned.KnownMeans | internal/engine/engine.go:632-635 | a name is known iff it is that of a step but for white space around it |
| Planned.ReconciledOnce | internal/engine/engine.go:632-646 | reconciling again adds nothing |
| LogNames.MakeSafeName | internal/store/store.go:200-213 | the name is the words of the value joined by single dashes |
| LogNames.SafeNameIdempotent | internal/store/store.go:200-213 | a safe name is its own safe name |
| LogNames.WordsOfJoin | internal/store/store.go:200-213 | round trip: the words of a safe name are the words it was made of |
| LogNames.WordsOfRun | internal/store/store.go:200-213 | a run of letters and digits is one word, with its capitals in lower case |
| LogNames.WordsAcross | internal/store/store.go:200-213 | any other character separates words and adds nothing to them |
| LogNames.SafeNameIsShapely | internal/store/store.go:200-213 | a safe name has only lower-case letters, digits and single dashes between them |
| LogNames.JobsShareLogExactly | internal/engine/logging.go:170 | two jobs write one file iff the words of workflow ID and job ID together are the same |
| LogNames.DistinctJobsShareLogs | internal/engine/logging.go:170 | jobs that differ in a separator, within a workflow or across two, share a file |
| History.RecordAllSummarises | internal/history/history.go:144-154 | the bounded statistics equal the counts, last status and last 31 positive durations of the full log |
| History.UpdatesSummarise | internal/history/history.go:132-170 | so they do after any sequence of updates through the file |
| History.SummaryBounds | internal/history/history.go:144-154 | failures never exceed runs, and failure durations neither failures nor 31 |
| Yields.CountsMean | internal/history/history.go:144-149 | runs and failures on record are the numbers of the job's outcomes and of its failed ones in the log |
| Yields.DurationsMean | internal/history/history.go:146-150 | the durations on record are those of the last 31 outcomes of that kind that took time, in order |
| Yields.LatestMeans | internal/history/history.go:152 | the status on record is that of the latest outcome |
| Yields.EntryMeans | internal/history/history.go:137-146 | exactly a passed or failed job that has a key counts, with its duration |
| Yields.EntriesMean | internal/history/history.go:135-156 | what is recorded of a result comes from exactly those of its jobs that count |
| Yields.LoadedMeans | internal/history/history.go:60-80 | a loaded record is the one on file, with the durations of the first schema behind the pass durations |
| History.AppendDuration | internal/history/history.go:182-191 | durations that are not positive are ignored and a full list forgets its oldest |
| History.StatsFile.Load | internal/history/history.go:60-80 | durations of the first schema follow the pass durations, once |
| History.StatsFile.UpdateWithKeys | internal/history/history.go:132-170 | the file becomes the summary of the log extended by the result, and is not written if nothing counts |
| History.MedianIsOrderStatistic | internal/history/history.go:193-200 | the median is element len/2 of any sorted arrangement of the values |
| History.DetectionMS | internal/history/history.go:112-120 | a detection time is at least a second |
| History.FailuresDecide | internal/history/history.go:112-115 | timed failures alone decide: the pass durations do not matter |
| History.PassesDecide | internal/history/history.go:116-119 | without them the median pass decides, and without passes the default |
| Yields.DetectionMeans | internal/history/history.go:112-120 | the detection time is the upper median of failure durations if positive, else of pass durations, else 60000, and at least 1000 |
| History.Prior | internal/history/history.go:98-99 | the prior lies between 0.10 and 0.35 for any heuristic |
| Yields.PriorIsLinear | internal/history/history.go:98-99 | the prior is 0.10 up to 0, 0.35 from 100 on, and linear between |
| History.ProbabilityBetween | internal/history/history.go:98-100 | the smoothed probability lies between the prior and the observed failure rate |
| History.RankBounds | internal/history/history.go:98-107 | ranks lie in (0, 3600), or (0, 10800) after a failure |
| Yields.RankTimesCost | internal/history/history.go:98-107 | the rank of a job that did not fail last, times detection time times runs plus two, is (failures + 2 * prior) * 3600000 |
| Yields.RecentFailureTriples | internal/history/history.go:103-105 | of two records equal but for the last status, the one that failed ranks exactly three times as high |
| Yields.JustFailedRanksFirst | internal/history/history.go:98-170 | after any updates through the file, a job whose latest outcome is a failure has three times the rank |
| History.RankByFailures | internal/history/history.go:98-107 | more failures, all else equal, rank strictly higher |
| History.RankByDetection | internal/history/history.go:98-120 | faster detection, all else equal, ranks strictly higher |
| History.RankByHeuristic | internal/history/history.go:93-107 | without history jobs are ordered exactly as the heuristic suggests |
| Triggers.LastMatchDecides | internal/workflow/workflow.go:304-316 | the last matching pattern decides, and without one the initial value |
| Triggers.PicksExactly | internal/workflow/workflow.go:304-316 | a value is matched iff some positive pattern matches it and no negative one behind that does |
| Triggers.TriggerExactly | internal/workflow/workflow.go:241-302 | whether an event triggers a workflow, as an iff: handled, not filtered to tags only, branch picked or not ignored (the base branch of the two pull request events, else the head branch), some file picked or not ignored; with the reason for each refusal |
| Triggers.OrderedMatch | internal/workflow/workflow.go:304-316 | the loop computes the sign of the last match |
| Triggers.AnySelects | internal/workflow/workflow.go:291-301 | the scan succeeds iff some changed file selects the workflow |
| Triggers.MoreFilesNeverUntrigger | internal/workflow/workflow.go:241-302 | more changed files never un-trigger a workflow |
| Triggers.TriggeredByOneFile | internal/workflow/workflow.go:287-302 | under path filters a set of files triggers iff one of them alone does |
| Aliases.AliasLaw | internal/engine/engine.go:573-610 | for every visiting order a child that is no top-level job has an alias iff its claimants are odd in number, and it is one of them |
| Aliases.SoleClaimant | internal/engine/engine.go:598-607 | a child with one claimant is filed under it |
| Aliases.AmbiguityRecognised | internal/engine/engine.go:603-607 | among several claimants the alias is dropped iff they are even in number |
| Aliases.ThreeClaimants | internal/engine/engine.go:603-607 | three callers that share a child leave an alias |
| Aliases.ReusableJobAliases | internal/engine/engine.go:573-610 | the map obeys the alias law: it holds exactly the children with an odd number of claimants that are no top-level jobs, each with one of its claimants |
| Aliases.ReusableFallback | internal/engine/engine.go:612-624 | the fallback is non-empty iff exactly one selected job is a caller, and is that job |
| Publish.NextInv | internal/store/store.go:99-121 | one file system operation of one run keeps every published document whole |
| Publish.StopInv | internal/store/store.go:181-197 | so does a crash or a failed operation, with or without cleanup |
| Publish.AfterInv | internal/store/store.go:99-121 | so does every interleaving of any number of runs |
| Publish.PublishedRunsAreWhole | internal/store/store.go:99-138 | whenever `latest` exists it resolves to a run whose documents are both whole, and every line of the index names such a run |
| Publish.DocumentsAreNeverPartial | internal/store/store.go:172-198 | no reader ever sees part of a document |
| Publish.ResolveMeans | internal/store/store.go:123-138 | a reference names the run of that ID, and an empty one or `latest` the run the file `latest` names, if its directory exists |
| Publish.CompletedIsPublished | internal/store/store.go:99-138 | a run that has completed is whole, resolves by its ID, is in the index, and `latest` resolves to some run |
| Publish.LatestIsTheLast | internal/store/store.go:108-110 | right after a run has renamed its `latest` into place, `latest` resolves to that run |
| Publish.Disk.AtomicWrite | internal/store/store.go:172-198 | create, write, rename in order, or a prefix of that and the removal of the temporary file |
| Publish.Disk.Complete | internal/store/store.go:99-121 | the two documents, then `latest`, then the index, each only after the one before; an operation that fails ends it |

## Left out

- Scheduling.RunQueue: goroutines and the channel are the environment's choice of the next completion; a job's work and duration are not part of it.
- Protocol.ReachedInv: the context may become cancelled later than the code cancels it, and the collector may report any name; both only add interleavings.
- Blocks.MarkWorkflow: which needed job a blocked job names, and whose fidelity it takes, depend on the iteration order, the blocked set does not; what holds for every order is stated.
- Honesty.NoFalseGreen: takes the plan after blocking and the hypothesis `FailureIsNamed`, without which it is false (`FalseGreenHappens`).
- History.StatsFile.Load: a migrated list may hold more than 31 durations until the next append; the bound is stated for logs recorded by this schema.
- History.StatsFile.UpdateWithKeys: errors of writing the file and the time of the last update are not modelled.
- History.RankBounds: exact reals, as in `Yields`; IEEE rounding and NaN are not modelled.
- Makespan.MakespanBound: whole durations of at least one time unit, dispatch at no cost, no stop.
- Planned.ReconcilePlannedSteps: the ID of an added step is not carried.
- Mask.MaskingIsLongestFirst: does not cover lists in which a secret behind the longest is neither solid nor the mask itself.
- Mask.Masker.Observe: strings are sequences of characters, so lengths are in characters and not in bytes.
- Collector.LogCollector.Fire: the interleaved case is `firing.dfy`; annotations and diagnostics, output to the terminal and the event log are left out; `fieldString` has been applied to the fields.
- Collector.LogCollector.Write: the write of the event log after the hook, whose errors the source ignores, is left out.
- Collector.LogCollector.Apply: the diagnostics parsed from annotations are not carried onto the job; a job that names the same log file as another one gets the other's text; which paths cannot be written is a parameter.
- Publish.PublishedRunsAreWhole: a rename and an appended line are atomic, and the file system loses nothing it has accepted; directories are not removed.
- LogNames.MakeSafeName: lower-casing beyond ASCII.
- Triggers.TriggerExactly: the glob matcher is a parameter.
- Execute, startServices, completeWorkflow, forceCleanup: wiring of act, Docker, servers and ports.
- classifyJob, supportedRunner, the name heuristic, DefaultConcurrency: tables of labels and numbers.
- history.Apply: one call of `Rank` per job.
- YAML and JSON, the command line, hooks, repository snapshots and artifact servers.
