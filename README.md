# GASW self-healing plugin: straggler healing, modelled in Dafny

The GASW self-healing plugin watches the jobs of each command of a workflow. Every job
reports minor statuses as it moves through five phases: Started, Inputs, Application,
Outputs, Finished. From these reports the plugin keeps, per command, four sample lists
of phase durations: setup, input (download), execution and output (upload).

A monitor runs once per tick for each command. It takes the median of each list and
logs the medians when they drift. Then it looks at the invocation of every running
job of the command. For each invocation where no replica is in a transitional state,
it estimates every replica's completion time (`JobPhases`). A late replica that is
behind in phase and much slower than the best replica gets KILL_REPLICA. The best
replica itself gets REPLICATE when it is blocked and the invocation has room for
another replica.

This project models that core and proves its decision rules.

| file | module | models |
|---|---|---|
| `gasw.dfy` | `Gasw` | jobs, statuses, minor-status checkpoints, the outcome of a persistence read |
| `configuration.dfy` | `Configuration` | the thresholds; the `(double) x / y` ratio tests as exact rational comparisons |
| `statistics.dfy` | `SampleStatistics` | sorting a sample list and its median |
| `jobphases.dfy` | `PhaseEstimator` | `JobPhases`: the constructor's two switches as a class with a `for` loop, with closed forms |
| `decisions.dfy` | `HealingDecisions` | what `CommandState` decides, as functions: the guard, the best-replica scan, kill and replicate tests, stats drift, one tick |
| `commandstate.dfy` | `CommandStates` | `CommandState` as a class: sample lists, the log snapshot, `doHealing`, `replicateJobs`, one monitor pass |
| `listener.dfy` | `Listener` | `HealingListener`: the command map, event routing, `terminate` |

Modelling choices:

- **Persistence reads become inputs.** A read that can throw a `DAOException` becomes a
  `Fetch<T>` value, either `Fetched(v)` or `DaoError`. This covers
  `getExecutionMinorStatus` (a job's `minorStatuses`), `getRunningByCommand`, the two
  invocation lookups, and `getDateDiff`. The error paths are modelled where the source
  catches them:
  - `replicateJobs` ends the tick and keeps the requests already made;
  - `doHealing` abandons one invocation, keeping the kills it already requested;
  - the listener records nothing.
- **Status writes become a returned list.** `setStatus` plus `update` is returned as a
  `StatusRequest` in a list, in the order the source issues them.
- **Ratio tests are exact.** The double tests compare by cross-multiplication. A zero
  denominator follows Java's rules: `x / 0.0` is Infinity when x > 0, NaN when x = 0
  and -Infinity when x < 0. `QuotientAtLeastIsDivision` and `QuotientBelowIsDivision`
  prove that this is the real-number comparison whenever the denominator is non-zero.
- **Status codes are ordinals.** `GaswMinorStatus.getStatusCode()` becomes the phase's
  ordinal 0..4, with -1 when no phase was reached. Only their order matters
  (`StatusCodeFollowsPhaseOrder`).
- **Median division truncates.** Java's `long` division truncates toward zero, so the
  even-length median uses `Half` and not Dafny's Euclidean `/`.
- **Sorting in place.** `getMedianValue` sorts the list it is given, and that list is
  the command's field. The model returns the sorted list; `ReplicateJobs` stores it
  back in the fields (`StoreSamples`).
- **An empty sample list ends the monitor for good.** On an empty list `getMedianValue`
  reads index -1 and throws an `IndexOutOfBoundsException`. `replicateJobs` catches
  only `DAOException`, and the monitor thread's loop (`CommandState.java:267-280`)
  catches only `InterruptedException`. So the exception ends the thread, and that
  command is never healed again, although its `stop` flag stays false. The model ends
  the tick with outcome `EmptySamples` and no requests. `MonitorStep` then clears
  `monitorRunning`, and every later `MonitorStep` does nothing. This can happen even
  when the monitor's guard holds: the guard only checks `outputTimes.size() > 1`, and a
  job can report Finished without ever reporting Inputs. `MonitorStep` therefore keeps
  the guard as a branch, not as a precondition, and `ReplicateJobs` itself requires
  nothing about the lists.
- **Kills need a strictly earlier phase.** `killReplicaIfNecessary` returns early when
  the tested replica's status code is at least the best's (`CommandState.java:188`), so
  only a replica in a *strictly* earlier phase can be killed. The comment on the next
  line, "do nothing if the job is not in an equal or more advanced state", describes
  the opposite test. The model follows the code, and `SamePhaseIsNeverKilled` proves
  that replicas which are all in the same phase never cause a kill.

## Model

| member | source | states |
|---|---|---|
| Configuration.QuotientAtLeastIsDivision | src/main/java/fr/insalyon/creatis/gasw/plugin/listener/healing/execution/CommandState.java:172-173 | for a non-zero denominator, the cross-multiplied test is exactly `(double) x / y >= blockedCoefficient` over the reals |
| Configuration.QuotientBelowIsDivision | src/main/java/fr/insalyon/creatis/gasw/plugin/listener/healing/execution/CommandState.java:242-246 | for a non-zero denominator, "below" is the real-number `<`; for a zero one, both tests are false exactly when the quotient is NaN (0/0) |
| SampleStatistics.Sort | src/main/java/fr/insalyon/creatis/gasw/plugin/listener/healing/execution/CommandState.java:285 | the sorted list is sorted and a permutation (same multiset) of the input, of the same length |
| SampleStatistics.SortIsTheSortedPermutation | src/main/java/fr/insalyon/creatis/gasw/plugin/listener/healing/execution/CommandState.java:285 | any sorted permutation of a list, such as the one `Collections.sort` produces, equals `Sort` of it |
| SampleStatistics.SortedPermutationIsUnique | src/main/java/fr/insalyon/creatis/gasw/plugin/listener/healing/execution/CommandState.java:285 | two sorted lists with the same multiset of samples are equal |
| SampleStatistics.MedianIgnoresOrder | src/main/java/fr/insalyon/creatis/gasw/plugin/listener/healing/execution/CommandState.java:283-293 | the median depends only on the multiset of samples, not on the order they were added in |
| SampleStatistics.MedianSplitsHalves | src/main/java/fr/insalyon/creatis/gasw/plugin/listener/healing/execution/CommandState.java:286-291 | on a sorted list, the middle element (odd length) or the truncated average of the two middle ones (even length) is at least every element of the lower half and at most every element of the upper half |
| SampleStatistics.MedianWithinSamples | src/main/java/fr/insalyon/creatis/gasw/plugin/listener/healing/execution/CommandState.java:283-293 | the median lies between some sample and some other sample of the list |
| PhaseEstimator.JobPhases.constructor | src/main/java/fr/insalyon/creatis/gasw/plugin/listener/healing/execution/JobPhases.java:64-127 | after the loop over the checkpoints and the second switch, the fields are `Forecast(Walk(checkpoints), medians, now)`: the estimation `getEstimation` returns is `Estimate(...)`, and the last status is the last recognised checkpoint |
| PhaseEstimator.JobPhases.GetLastStatusCode | src/main/java/fr/insalyon/creatis/gasw/plugin/listener/healing/execution/JobPhases.java:129-131 | negative exactly when no phase was reached; otherwise the reached phase's code |
| PhaseEstimator.StatusCodeFollowsPhaseOrder | src/main/java/fr/insalyon/creatis/gasw/plugin/listener/healing/execution/JobPhases.java:129-131 | codes compare as the phases do, and "none reached" is below every phase |
| PhaseEstimator.WalkIgnoresOtherStatuses | src/main/java/fr/insalyon/creatis/gasw/plugin/listener/healing/execution/JobPhases.java:72-96 | minor statuses other than the five phases do not affect the first switch's fields |
| PhaseEstimator.LastReachedIsLastRecognised | src/main/java/fr/insalyon/creatis/gasw/plugin/listener/healing/execution/JobPhases.java:72-96 | `lastStatus` is the phase of the last recognised checkpoint in iteration order, or none |
| PhaseEstimator.NotStartedEstimate | src/main/java/fr/insalyon/creatis/gasw/plugin/listener/healing/execution/JobPhases.java:117-118 | with no recognised checkpoint, the estimate is the sum of the four medians and the status code is -1 |
| PhaseEstimator.StartedLastEstimate | src/main/java/fr/insalyon/creatis/gasw/plugin/listener/healing/execution/JobPhases.java:73-103 | when the last recognised checkpoint is Started, at S, the estimate is `max(now - S, setupMedian)` plus the other three medians; durations measured before a repeated Started are discarded |
| PhaseEstimator.StartedOnlyEstimate | src/main/java/fr/insalyon/creatis/gasw/plugin/listener/healing/execution/JobPhases.java:101-103 | with only Started at S, the estimate is `max(now - S, setupMedian)` plus the other three medians |
| PhaseEstimator.WalkInOrder | src/main/java/fr/insalyon/creatis/gasw/plugin/listener/healing/execution/JobPhases.java:72-96 | for phases reported in order, each measured phase is the gap between consecutive timestamps and the accumulated estimation telescopes to last minus first |
| PhaseEstimator.InOrderEstimate | src/main/java/fr/insalyon/creatis/gasw/plugin/listener/healing/execution/JobPhases.java:77-116 | for phases reported in order, the estimate is the measured time so far plus `max(elapsed, median)` for the current phase plus the later medians |
| PhaseEstimator.FinishedEstimateIsRunTime | src/main/java/fr/insalyon/creatis/gasw/plugin/listener/healing/execution/JobPhases.java:73-116 | with all five phases in order at S..F, the estimate is F - S, uses no median, and the code is Finished's |
| PhaseEstimator.RunningEstimateCoversElapsed | src/main/java/fr/insalyon/creatis/gasw/plugin/listener/healing/execution/JobPhases.java:101-115 | for a started, unfinished job with ordered phases and non-negative medians, the estimate is at least `now - startTime` |
| PhaseEstimator.EstimateGrowsWithTime | src/main/java/fr/insalyon/creatis/gasw/plugin/listener/healing/execution/JobPhases.java:98-116 | for fixed checkpoints, the estimate is non-decreasing in the current time |
| PhaseEstimator.MeasuredPhasesIgnoreClock | src/main/java/fr/insalyon/creatis/gasw/plugin/listener/healing/execution/JobPhases.java:98-116 | the clock changes neither the start time nor the last status, nor the measured duration of any phase the job has completed, nor the estimate of a finished job |
| HealingDecisions.AnyFinished | src/main/java/fr/insalyon/creatis/gasw/plugin/listener/healing/execution/CommandState.java:141-145 | true exactly when some minor status of the list is Finished |
| HealingDecisions.HasFinished | src/main/java/fr/insalyon/creatis/gasw/plugin/listener/healing/execution/CommandState.java:141-145 | a failed read of the minor statuses propagates; otherwise true exactly when one of them is Finished |
| HealingDecisions.NoneFinished | src/main/java/fr/insalyon/creatis/gasw/plugin/listener/healing/execution/CommandState.java:132-138 | when every read succeeds, true exactly when no active job has reported Finished; a failure is returned only if some read failed |
| HealingDecisions.HealingAllowedExactly | src/main/java/fr/insalyon/creatis/gasw/plugin/listener/healing/execution/CommandState.java:111-145 | with readable minor statuses, healing is refused exactly when an active job is replicating or not RUNNING, a failed job is replicating, or an active job has reported Finished |
| HealingDecisions.HealingAllowedFailsOnlyOnRead | src/main/java/fr/insalyon/creatis/gasw/plugin/listener/healing/execution/CommandState.java:119-136 | the guard throws only after every job's own fields passed, and only when some active job's minor statuses could not be read |
| HealingDecisions.GuardPassMeansAllReadable | src/main/java/fr/insalyon/creatis/gasw/plugin/listener/healing/execution/CommandState.java:132-138 | a guard that lets the invocation through has read every active job's minor statuses, so with one read per job the scan reaches every replica |
| HealingDecisions.BestIndex | src/main/java/fr/insalyon/creatis/gasw/plugin/listener/healing/execution/CommandState.java:156-169 | the index of the replica `bestJob` holds after the scan lies within the replicas |
| HealingDecisions.BestIsEarliestMinimum | src/main/java/fr/insalyon/creatis/gasw/plugin/listener/healing/execution/CommandState.java:160-164 | the kept replica has the minimum estimation, and on ties it is the earliest, because only a strictly smaller estimation replaces it |
| HealingDecisions.Comparisons | src/main/java/fr/insalyon/creatis/gasw/plugin/listener/healing/execution/CommandState.java:160-168 | every kill test names replicas of the invocation |
| HealingDecisions.TestedIsStep | src/main/java/fr/insalyon/creatis/gasw/plugin/listener/healing/execution/CommandState.java:162-167 | each step tests the slower of the new replica and the former best against the new best, which is no slower |
| HealingDecisions.ComparisonsTestEachOtherReplicaOnce | src/main/java/fr/insalyon/creatis/gasw/plugin/listener/healing/execution/CommandState.java:160-168 | one test per replica after the first; every replica but the final best is tested exactly once and the best never is; each test is against the replica that was best at that moment, whose estimation is no larger |
| HealingDecisions.Kills | src/main/java/fr/insalyon/creatis/gasw/plugin/listener/healing/execution/CommandState.java:188-203 | a test ends in KILL_REPLICA exactly when the tested replica is in a strictly earlier phase and its estimation over the best's is at least blockedCoefficient |
| HealingDecisions.BestIsNeverKilled | src/main/java/fr/insalyon/creatis/gasw/plugin/listener/healing/execution/CommandState.java:160-168 | the final best replica never receives KILL_REPLICA, and every kill satisfies both kill conditions |
| HealingDecisions.SamePhaseIsNeverKilled | src/main/java/fr/insalyon/creatis/gasw/plugin/listener/healing/execution/CommandState.java:188-191 | replicas that all have the same status code never cause a kill, whatever their estimations |
| HealingDecisions.ReadablePrefix | src/main/java/fr/insalyon/creatis/gasw/plugin/listener/healing/execution/CommandState.java:156-158 | the scan reaches exactly the leading replicas whose minor statuses can be read, and stops at the first that cannot |
| HealingDecisions.ScanRequestsStep | src/main/java/fr/insalyon/creatis/gasw/plugin/listener/healing/execution/CommandState.java:156-168 | one more replica adds at most one KILL_REPLICA, for the loser of its test, and replaces the best only on a strictly smaller estimation |
| HealingDecisions.HealingStopsAtUnreadable | src/main/java/fr/insalyon/creatis/gasw/plugin/listener/healing/execution/CommandState.java:156-158 | a replica whose minor statuses cannot be read ends `doHealing` with the kills made so far and no REPLICATE |
| HealingDecisions.ReplicateAtMostOnceBelowCap | src/main/java/fr/insalyon/creatis/gasw/plugin/listener/healing/execution/CommandState.java:170-179 | at most one REPLICATE per invocation, as its last request and for the best replica; never when the invocation has maxReplicas replicas or has used up its retries |
| HealingDecisions.ReplicateExactlyWhenBlocked | src/main/java/fr/insalyon/creatis/gasw/plugin/listener/healing/execution/CommandState.java:170-173 | with every replica readable, REPLICATE is requested exactly when there is room and retry budget and the best estimation over the sum of medians is at least blockedCoefficient |
| HealingDecisions.DefaultsReplicateOnlyALoneBlockedReplica | src/main/java/fr/insalyon/creatis/gasw/plugin/listener/healing/execution/CommandState.java:170-173 | under the default thresholds only a single-replica invocation is ever replicated: exactly when it has retries left and its estimate over the sum of medians is at least 2 (for a positive sum, the estimate is at least twice the sum) |
| HealingDecisions.KillsSpareTheBest | src/main/java/fr/insalyon/creatis/gasw/plugin/listener/healing/execution/CommandState.java:160-168 | with distinct job ids, no KILL_REPLICA names the best replica's job |
| HealingDecisions.HealingRequests | src/main/java/fr/insalyon/creatis/gasw/plugin/listener/healing/execution/CommandState.java:147-183 | `doHealing`'s requests are KILL_REPLICAs followed by at most one REPLICATE, and every request names one of the invocation's active jobs |
| HealingDecisions.IsChangeGreaterThanPercentage | src/main/java/fr/insalyon/creatis/gasw/plugin/listener/healing/execution/CommandState.java:239-247 | when the larger value is non-zero, the drift test is `min / max < 1 - percentage / 100` over the reals; two zeros (NaN) never drift |
| HealingDecisions.NoChangeFromItself | src/main/java/fr/insalyon/creatis/gasw/plugin/listener/healing/execution/CommandState.java:239-247 | a value never drifts from itself, for any non-negative percentage |
| HealingDecisions.LoggedAfter | src/main/java/fr/insalyon/creatis/gasw/plugin/listener/healing/execution/CommandState.java:207-237 | the snapshot is non-empty afterwards and keeps its shape: empty, or one entry per phase |
| HealingDecisions.LogRefreshesExactlyOnDrift | src/main/java/fr/insalyon/creatis/gasw/plugin/listener/healing/execution/CommandState.java:211-236 | the first call stores all four medians; a later call overwrites all four exactly when some median drifted, and otherwise leaves the snapshot unchanged |
| HealingDecisions.LoggedSnapshotTracksMedians | src/main/java/fr/insalyon/creatis/gasw/plugin/listener/healing/execution/CommandState.java:207-262 | after the call, no current median has drifted from the snapshot |
| HealingDecisions.LoggingIsIdempotent | src/main/java/fr/insalyon/creatis/gasw/plugin/listener/healing/execution/CommandState.java:207-237 | logging the same medians a second time changes nothing |
| HealingDecisions.HealInvocations | src/main/java/fr/insalyon/creatis/gasw/plugin/listener/healing/execution/CommandState.java:85-102 | the loop over running jobs ends normally or on a DAOException, never on an empty sample list |
| HealingDecisions.FailureEndsTick | src/main/java/fr/insalyon/creatis/gasw/plugin/listener/healing/execution/CommandState.java:100-102 | once a lookup has failed, later running jobs are not looked at and the tick's result is fixed |
| HealingDecisions.TickTouchesOnlyActiveJobs | src/main/java/fr/insalyon/creatis/gasw/plugin/listener/healing/execution/CommandState.java:85-99 | every request of a tick names a job that some invocation lookup returned as active |
| CommandStates.TickMedians | src/main/java/fr/insalyon/creatis/gasw/plugin/listener/healing/execution/CommandState.java:78-81 | the four medians are available exactly when no sample list is empty |
| CommandStates.CommandState.constructor | src/main/java/fr/insalyon/creatis/gasw/plugin/listener/healing/execution/CommandState.java:61-73 | four empty lists, an empty snapshot, not stopped, monitor thread started |
| CommandStates.CommandState.AddSetupTime | src/main/java/fr/insalyon/creatis/gasw/plugin/listener/healing/execution/CommandState.java:295-297 | appends exactly the value to the setup list; nothing else changes |
| CommandStates.CommandState.AddDownloadTime | src/main/java/fr/insalyon/creatis/gasw/plugin/listener/healing/execution/CommandState.java:299-301 | appends exactly the value to the input list; nothing else changes |
| CommandStates.CommandState.AddExecutionTime | src/main/java/fr/insalyon/creatis/gasw/plugin/listener/healing/execution/CommandState.java:303-305 | appends exactly the value to the execution list; nothing else changes |
| CommandStates.CommandState.AddUploadTime | src/main/java/fr/insalyon/creatis/gasw/plugin/listener/healing/execution/CommandState.java:307-309 | appends exactly the value to the output list; nothing else changes |
| CommandStates.CommandState.Terminate | src/main/java/fr/insalyon/creatis/gasw/plugin/listener/healing/execution/CommandState.java:314-317 | sets the stop flag; lists and snapshot unchanged |
| CommandStates.CommandState.GetMedianValue | src/main/java/fr/insalyon/creatis/gasw/plugin/listener/healing/execution/CommandState.java:283-293 | the list comes back sorted and a permutation of itself; the median is absent exactly for an empty list, and otherwise is the median of the samples |
| CommandStates.CommandState.PrintAndUpdateStats | src/main/java/fr/insalyon/creatis/gasw/plugin/listener/healing/execution/CommandState.java:249-262 | puts the four medians under their phase names; on a well-shaped snapshot the result is exactly those four entries |
| CommandStates.CommandState.LogTimesIfNecessary | src/main/java/fr/insalyon/creatis/gasw/plugin/listener/healing/execution/CommandState.java:207-237 | the snapshot becomes `LoggedAfter` of the old one, so it keeps its shape and tracks the medians |
| CommandStates.CommandState.CanDoHealingForJobs | src/main/java/fr/insalyon/creatis/gasw/plugin/listener/healing/execution/CommandState.java:111-139 | the three loops return what `HealingAllowed` specifies |
| CommandStates.CommandState.KillReplicaIfNecessary | src/main/java/fr/insalyon/creatis/gasw/plugin/listener/healing/execution/CommandState.java:185-205 | one KILL_REPLICA for the evaluated replica exactly when the kill test holds, nothing otherwise |
| CommandStates.CommandState.ChallengeBest | src/main/java/fr/insalyon/creatis/gasw/plugin/listener/healing/execution/CommandState.java:162-168 | the replica with the strictly smaller estimation becomes the best (the former best on a tie), and the other is tested against it for a kill |
| CommandStates.CommandState.DoHealing | src/main/java/fr/insalyon/creatis/gasw/plugin/listener/healing/execution/CommandState.java:147-183 | the scan with a mutable best replica returns exactly `HealingRequests`, about which the kill and replicate lemmas above speak |
| CommandStates.CommandState.StoreSamples | src/main/java/fr/insalyon/creatis/gasw/plugin/listener/healing/execution/CommandState.java:285 | the four lists become exactly the ones given, as `Collections.sort` leaves them in place; the stop flag and snapshot are unchanged |
| CommandStates.CommandState.TakeMedians | src/main/java/fr/insalyon/creatis/gasw/plugin/listener/healing/execution/CommandState.java:78-81 | the medians are `TickMedians`, and each list reached is left sorted, stopping at the first empty one |
| CommandStates.CommandState.HealRunningJobs | src/main/java/fr/insalyon/creatis/gasw/plugin/listener/healing/execution/CommandState.java:85-102 | the loop over running jobs returns `HealInvocations`, stopping at the first DAOException |
| CommandStates.CommandState.ReplicateJobs | src/main/java/fr/insalyon/creatis/gasw/plugin/listener/healing/execution/CommandState.java:75-103 | whole new state and outcome of a tick: lists as the sorts leave them, snapshot logged only when all medians exist, requests as `TickResult` |
| CommandStates.CommandState.MonitorStep | src/main/java/fr/insalyon/creatis/gasw/plugin/listener/healing/execution/CommandState.java:267-280 | no tick and no change once stopped, once the thread has died, or with at most one output sample; otherwise exactly one `ReplicateJobs`, after which the thread is dead exactly when the tick ended on an empty sample list; events and ticks delivered one at a time |
| CommandStates.SortingKeepsTheMedians | src/main/java/fr/insalyon/creatis/gasw/plugin/listener/healing/execution/CommandState.java:283-293 | a tick's in-place sorts keep every list's samples, so the next tick takes the same medians |
| CommandStates.EmptySampleListStopsTheTick | src/main/java/fr/insalyon/creatis/gasw/plugin/listener/healing/execution/CommandState.java:78-82 | a tick ends as `EmptySamples`, with no request, exactly when some list is empty, and it then leaves the snapshot alone; otherwise it logs |
| Listener.Gap | src/main/java/fr/insalyon/creatis/gasw/plugin/listener/healing/HealingListener.java:152-166 | only Inputs, Application, Outputs and Finished close a phase, each measured from the phase before it |
| Listener.ReportAddsAtMostOneSample | src/main/java/fr/insalyon/creatis/gasw/plugin/listener/healing/HealingListener.java:152-169 | a report never drops a sample; it adds one exactly when it closes a phase whose gap could be read, and otherwise changes nothing |
| Listener.CompleteRunFeedsEveryList | src/main/java/fr/insalyon/creatis/gasw/plugin/listener/healing/HealingListener.java:152-164 | a job reporting all five phases with readable gaps adds one sample to each list: setup, input via the download list, execution and output |
| Listener.HealingListener.constructor | src/main/java/fr/insalyon/creatis/gasw/plugin/listener/healing/HealingListener.java:79-87 | `load` leaves an empty command map |
| Listener.HealingListener.JobSubmitted | src/main/java/fr/insalyon/creatis/gasw/plugin/listener/healing/HealingListener.java:105-111 | a known command leaves the map unchanged; a new one adds exactly one fresh, empty state under that command |
| Listener.HealingListener.JobMinorStatusReported | src/main/java/fr/insalyon/creatis/gasw/plugin/listener/healing/HealingListener.java:137-170 | reuses the command's state or creates exactly one, never replacing an entry; its lists become `Reported` of the old ones; every other command's state is unchanged; events and ticks delivered one at a time |
| Listener.HealingListener.RecordPhase | src/main/java/fr/insalyon/creatis/gasw/plugin/listener/healing/HealingListener.java:150-166 | the state's lists become `Reported` of the old ones; its stop flag and snapshot are unchanged |
| Listener.HealingListener.Terminate | src/main/java/fr/insalyon/creatis/gasw/plugin/listener/healing/HealingListener.java:177-182 | every state in the map is stopped; the map, lists and snapshots are unchanged |

## Left out

- The monitor thread. Its `while (!stop)` loop, `sleep` and the `volatile` fields are
  concurrency, so the model has one pass of the loop body (`MonitorStep`). Whether the
  thread is alive is the field `monitorRunning`.
- Interleavings. The model runs listener events and monitor ticks one at a time, each
  to completion. In the source the monitor thread and the listener share the four
  `ArrayList` fields without locking. An `add*Time` call (`CommandState.java:295-309`)
  that lands while `getMedianValue` sorts the same list in place
  (`CommandState.java:285`) makes the sort throw `ConcurrentModificationException`.
  Nothing catches it (`CommandState.java:267-280`), so the monitor can also die with
  every list non-empty. If events arrive on more than one thread, the check-then-put in
  `jobSubmitted` and `jobMinorStatusReported` (`HealingListener.java:108-109`,
  `HealingListener.java:143-147`) can create two states for one command, and one
  replaces the other. The `MonitorStep` and `JobMinorStatusReported` contracts hold
  under this one-at-a-time delivery only.
- The clock. `JobPhases` reads `new Date()` once per replica; the model uses one `now`
  per tick for every replica.
- Repeated reads. `canDoHealingForJobs` and `JobPhases` read a job's minor statuses
  separately, and the model gives both the same value. As a consequence, once the guard
  has passed every replica is readable (`GuardPassMeansAllReadable`), so within a tick
  `doHealing` never abandons an invocation after some kills. In the source it can, when
  the second read fails after the first succeeded. `HealingRequests` still models that
  path. Each running job's invocation lookups are one input per running job, so the
  model never re-reads the database.
- Status writes. The model assumes `jobDAO.update` succeeds. A `DAOException` thrown
  by an update is not modelled.
- Integer width. `long` overflow and double rounding are not modelled: durations,
  medians and estimations are unbounded integers, and the double ratios are exact
  rationals.
- The `GaswException` that `GaswConfiguration.getInstance()` can throw when `doHealing`
  reads the retry count (`CommandState.java:171`, reached only when the invocation is
  below maxReplicas), or that the DAO factory can throw, is not modelled. The source
  catches it at `CommandState.java:180`: the invocation is then abandoned after its
  kills and gets no REPLICATE. The model reads the retry count as a parameter, so that
  path does not occur.
- I/O. Configuration file reading and writing, `config.save()`, logging, plugin name
  and persistent-class registration are I/O or labels. `HealingConstants` holds only
  labels. The sleep time and the abort thresholds (`maxErrorJobPercentage`,
  `maxErrorInvocationPercentage`, `minInvocations`) are read but never consumed by the
  modelled code. The defaults 2, 2 and 10 for the thresholds used here are
  `DefaultPolicy`, and `DefaultsReplicateOnlyALoneBlockedReplica` states the replicate
  test under them.
- `filterRunningJobs` is never called, so it is not modelled.
- `jobFinished` and `jobStatusChanged` have empty bodies, so they are not modelled.
- PhaseEstimator.JobPhases.GetEstimation: returns the field the constructor sets, so
  its row is the constructor's.
- The retry count comes from `GaswConfiguration` and is a parameter here.
