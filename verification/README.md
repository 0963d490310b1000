# Job-scheduling simulator: Dafny model of the tick engine

This project models the core of a discrete-time simulator of a job-scheduling system. One scheduler dispatches jobs of two classes to servers, and each server has several cores. The simulator generates every job up front. It then advances an integer clock one step per tick, and each tick runs these phases in a fixed order:

1. Expire waiting jobs whose deadline has passed.
2. Mark jobs done whose service has finished.
3. Admit jobs whose arrival time has passed.
4. Dispatch jobs from the scheduler queue to the shortest server queues, paced by the scheduler's own clock.
5. Give free cores the best job of their server's queue.
6. Sample the queue lengths.
7. Append a report of averages.

The run stops when a confidence-interval accuracy over a window of reports reaches 0.95, or when every job has finished.

The model is functional:

- The state is an immutable record. It holds a job arena (`seq<Job>`, indexed by job id), the scheduler and server queues as sequences of arena indices, the counters and the histories.
- Every phase is a pure function of the state.
- Every random draw is an explicit argument:
  - exponential delays are positive `real`s;
  - the server tiebreak is one real per server id;
  - the class coin is a `bool`.
- Times of jobs and cores are exact `real`s.

Modules:

- `Optional`: the `Option` type.
- `Collections`: counting, duplicate-freedom and order-preserving subsequences.
- `Sorting`: a stable sort by a lexicographic key, which is what Python's `list.sort` with a tuple key does.
- `Models`: jobs, cores, servers, the scheduler, the job lifecycle and the dispatch rule.
- `Reports`: the four report functions.
- `Convergence`: the accuracy gate.
- `Simulator`: the state, the phases, report generation and initialisation.
- `Invariants`: the invariant every phase preserves.
- `Loops`: a generic loop that applies a step per input and breaks at the first state passing a stop test.
- `Engine`: a tick, the finish check, the run loop and the whole-run theorems.

## The invariant

`Simulator.Valid` is what the proofs rely on. It says:

- Every job's flags and timestamps are coherent with each other and with the clock.
- The scheduler queue holds distinct jobs that are waiting and not yet sent to any server.
- Each server queue holds distinct waiting jobs sent to that server's id.
- Every waiting job is in the queue it belongs to: the scheduler's while it has no server id, and otherwise the queue of the server with that id.
- Server ids are distinct and there is at least one server.
- The counters agree with the flags:
  - `started` is the number of active jobs;
  - `started == finished + |live jobs|`, where live means active and neither done nor expired.

Each phase is shown to keep `Valid`, to keep every job's id, class, arrival time and deadline, and to move every job forward along the lifecycle (`Models.Step`/`Models.Reaches`). The lifecycle runs pending → at scheduler → at server → in service → done, with expiry allowed from either queue.

## Model

| member | source | states |
|---|---|---|
| Models.NewJob | models.py:38-50 | A new job is pending (inactive), not done, not expired, with no schedule/process/finish timestamps, no server, `expired_time` 0 |
| Models.NewServer | models.py:4-13 | A new server has an empty queue and one core per listed rate, each with that rate and ready time 0 |
| Models.NewScheduler | models.py:16-21 | A new scheduler has an empty queue and pacing clock 0 |
| Models.ReachesIsClosureOfStep | main.py:74-143 | The lifecycle relation is the reflexive-transitive closure of the single transitions the phases make; done and expired are final |
| Sorting.SortBy | models.py:27-28 | Sorting by a (major, minor) key yields a permutation of the input in non-decreasing key order whose head is the first minimal element |
| Sorting.SortIsStable | models.py:27-28 | For every key, the elements with that key appear in the sorted result in their input order, as with Python's stable `list.sort` |
| Sorting.StableSortIsUnique | models.py:27-28 | Two sorted sequences with the same elements of each key, in the same order, are equal, so `SortBy` gives what any stable sort by that key gives |
| Models.PopFirst | main.py:105-110 | Taking the head of a queue sorted by (class, start time) removes exactly the first minimal job; the rest stays sorted and is the old queue minus that job; head and rest keep the queue order among jobs of equal key |
| Models.Schedule | models.py:23-34 | Empty queue: nothing changes. Otherwise the first job minimal by (class, start time) is sent to a server whose queue is shortest; the job gets the schedule time and that server's id; the scheduler queue loses exactly that job, stays sorted and keeps the queue order among jobs of equal key; the server list is reordered with the chosen server first and its queue extended by the job; the other servers are the old ones and, with the chosen server put back at the front, the list is sorted by (queue length, tiebreak) and keeps the input order among servers of equal key; the pacing clock grows by the positive delay |
| Models.DispatchPicksLeastClass | models.py:27-29 | The dispatched job's class is at most every queued job's class; within its class its start time is the earliest |
| Models.AnyShortestServerCanBeChosen | models.py:28 | For every server with a shortest queue, some tiebreak draws make dispatch choose it |
| Models.PlaceOnShortest | models.py:28-32 | The server that takes the job has a queue no longer than any other; it comes first with the job appended to its queue; the remaining servers are the others, each once; with the chosen server put back at the front the list is the stable sort of the input by (queue length, tiebreak) |
| Models.ScheduleKeepsArena | models.py:29-33 | After a dispatch every scheduler-queue entry still names a job |
| Simulator.ExpireQueue | main.py:75-84 | Scanning one queue marks exactly the queued jobs with deadline before now as expired at now, keeps the other entries in order, and counts the removed ones |
| Simulator.ExpireQueueCountsLive | main.py:78-80 | On a queue of distinct live jobs, the removed count equals the drop in live jobs |
| Simulator.ExpireServers | main.py:87-88 | Each server's queue keeps, in order, exactly its entries not due; jobs queued at some server and due are marked expired; the removed count is the drop in total queued entries |
| Simulator.ExpireServersCountsLive | main.py:87-88 | On separate queues of live jobs, the removed count equals the drop in live jobs |
| Simulator.RemoveExpiredJobs | main.py:74-88 | Exactly the queued jobs with deadline before now are expired with `expired_time` now; all other jobs are untouched; survivors keep their order; `finished` rises by the number removed |
| Simulator.RemoveExpiredKeepsTotal | main.py:80 | Expiry keeps `finished + live jobs` unchanged |
| Simulator.FinishFrom | main.py:139-143 | The loop from position `i` marks exactly the finishable jobs from `i` on and counts them |
| Simulator.FinishAllCountsLive | main.py:139-143 | When every job the loop marks is active, the live count falls by the number marked |
| Simulator.FinishDoneJobs | main.py:138-143 | A job is marked done exactly when its finish time is set, nonzero and before now, and it is neither done nor expired; `finished` rises by that number; `finished + live` is unchanged |
| Simulator.AdmitFrom | main.py:91-95 | The loop from position `i` activates exactly the inactive jobs that arrived before now, and lists them in increasing arena order |
| Simulator.AdmitFromAdded | main.py:91-95 | The loop from position `i` appends one entry per admissible job from `i` on |
| Simulator.AdmitAllCounts | main.py:91-95 | The number of jobs appended equals the number of admissible jobs; the active count rises by that number, and so does the live count when no admissible job is done or expired |
| Simulator.AddNewJobs | main.py:90-95 | Activates exactly the inactive jobs with start time before now, appends them to the scheduler queue in arena order after the old entries, and raises `started` by the number appended |
| Simulator.ScheduleOnce | models.py:23-34 | One dispatch call in the simulator state removes one scheduler-queue entry and advances the pacing clock by the delay |
| Simulator.ScheduleJobs | main.py:97-99 | The dispatch loop terminates given positive delays; on exit the scheduler queue is empty or its clock is not behind now; the clock never goes back |
| Simulator.AssignCore | main.py:103-110 | A core takes a job only when its ready time is before now and the server queue is non-empty. The job taken is the first minimal one by (class, start time). It gets process start now and finish time equal to the core's new ready time, now plus a positive delay. The queue loses exactly that job. Nothing else changes |
| Simulator.AssignServer | main.py:103-110 | Over the cores of one server, each core either keeps its state or, being free, becomes busy until now plus its draw; other servers are unchanged |
| Simulator.AssignToCores | main.py:101-110 | Over all servers, in list order, the same holds for every core; server ids and core counts are kept |
| Simulator.AssignServerFillsCores | main.py:103-110 | When the core loop of one server ends, its queue is empty or no core from the starting position is free any more, and the queue has lost exactly one job per core that went from free to busy |
| Simulator.AssignToCoresFillsCores | main.py:101-110 | After the loop over all servers, every server has an empty queue or no free core, and each queue has lost exactly one job per core of that server that went from free to busy |
| Simulator.UpdateQueueLengths | main.py:145-148 | History `i` gains the current queue length of the server at list position `i`; the scheduler history gains the scheduler queue length |
| Simulator.OfClass | main.py:152-153 | The filtered list is a subsequence of the jobs, so it keeps arena order; it holds only jobs of the class, and its length is the number of jobs of the class, so it holds all of them |
| Simulator.ClassesSplitSpent | main.py:151-157 | With every job of class 1 or 2, the two class lists together are as long as the job list, and their time-spent sums add up to the sum over all jobs |
| Simulator.ClassesSplitWait | main.py:151-160 | Under the same condition, the wait sums of the two class lists add up to the sum over all jobs |
| Simulator.GroupFigures | utils/report.py:6-40 | The expired rate of a group is in [0, 1]; with timestamps after arrival, 0 <= average wait <= average time spent |
| Simulator.HistoryMeans | main.py:167-168 | Entry `i` is the mean of server `i`'s history, and lies between its shortest and longest sample |
| Simulator.MakeReport | main.py:150-170 | The overall figures are those of all jobs and the per-class figures those of the filtered class lists; the scheduler figure is the mean of its history, the server entries are the means of the server histories, one per history and each between the min and max sample; all three expired rates are in [0, 1]; average wait is at most average time spent, overall and per class |
| Simulator.ArrivalTimes | utils/random.py:16-17 | Arrival times are running sums of the gaps; with positive gaps they are positive and strictly increasing |
| Simulator.InitJobs | main.py:17-22 | Job `i` has id `i`, class 2 exactly when its coin is set (else 1), deadline equal to arrival plus its offset, and is pending with no timestamps |
| Simulator.InitJobsArriveInOrder | main.py:18 | With positive gaps jobs arrive in strictly increasing id order |
| Simulator.InitServers | main.py:50-53 | Server `i` has id `i`, an empty queue and one core per listed rate; core `c` has rate `coreRates[i][c]` and is free at time 0 |
| Simulator.InitialState | main.py:24-40 | Clock -1, counters 0, no anchor, one empty history per server, no reports |
| Reports.SpentTotal | utils/report.py:7-12 | With timestamps after arrival the sum is non-negative; it is 0 when no job is expired or done |
| Reports.AverageSpentTime | utils/report.py:6-14 | The average over all jobs in the list is non-negative when timestamps follow arrival, and 0 when no job is terminal |
| Reports.AverageWaitTime | utils/report.py:17-25 | Same as above, using process start for done jobs |
| Reports.WaitTotalAtMostSpentTotal | utils/report.py:6-25 | When every timestamp follows arrival and process start precedes finish, the wait sum is at most the spent sum |
| Reports.WaitAtMostSpent | utils/report.py:6-25 | Under the same conditions, average wait <= average time spent |
| Reports.UnfinishedJobDilutesAverage | utils/report.py:14 | Adding a job that is neither expired nor done keeps the sum and grows the divisor, so with well-ordered timestamps the average cannot rise |
| Reports.RateOfExpired | utils/report.py:28-40 | The rate is in [0, 1]; it is 0 exactly when no job is expired; it is 1 exactly when some job is expired and none is done-only. An expired job counts as expired even if done |
| Reports.MeanQueueLength | utils/report.py:43-44 | The mean of a non-empty list lies between its min and max, and is 0 when all entries are 0 |
| Convergence.KeyError | main.py:132 | A key's relative error is 0 when the mean is 0 or the deviation is 0, and non-negative when the mean is positive |
| Convergence.MinAccuracy | main.py:125-136 | The result is at most the start value and at most `1 - err` of every key, and equals one of these |
| Convergence.MinAccuracyAppend | main.py:127-134 | One more key lowers the minimum to that key's accuracy, or leaves it as it was |
| Convergence.SteadyKeyCostsNothing | main.py:132-134 | A key with zero deviation leaves the accuracy unchanged |
| Convergence.WindowLength | main.py:122 | The length of `reports[start:]`, including Python's reading of a negative start |
| Convergence.Accuracy | main.py:115-136 | 0 with the anchor unchanged during warm-up; after warm-up an unset (None or 0) anchor becomes the last report index and a nonzero one is kept; 0 when the window has fewer than 2 reports; otherwise the minimum over keys, which is at most 1 |
| Convergence.AccurateIffConverged | main.py:113-136 | The accuracy reaches 0.95 exactly when warm-up is over, the window has at least 2 reports, and every key's error is at most 0.05 |
| Invariants.QueuedIsWaiting | main.py:93-110 | Under the invariant a queued job is waiting; a job is in the scheduler queue exactly when it is at the scheduler stage, and in some server queue exactly when it is at the server stage, in the queue of the server whose id it carries |
| Invariants.AtMostOneQueue | main.py:84-110 | Each job is in at most one queue, and at most once in it |
| Invariants.FinishedAllMeansTerminal | main.py:113 | Under the invariant, `finished` equal to the number of jobs means every job is done or expired |
| Invariants.ValidJobsReportable | main.py:150-165 | Under the invariant every timestamp the report functions read is set and not before arrival |
| Invariants.AdvanceKeepsValid | main.py:59 | Advancing the clock keeps the invariant |
| Invariants.RemoveExpiredKeepsValid | main.py:74-88 | Expiry keeps the invariant, fixed job data, and moves jobs by at most one lifecycle step |
| Invariants.FinishDoneKeepsValid | main.py:138-143 | Finishing keeps the invariant, fixed job data, and moves jobs by at most one lifecycle step |
| Invariants.AddNewKeepsValid | main.py:90-95 | Admission keeps the invariant, fixed job data, and moves jobs by at most one lifecycle step |
| Invariants.ScheduleOnceKeepsValid | models.py:23-34 | A dispatch keeps the invariant, fixed job data, and moves jobs by at most one lifecycle step |
| Invariants.ScheduleOnceKeepsComplete | models.py:29-33 | After a dispatch every waiting job is still in the queue it belongs to: the dispatched one in the chosen server's queue, the others where they were |
| Invariants.ScheduleJobsKeepsValid | main.py:97-99 | The dispatch loop keeps the invariant and fixed job data, and jobs only move forward |
| Invariants.AssignCoreKeepsValid | main.py:104-110 | One core assignment keeps the invariant, fixed job data, and moves jobs by at most one lifecycle step |
| Invariants.AssignCoreKeepsComplete | main.py:104-110 | After a core takes a job, every job still waiting is in the queue it belongs to |
| Invariants.AssignServerKeepsValid | main.py:103-110 | The core loop of one server keeps the invariant; jobs only move forward |
| Invariants.AssignToCoresKeepsValid | main.py:101-110 | Core assignment over all servers keeps the invariant; jobs only move forward |
| Engine.Phases | main.py:59-64 | The clock advance and the five job phases in `run`'s order keep the invariant and fixed job data; jobs only move forward |
| Engine.Tick | main.py:58-66 | A tick advances the clock by 1, keeps the invariant and both classes, appends exactly one report, and leaves earlier reports and the anchor as they were |
| Engine.CheckFinishCriteria | main.py:112-136 | Stops exactly when every job has finished or the accuracy gate holds for the anchor the check leaves behind. During warm-up it stops only on the job count and leaves the anchor. After warm-up the anchor is set, and a nonzero anchor is kept |
| Engine.Iteration | main.py:58-69 | One pass of the loop keeps the invariant and both classes, keeps fixed job data, moves jobs forward, advances the clock by 1 and adds one report; it breaks exactly when the finish criteria hold; a nonzero window anchor stays as it was |
| Engine.Run | main.py:57-69 | The loop keeps the invariant and both classes; jobs keep their fixed data and only move forward; the clock and the number of reports grow by the number of passes; a stop comes after at least one pass, in a state that meets the finish criteria; otherwise every draw was used; a nonzero starting window anchor is still the anchor at the end |
| Engine.RunStopsAtFirst | main.py:57-69 | The run ends in the state its passes lead to, and no earlier pass met the finish criteria (no pass at all when it did not stop), so the loop breaks at the first pass whose check holds |
| Loops.LoopStopsAtFirst | main.py:58-69 | A loop that breaks on a stop test ends after its number of passes, in the state those passes reach; it stopped only if the test held there, and the test held at no earlier pass |
| Loops.AfterSplit | main.py:58-69 | Running `m2` passes is running `m1` passes and then `m2 - m1` more on the remaining inputs |
| Loops.AfterKeeps | main.py:58-69 | A property every pass keeps, once it holds after `m1` passes, holds after every later number of passes |
| Loops.LoopKeeps | main.py:58-69 | What every pass keeps holds where the loop ends, and a measure every pass raises by one has risen by the number of passes |
| Engine.Start | main.py:17-40 | The initial state has at least one server and satisfies the invariant; both classes occur when the coins show both faces |
| Engine.InitialStateValid | main.py:17-40 | Before the first tick, with every job pending and at least one server, the invariant holds |
| Engine.ClassesFromCoins | main.py:20-22 | Both job classes occur exactly when both coin faces occur |
| Engine.FinishedCountsEnded | main.py:80-142 | Conservation: `finished` is the number of done or expired jobs, and `started` that plus the live jobs |
| Engine.CountersNeverDecrease | main.py:80-142 | Between two valid states where jobs only moved forward, neither counter decreases |
| Engine.AnchorStaysFixed | main.py:119-120 | Once the window anchor holds a nonzero report index after some pass, it is the same after every later pass |
| Engine.RunFromStart | main.py:24-69 | A run from the initial state keeps conservation and every job's fixed data, has one report per tick, and ends with every job done or expired if it stopped on the job count |

## Where the code and its description differ

The model follows the code in each case:

- **Averages over all jobs.** The averages divide by the number of all jobs of the group. Jobs that are not yet terminal add 0 to the sum and still count in the divisor, so they are not excluded (utils/report.py:14,25).
- **Anchor of 0.** The window anchor is not fixed for the whole run. An anchor of 0 counts as unset and is re-set on the next check (main.py:119).
- **Empty lists raise.** The averages raise on an empty list instead of giving 0. The model requires a non-empty list.
- **Conservation counts admitted jobs only.** `started` counts activated jobs only, so the law is `started == finished + live`. Pending jobs are not part of it.
- **Finish time 0.** A finish time of 0 counts as unset (main.py:140).

## Left out

- `parse_input` (main.py:42-55): file reading and number parsing. `Engine.Start` takes the parsed core rates directly.
- `pprint`/`print` output and the `__main__` entry point.
- The random number generator (utils/random.py): the exponential draws, the uniform tiebreaks and the Bernoulli coins are explicit arguments. Positive exponential draws are a precondition; the model says nothing about their distribution.
- The numeric core of `get_accuracy`: `statistics.mean`, `statistics.stdev` and the square root (main.py:129-132). They are the `measure` argument, which gives each key's mean and deviation over the window and the factor `1.96 / sqrt(n)`. Floating-point rounding is not modelled; all times are exact reals.
- `gen_report`'s string-keyed dictionary: a `Report` record with one field per key, and one entry per server position.
- The final `print(self.get_accuracy())` after the loop: output only. It could move an anchor of 0 once more, which nothing reads afterwards.
- Engine.Run: runs at most `|draws|` ticks, one per element of `draws`. A run that has not stopped when the draws run out is reported as not stopped, not continued.
- Simulator.MakeReport: requires both job classes and at least one sample in every history. The source raises a division by zero when a class is empty.
- Simulator.Valid: requires at least one server. With none, the source fails reading the head of the sorted server list on the first dispatch.
- Engine.CheckFinishCriteria: computes the window length from the anchor `get_accuracy` leaves behind, before the statistics are read. `measure` is trusted to describe that window.
