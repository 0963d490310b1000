/** What each tick phase preserves: the simulator invariant `Valid` (the
    conservation law between the counters and the job flags, and the
    queue discipline), the attributes a job is born with, and the forward
    direction of the job lifecycle. */
module Invariants {
  import opened Optional
  import opened Collections
  import opened Sorting
  import opened Models
  import opened Reports
  import opened Simulator

  /** No phase changes a job's id, class, arrival time or deadline. */
  predicate Fixed(a: seq<Job>, b: seq<Job>) {
    && |a| == |b|
    && forall i :: 0 <= i < |a| ==>
         && b[i].id == a[i].id && b[i].kind == a[i].kind
         && b[i].startTime == a[i].startTime && b[i].deadline == a[i].deadline
  }

  /** Every job either keeps its stage or takes one lifecycle step. */
  predicate StepsOnce(a: seq<Job>, b: seq<Job>) {
    && |a| == |b|
    && forall i :: 0 <= i < |a| ==> StageOf(b[i]) == StageOf(a[i]) || Step(StageOf(a[i]), StageOf(b[i]))
  }

  /** Every job's stage in `b` is reachable from its stage in `a`. */
  predicate Advances(a: seq<Job>, b: seq<Job>) {
    && |a| == |b|
    && forall i :: 0 <= i < |a| ==> Reaches(StageOf(a[i]), StageOf(b[i]))
  }

  /** What every phase guarantees under the invariant. */
  predicate PhaseOk(st: State, r: State) {
    && Valid(r)
    && Fixed(st.jobs, r.jobs)
    && StepsOnce(st.jobs, r.jobs)
    && |r.servers| == |st.servers|
  }

  lemma FixedTransitive(a: seq<Job>, b: seq<Job>, c: seq<Job>)
    requires Fixed(a, b) && Fixed(b, c)
    ensures Fixed(a, c)
  {
  }

  lemma AdvancesTransitive(a: seq<Job>, b: seq<Job>, c: seq<Job>)
    requires Advances(a, b) && Advances(b, c)
    ensures Advances(a, c)
  {
    forall i | 0 <= i < |a| ensures Reaches(StageOf(a[i]), StageOf(c[i])) {
      ReachesIsClosureOfStep(StageOf(a[i]), StageOf(b[i]), StageOf(c[i]));
    }
  }

  lemma StepsOnceAdvances(a: seq<Job>, b: seq<Job>)
    requires StepsOnce(a, b)
    ensures Advances(a, b)
  {
    forall i | 0 <= i < |a| ensures Reaches(StageOf(a[i]), StageOf(b[i])) {
      ReachesIsClosureOfStep(StageOf(a[i]), StageOf(b[i]), StageOf(b[i]));
    }
  }

  // ---------------------------------------------------------------------
  // Frame lemmas: a queue whose entries and jobs are unchanged keeps its
  // discipline.

  lemma SchedulerQueueFrame(jobs: seq<Job>, jobs2: seq<Job>, q: seq<nat>, q2: seq<nat>)
    requires SchedulerQueueOk(jobs, q)
    requires |jobs2| == |jobs|
    requires Distinct(q2)
    requires forall p :: 0 <= p < |q2| ==> q2[p] in q && q2[p] < |jobs| && jobs2[q2[p]] == jobs[q2[p]]
    ensures SchedulerQueueOk(jobs2, q2)
  {
    forall p | 0 <= p < |q2|
      ensures Waiting(jobs2[q2[p]]) && jobs2[q2[p]].processServerId.None?
    {
      var p0 :| 0 <= p0 < |q| && q[p0] == q2[p];
    }
  }

  lemma ServerQueueFrame(jobs: seq<Job>, jobs2: seq<Job>, s: Server, s2: Server)
    requires ServerQueueOk(jobs, s)
    requires |jobs2| == |jobs|
    requires s2.id == s.id
    requires Distinct(s2.queue)
    requires forall p :: 0 <= p < |s2.queue| ==>
               s2.queue[p] in s.queue && s2.queue[p] < |jobs| && jobs2[s2.queue[p]] == jobs[s2.queue[p]]
    ensures ServerQueueOk(jobs2, s2)
  {
    forall p | 0 <= p < |s2.queue|
      ensures Waiting(jobs2[s2.queue[p]]) && jobs2[s2.queue[p]].processServerId == Some(s2.id)
    {
      var p0 :| 0 <= p0 < |s.queue| && s.queue[p0] == s2.queue[p];
    }
  }

  /** A job that no longer counts as waiting cannot be in a queue that
      keeps its discipline. */
  lemma NotWaitingNotQueued(jobs: seq<Job>, s: Server, j: nat)
    requires ServerQueueOk(jobs, s)
    requires j < |jobs| && (!Waiting(jobs[j]) || jobs[j].processServerId != Some(s.id))
    ensures j !in s.queue
  {
    forall p | 0 <= p < |s.queue| ensures s.queue[p] != j {
      assert Waiting(jobs[s.queue[p]]) && jobs[s.queue[p]].processServerId == Some(s.id);
    }
  }

  // ---------------------------------------------------------------------
  // Consequences of the invariant

  /** A queued job is waiting, and its stage says which queue it is in. */
  lemma QueuedWaits(st: State, x: nat)
    requires SchedulerQueueOk(st.jobs, st.scheduler.queue)
    requires ServersOk(st.jobs, st.servers)
    requires Queued(st, x)
    ensures x < |st.jobs| && Waiting(st.jobs[x])
    ensures x in st.scheduler.queue ==> StageOf(st.jobs[x]) == AtScheduler
    ensures InServerQueue(st.servers, x) ==> StageOf(st.jobs[x]) == AtServer
  {
    if x in st.scheduler.queue {
      var p :| 0 <= p < |st.scheduler.queue| && st.scheduler.queue[p] == x;
    }
    if InServerQueue(st.servers, x) {
      var k :| 0 <= k < |st.servers| && x in st.servers[k].queue;
      var p :| 0 <= p < |st.servers[k].queue| && st.servers[k].queue[p] == x;
      assert ServerQueueOk(st.jobs, st.servers[k]);
    }
  }

  /** Under the invariant the queues and the stages agree both ways: a job
      is in the scheduler's queue exactly when it is at the scheduler, in a
      server's queue exactly when it is at a server, and then in the queue
      of the server its `processServerId` names. */
  lemma QueuedIsWaiting(st: State, x: nat)
    requires Valid(st)
    ensures Queued(st, x) ==> x < |st.jobs| && Waiting(st.jobs[x])
    ensures x < |st.jobs| ==> (x in st.scheduler.queue <==> StageOf(st.jobs[x]) == AtScheduler)
    ensures x < |st.jobs| ==> (InServerQueue(st.servers, x) <==> StageOf(st.jobs[x]) == AtServer)
    ensures x < |st.jobs| && StageOf(st.jobs[x]) == AtServer ==>
              exists k :: 0 <= k < |st.servers| && x in st.servers[k].queue
                          && st.jobs[x].processServerId == Some(st.servers[k].id)
  {
    if Queued(st, x) {
      QueuedWaits(st, x);
    }
    if x < |st.jobs| {
      var j := st.jobs[x];
      assert Coherent(j, st.time);
      if StageOf(j) == AtScheduler || StageOf(j) == AtServer {
        assert Waiting(j);
      }
      if StageOf(j) == AtServer {
        var k :| 0 <= k < |st.servers| && st.servers[k].id == j.processServerId.value && x in st.servers[k].queue;
      }
    }
  }

  /** A job in the scheduler's queue is in no server's queue. */
  lemma SchedulerJobNotAtServer(st: State, x: nat)
    requires SchedulerQueueOk(st.jobs, st.scheduler.queue)
    requires ServersOk(st.jobs, st.servers)
    requires x in st.scheduler.queue
    ensures !InServerQueue(st.servers, x)
  {
    var p :| 0 <= p < |st.scheduler.queue| && st.scheduler.queue[p] == x;
    forall k | 0 <= k < |st.servers| ensures x !in st.servers[k].queue {
      assert ServerQueueOk(st.jobs, st.servers[k]);
      NotWaitingNotQueued(st.jobs, st.servers[k], x);
    }
  }

  /** Two servers never share a queued job. */
  lemma ServerQueuesApart(st: State, a: nat, b: nat, x: nat)
    requires ServersOk(st.jobs, st.servers)
    requires IdsDistinct(st.servers)
    requires a < b < |st.servers|
    requires x in st.servers[a].queue
    ensures x !in st.servers[b].queue
  {
    var p :| 0 <= p < |st.servers[a].queue| && st.servers[a].queue[p] == x;
    assert ServerQueueOk(st.jobs, st.servers[a]) && ServerQueueOk(st.jobs, st.servers[b]);
    assert st.jobs[x].processServerId == Some(st.servers[a].id) != Some(st.servers[b].id);
    NotWaitingNotQueued(st.jobs, st.servers[b], x);
  }

  /** Each job sits in at most one queue: never in the scheduler's queue
      and a server's queue at once, never in two servers' queues, and at
      most once in any one queue. */
  lemma AtMostOneQueue(st: State, x: nat)
    requires Valid(st)
    ensures x in st.scheduler.queue ==> !InServerQueue(st.servers, x)
    ensures forall a, b :: 0 <= a < b < |st.servers| && x in st.servers[a].queue ==> x !in st.servers[b].queue
    ensures multiset(st.scheduler.queue)[x] <= 1
    ensures forall k :: 0 <= k < |st.servers| ==> multiset(st.servers[k].queue)[x] <= 1
  {
    if x in st.scheduler.queue {
      SchedulerJobNotAtServer(st, x);
    }
    forall a, b | 0 <= a < b < |st.servers| && x in st.servers[a].queue
      ensures x !in st.servers[b].queue
    {
      ServerQueuesApart(st, a, b, x);
    }
    DistinctHasMultiplicityOne(st.scheduler.queue, x);
    forall k | 0 <= k < |st.servers| ensures multiset(st.servers[k].queue)[x] <= 1 {
      assert ServerQueueOk(st.jobs, st.servers[k]);
      DistinctHasMultiplicityOne(st.servers[k].queue, x);
    }
  }

  lemma ValidQueuesLive(st: State)
    requires Valid(st)
    ensures QueuesLive(st)
  {
    forall x | x in st.scheduler.queue ensures !InServerQueue(st.servers, x) {
      SchedulerJobNotAtServer(st, x);
    }
    forall k | 0 <= k < |st.servers|
      ensures Distinct(st.servers[k].queue) && InArena(st.servers[k].queue, |st.jobs|)
      ensures forall p :: 0 <= p < |st.servers[k].queue| ==> Live(st.jobs[st.servers[k].queue[p]])
    {
      assert ServerQueueOk(st.jobs, st.servers[k]);
    }
    forall a, b, x | 0 <= a < b < |st.servers| && x in st.servers[a].queue
      ensures x !in st.servers[b].queue
    {
      ServerQueuesApart(st, a, b, x);
    }
  }

  /** When the finished counter reaches the number of jobs, every job is
      done or expired. */
  lemma FinishedAllMeansTerminal(st: State)
    requires Valid(st)
    requires st.finished == |st.jobs|
    ensures forall i :: 0 <= i < |st.jobs| ==> Terminal(StageOf(st.jobs[i]))
  {
    assert Count(st.jobs, Live) == 0;
    assert Count(st.jobs, IsActive) == |st.jobs|;
    forall i | 0 <= i < |st.jobs| ensures Terminal(StageOf(st.jobs[i])) {
      assert IsActive(st.jobs[i]) && !Live(st.jobs[i]);
    }
  }

  /** The report functions can read every job: a job counted done has its
      timestamps set, and none of them precede its arrival. */
  lemma ValidJobsReportable(st: State)
    requires Valid(st)
    ensures Reportable(st.jobs)
    ensures forall i :: 0 <= i < |st.jobs| ==> TimesAfterStart(st.jobs[i])
  {
    forall i | 0 <= i < |st.jobs|
      ensures SpentDefined(st.jobs[i]) && WaitDefined(st.jobs[i])
      ensures TimesAfterStart(st.jobs[i])
    {
      assert Coherent(st.jobs[i], st.time);
    }
  }

  // ---------------------------------------------------------------------
  // The clock

  /** Advancing the clock keeps the invariant. */
  lemma AdvanceKeepsValid(st: State, t: int)
    requires Valid(st)
    requires t >= st.time
    ensures Valid(st.(time := t))
  {
    forall i | 0 <= i < |st.jobs| ensures Coherent(st.jobs[i], t) {
      assert Coherent(st.jobs[i], st.time);
    }
  }

  // ---------------------------------------------------------------------
  // Phase 1: remove_expired_jobs

  /** Marking waiting jobs expired keeps every job coherent, and each mark
      is the lifecycle step to `Expired`. */
  lemma ExpireJobs(jobs: seq<Job>, jobs2: seq<Job>, time: int)
    requires JobsCoherent(jobs, time)
    requires |jobs2| == |jobs|
    requires forall i :: 0 <= i < |jobs| ==>
               jobs2[i] == jobs[i] || (Waiting(jobs[i]) && jobs2[i] == Expire(jobs[i], time))
    ensures JobsCoherent(jobs2, time) && Fixed(jobs, jobs2) && StepsOnce(jobs, jobs2)
    ensures forall i :: 0 <= i < |jobs| ==> IsActive(jobs2[i]) == IsActive(jobs[i])
  {
    forall i | 0 <= i < |jobs|
      ensures Coherent(jobs2[i], time)
      ensures StageOf(jobs2[i]) == StageOf(jobs[i]) || Step(StageOf(jobs[i]), StageOf(jobs2[i]))
    {
      assert Coherent(jobs[i], time);
    }
  }

  /** The jobs that survive an expiry scan are untouched by it. */
  lemma SurvivorsKeepDiscipline(jobs: seq<Job>, jobs2: seq<Job>, q: seq<nat>, q2: seq<nat>, time: int)
    requires InArena(q, |jobs|) && Distinct(q)
    requires |jobs2| == |jobs|
    requires Subsequence(q2, q)
    requires forall x: nat :: x in q2 ==> x in q && !DueToExpire(jobs[x], time)
    requires forall i :: 0 <= i < |jobs| && !DueToExpire(jobs[i], time) ==> jobs2[i] == jobs[i]
    ensures Distinct(q2)
    ensures forall p :: 0 <= p < |q2| ==> q2[p] in q && q2[p] < |jobs| && jobs2[q2[p]] == jobs[q2[p]]
  {
    SubsequenceKeepsDistinct(q2, q);
    forall p | 0 <= p < |q2| ensures q2[p] in q && q2[p] < |jobs| {
      assert q2[p] in q2;
      var p0 :| 0 <= p0 < |q| && q[p0] == q2[p];
    }
  }

  lemma RemoveExpiredKeepsValid(st: State)
    requires Valid(st)
    ensures PhaseOk(st, RemoveExpiredJobs(st))
  {
    RemoveExpiredKeepsJobs(st);
    RemoveExpiredKeepsSchedulerQueue(st);
    RemoveExpiredKeepsServers(st);
  }

  lemma RemoveExpiredKeepsJobs(st: State)
    requires Valid(st)
    ensures var r := RemoveExpiredJobs(st);
            && JobsCoherent(r.jobs, r.time) && Counted(r)
            && Fixed(st.jobs, r.jobs) && StepsOnce(st.jobs, r.jobs)
  {
    var r := RemoveExpiredJobs(st);
    ValidQueuesLive(st);
    RemoveExpiredKeepsTotal(st);
    forall i | 0 <= i < |st.jobs|
      ensures r.jobs[i] == st.jobs[i] || (Waiting(st.jobs[i]) && r.jobs[i] == Expire(st.jobs[i], st.time))
    {
      if Queued(st, i) {
        QueuedWaits(st, i);
      }
    }
    ExpireJobs(st.jobs, r.jobs, st.time);
    CountPointwise(r.jobs, st.jobs, IsActive);
  }

  lemma RemoveExpiredKeepsSchedulerQueue(st: State)
    requires Valid(st)
    ensures var r := RemoveExpiredJobs(st);
            SchedulerQueueOk(r.jobs, r.scheduler.queue)
  {
    var r := RemoveExpiredJobs(st);
    forall i | 0 <= i < |st.jobs|
      ensures !DueToExpire(st.jobs[i], st.time) ==> r.jobs[i] == st.jobs[i]
    {
    }
    SurvivorsKeepDiscipline(st.jobs, r.jobs, st.scheduler.queue, r.scheduler.queue, st.time);
    SchedulerQueueFrame(st.jobs, r.jobs, st.scheduler.queue, r.scheduler.queue);
  }

  lemma RemoveExpiredKeepsServers(st: State)
    requires Valid(st)
    ensures var r := RemoveExpiredJobs(st);
            ServersOk(r.jobs, r.servers) && IdsDistinct(r.servers)
  {
    var r := RemoveExpiredJobs(st);
    forall i | 0 <= i < |st.jobs|
      ensures !DueToExpire(st.jobs[i], st.time) ==> r.jobs[i] == st.jobs[i]
    {
    }
    forall k | 0 <= k < |r.servers| ensures ServerQueueOk(r.jobs, r.servers[k]) {
      var s := st.servers[k];
      assert ServerQueueOk(st.jobs, s);
      SurvivorsKeepDiscipline(st.jobs, r.jobs, s.queue, r.servers[k].queue, st.time);
      ServerQueueFrame(st.jobs, r.jobs, s, r.servers[k]);
    }
  }

  /** Queues left as they are keep their discipline as long as the jobs in
      them are untouched. */
  lemma UntouchedQueues(st: State, jobs2: seq<Job>)
    requires SchedulerQueueOk(st.jobs, st.scheduler.queue)
    requires ServersOk(st.jobs, st.servers)
    requires |jobs2| == |st.jobs|
    requires forall i :: 0 <= i < |st.jobs| && Waiting(st.jobs[i]) ==> jobs2[i] == st.jobs[i]
    ensures SchedulerQueueOk(jobs2, st.scheduler.queue)
    ensures ServersOk(jobs2, st.servers)
  {
    SchedulerQueueFrame(st.jobs, jobs2, st.scheduler.queue, st.scheduler.queue);
    forall k | 0 <= k < |st.servers| ensures ServerQueueOk(jobs2, st.servers[k]) {
      assert ServerQueueOk(st.jobs, st.servers[k]);
      ServerQueueFrame(st.jobs, jobs2, st.servers[k], st.servers[k]);
    }
  }

  // ---------------------------------------------------------------------
  // Phase 2: finish_done_jobs

  lemma FinishDoneKeepsValid(st: State)
    requires Valid(st)
    ensures PhaseOk(st, FinishDoneJobs(st))
  {
    var r := FinishDoneJobs(st);
    FinishDoneKeepsJobs(st);
    UntouchedQueues(st, r.jobs);
  }

  /** Marking finishable jobs done keeps every job coherent, and each mark
      is the lifecycle step from `InService` to `Done`. */
  lemma FinishJobs(jobs: seq<Job>, jobs2: seq<Job>, time: int)
    requires JobsCoherent(jobs, time)
    requires |jobs2| == |jobs|
    requires forall i :: 0 <= i < |jobs| ==>
               jobs2[i] == if Finishable(jobs[i], time) then jobs[i].(isDone := true) else jobs[i]
    ensures JobsCoherent(jobs2, time) && Fixed(jobs, jobs2) && StepsOnce(jobs, jobs2)
    ensures forall i :: 0 <= i < |jobs| ==> IsActive(jobs2[i]) == IsActive(jobs[i])
    ensures forall i :: 0 <= i < |jobs| && Finishable(jobs[i], time) ==> jobs[i].isActive
    ensures forall i :: 0 <= i < |jobs| && Waiting(jobs[i]) ==> jobs2[i] == jobs[i]
  {
    forall i | 0 <= i < |jobs|
      ensures Coherent(jobs2[i], time)
      ensures StageOf(jobs2[i]) == StageOf(jobs[i]) || Step(StageOf(jobs[i]), StageOf(jobs2[i]))
    {
      assert Coherent(jobs[i], time);
    }
  }

  lemma FinishDoneKeepsJobs(st: State)
    requires JobsCoherent(st.jobs, st.time)
    requires Counted(st)
    ensures var r := FinishDoneJobs(st);
            && JobsCoherent(r.jobs, r.time) && Counted(r)
            && Fixed(st.jobs, r.jobs) && StepsOnce(st.jobs, r.jobs)
            && forall i :: 0 <= i < |st.jobs| && Waiting(st.jobs[i]) ==> r.jobs[i] == st.jobs[i]
  {
    var r := FinishDoneJobs(st);
    FinishJobs(st.jobs, r.jobs, st.time);
    CountPointwise(r.jobs, st.jobs, IsActive);
  }

  // ---------------------------------------------------------------------
  // Phase 3: add_new_jobs

  lemma AddNewKeepsValid(st: State)
    requires Valid(st)
    ensures PhaseOk(st, AddNewJobs(st))
  {
    var r := AddNewJobs(st);
    AddNewKeepsJobs(st);
    UntouchedQueues(st, r.jobs);
    AddNewKeepsSchedulerQueue(st);
  }

  /** Activating admissible jobs keeps every job coherent; each activation
      is the lifecycle step from `Pending` to `AtScheduler`, and leaves the
      job waiting and sent to no server. */
  lemma AdmitJobs(jobs: seq<Job>, jobs2: seq<Job>, time: int)
    requires JobsCoherent(jobs, time)
    requires |jobs2| == |jobs|
    requires forall i :: 0 <= i < |jobs| ==>
               jobs2[i] == if Admissible(jobs[i], time) then Activate(jobs[i]) else jobs[i]
    ensures JobsCoherent(jobs2, time) && Fixed(jobs, jobs2) && StepsOnce(jobs, jobs2)
    ensures forall i :: 0 <= i < |jobs| && Admissible(jobs[i], time) ==>
              && !jobs[i].isDone && !jobs[i].expired
              && Waiting(jobs2[i]) && jobs2[i].processServerId.None?
    ensures forall i :: 0 <= i < |jobs| && jobs[i].isActive ==> jobs2[i] == jobs[i]
  {
    forall i | 0 <= i < |jobs|
      ensures Coherent(jobs2[i], time)
      ensures StageOf(jobs2[i]) == StageOf(jobs[i]) || Step(StageOf(jobs[i]), StageOf(jobs2[i]))
      ensures Admissible(jobs[i], time) ==> !jobs[i].isDone && !jobs[i].expired
    {
      assert Coherent(jobs[i], time);
    }
  }

  lemma AddNewKeepsJobs(st: State)
    requires JobsCoherent(st.jobs, st.time)
    requires Counted(st)
    ensures var r := AddNewJobs(st);
            && JobsCoherent(r.jobs, r.time) && Counted(r)
            && Fixed(st.jobs, r.jobs) && StepsOnce(st.jobs, r.jobs)
            && (forall i :: 0 <= i < |st.jobs| && st.jobs[i].isActive ==> r.jobs[i] == st.jobs[i])
            && forall i :: 0 <= i < |st.jobs| && Admissible(st.jobs[i], st.time) ==>
                 Waiting(r.jobs[i]) && r.jobs[i].processServerId.None?
  {
    var r := AddNewJobs(st);
    AdmitJobs(st.jobs, r.jobs, st.time);
    assert r.time == st.time;
    assert Count(r.jobs, Live) - r.started == Count(st.jobs, Live) - st.started;
  }

  /** Appending newly activated jobs, in increasing arena order, to a queue
      of already active jobs keeps the scheduler queue's discipline. */
  lemma AppendAdmitted(jobs: seq<Job>, jobs2: seq<Job>, q: seq<nat>, added: seq<nat>)
    requires SchedulerQueueOk(jobs, q)
    requires |jobs2| == |jobs|
    requires Increasing(added)
    requires forall x: nat :: x in added ==>
               x < |jobs| && !jobs[x].isActive && Waiting(jobs2[x]) && jobs2[x].processServerId.None?
    requires forall i :: 0 <= i < |jobs| && jobs[i].isActive ==> jobs2[i] == jobs[i]
    ensures SchedulerQueueOk(jobs2, q + added)
  {
    var r := q + added;
    var n := |q|;
    forall p | 0 <= p < |r|
      ensures r[p] < |jobs2|
      ensures Waiting(jobs2[r[p]]) && jobs2[r[p]].processServerId.None?
      ensures p < n ==> jobs[r[p]].isActive
      ensures p >= n ==> !jobs[r[p]].isActive
    {
      if p >= n {
        assert r[p] == added[p - n];
        assert r[p] in added;
      } else {
        assert r[p] == q[p];
      }
    }
    assert Distinct(r) by {
      forall a, b | 0 <= a < b < |r| ensures r[a] != r[b] {
        if a >= n {
          assert r[a] == added[a - n] && r[b] == added[b - n];
        }
      }
    }
  }

  lemma AddNewKeepsSchedulerQueue(st: State)
    requires Valid(st)
    ensures var r := AddNewJobs(st);
            SchedulerQueueOk(r.jobs, r.scheduler.queue)
  {
    var r := AddNewJobs(st);
    AddNewKeepsJobs(st);
    var n := |st.scheduler.queue|;
    var added := r.scheduler.queue[n..];
    assert r.scheduler.queue == st.scheduler.queue + added;
    AppendAdmitted(st.jobs, r.jobs, st.scheduler.queue, added);
  }

  // ---------------------------------------------------------------------
  // Phase 4: schedule_jobs

  /** Recording the dispatch of a waiting job keeps every job coherent and
      is the lifecycle step from `AtScheduler` to `AtServer`. */
  lemma DispatchJob(jobs: seq<Job>, j: nat, time: int, id: nat)
    requires JobsCoherent(jobs, time)
    requires j < |jobs| && Waiting(jobs[j]) && jobs[j].processServerId.None?
    ensures var jobs2 := jobs[j := jobs[j].(scheduleTime := Some(time as real), processServerId := Some(id))];
            && JobsCoherent(jobs2, time) && Fixed(jobs, jobs2) && StepsOnce(jobs, jobs2)
            && Waiting(jobs2[j])
            && (forall i :: 0 <= i < |jobs| ==> IsActive(jobs2[i]) == IsActive(jobs[i]))
            && (forall i :: 0 <= i < |jobs| ==> Live(jobs2[i]) == Live(jobs[i]))
  {
    assert Coherent(jobs[j], time);
  }

  /** The scheduler queue without the dispatched job keeps its discipline. */
  lemma RemainderKeepsDiscipline(jobs: seq<Job>, jobs2: seq<Job>, q: seq<nat>, q2: seq<nat>, j: nat)
    requires SchedulerQueueOk(jobs, q)
    requires |jobs2| == |jobs|
    requires multiset(q2) + multiset{j} == multiset(q)
    requires forall i :: 0 <= i < |jobs| && i != j ==> jobs2[i] == jobs[i]
    ensures SchedulerQueueOk(jobs2, q2)
  {
    RemoveOneKeepsDistinct(q2, j, q);
    forall p | 0 <= p < |q2| ensures q2[p] in q && q2[p] < |jobs| && jobs2[q2[p]] == jobs[q2[p]] {
      assert q2[p] in multiset(q);
      var p0 :| 0 <= p0 < |q| && q[p0] == q2[p];
    }
    SchedulerQueueFrame(jobs, jobs2, q, q2);
  }

  /** After one dispatch every server of the reordered list other than the
      head is one of the old servers other than the chosen one. */
  lemma ReorderedServers(servers: seq<Server>, servers2: seq<Server>, m: nat)
    requires IdsDistinct(servers)
    requires m < |servers| && |servers2| == |servers|
    requires multiset(servers2[1..]) + multiset{servers[m]} == multiset(servers)
    ensures forall a :: 1 <= a < |servers2| ==>
              exists p :: 0 <= p < |servers| && p != m && servers[p] == servers2[a]
    ensures Distinct(servers2[1..])
  {
    var rest := servers2[1..];
    assert Distinct(servers) by {
      forall a, b | 0 <= a < b < |servers| ensures servers[a] != servers[b] {
        assert servers[a].id != servers[b].id;
      }
    }
    RemoveOneKeepsDistinct(rest, servers[m], servers);
    forall a | 1 <= a < |servers2|
      ensures exists p :: 0 <= p < |servers| && p != m && servers[p] == servers2[a]
    {
      assert servers2[a] == rest[a - 1];
      assert rest[a - 1] in multiset(servers);
      var p :| 0 <= p < |servers| && servers[p] == rest[a - 1];
      assert rest[a - 1] != servers[m];
    }
  }

  lemma DispatchKeepsIds(servers: seq<Server>, servers2: seq<Server>, m: nat)
    requires IdsDistinct(servers)
    requires m < |servers| && |servers2| == |servers|
    requires servers2[0].id == servers[m].id
    requires multiset(servers2[1..]) + multiset{servers[m]} == multiset(servers)
    ensures IdsDistinct(servers2)
  {
    ReorderedServers(servers, servers2, m);
    forall a, b | 0 <= a < b < |servers2| ensures servers2[a].id != servers2[b].id {
      var pb :| 0 <= pb < |servers| && pb != m && servers[pb] == servers2[b];
      if a > 0 {
        var pa :| 0 <= pa < |servers| && pa != m && servers[pa] == servers2[a];
        assert servers2[a] == servers2[1..][a - 1] && servers2[b] == servers2[1..][b - 1];
        assert pa != pb;
      }
    }
  }

  /** The chosen server's queue with the dispatched job appended keeps its
      discipline. */
  lemma ChosenServerQueueOk(jobs: seq<Job>, jobs2: seq<Job>, s: Server, j: nat)
    requires ServerQueueOk(jobs, s)
    requires |jobs2| == |jobs|
    requires j < |jobs| && jobs[j].processServerId.None?
    requires Waiting(jobs2[j]) && jobs2[j].processServerId == Some(s.id)
    requires forall i :: 0 <= i < |jobs| && i != j ==> jobs2[i] == jobs[i]
    ensures ServerQueueOk(jobs2, s.(queue := s.queue + [j]))
  {
    var q := s.queue + [j];
    NotWaitingNotQueued(jobs, s, j);
    forall p | 0 <= p < |q|
      ensures q[p] < |jobs2|
      ensures Waiting(jobs2[q[p]]) && jobs2[q[p]].processServerId == Some(s.id)
    {
      if p < |s.queue| {
        assert q[p] == s.queue[p] && q[p] in s.queue;
      }
    }
    assert Distinct(q) by {
      forall a, b | 0 <= a < b < |q| ensures q[a] != q[b] {
        assert q[a] == s.queue[a] && q[a] in s.queue;
        if b < |s.queue| {
          assert q[b] == s.queue[b];
        }
      }
    }
  }

  lemma DispatchKeepsServers(jobs: seq<Job>, jobs2: seq<Job>, servers: seq<Server>, servers2: seq<Server>,
                             j: nat, m: nat)
    requires ServersOk(jobs, servers) && IdsDistinct(servers)
    requires m < |servers| && |servers2| == |servers|
    requires |jobs2| == |jobs|
    requires j < |jobs| && jobs[j].processServerId.None?
    requires Waiting(jobs2[j]) && jobs2[j].processServerId == Some(servers[m].id)
    requires forall i :: 0 <= i < |jobs| && i != j ==> jobs2[i] == jobs[i]
    requires servers2[0] == servers[m].(queue := servers[m].queue + [j])
    requires multiset(servers2[1..]) + multiset{servers[m]} == multiset(servers)
    ensures ServersOk(jobs2, servers2)
  {
    ReorderedServers(servers, servers2, m);
    forall k | 0 <= k < |servers2| ensures ServerQueueOk(jobs2, servers2[k]) {
      if k == 0 {
        assert ServerQueueOk(jobs, servers[m]);
        ChosenServerQueueOk(jobs, jobs2, servers[m], j);
      } else {
        var p :| 0 <= p < |servers| && p != m && servers[p] == servers2[k];
        var s := servers[p];
        assert ServerQueueOk(jobs, s);
        NotWaitingNotQueued(jobs, s, j);
        forall x | 0 <= x < |s.queue| ensures s.queue[x] in s.queue && s.queue[x] != j {
        }
        ServerQueueFrame(jobs, jobs2, s, s);
      }
    }
  }

  lemma ScheduleOnceKeepsValid(st: State, d: DispatchDraw)
    requires Valid(st)
    requires d.delay > 0.0
    ensures PhaseOk(st, ScheduleOnce(st, d))
  {
    if |st.scheduler.queue| > 0 {
      ScheduleOnceKeepsJobs(st, d);
      ScheduleOnceKeepsQueues(st, d);
      ScheduleOnceKeepsComplete(st, d);
    }
  }

  /** The dispatched job is in the chosen server's queue, now at the head of
      the list, and every other waiting job stays where it was. */
  lemma ScheduleOnceKeepsComplete(st: State, d: DispatchDraw)
    requires Valid(st)
    requires d.delay > 0.0
    requires |st.scheduler.queue| > 0
    ensures QueuesComplete(ScheduleOnce(st, d))
  {
    var r := ScheduleOnce(st, d);
    var j := st.scheduler.queue[FirstMin(st.scheduler.queue, JobKey(st.jobs))];
    var m := FirstMin(st.servers, ServerKey(d.tiebreak));
    DispatchKeepsComplete(st.jobs, r.jobs, st.scheduler.queue, r.scheduler.queue, st.servers, r.servers, j, m);
  }

  lemma DispatchKeepsComplete(jobs: seq<Job>, jobs2: seq<Job>, q: seq<nat>, q2: seq<nat>,
                              servers: seq<Server>, servers2: seq<Server>, j: nat, m: nat)
    requires Complete(jobs, q, servers)
    requires IdsDistinct(servers)
    requires |jobs2| == |jobs| && j < |jobs|
    requires m < |servers| && |servers2| == |servers|
    requires jobs2 == jobs[j := jobs[j].(scheduleTime := jobs2[j].scheduleTime,
                                         processServerId := Some(servers[m].id))]
    requires multiset(q2) + multiset{j} == multiset(q)
    requires servers2[0] == servers[m].(queue := servers[m].queue + [j])
    requires multiset(servers2[1..]) + multiset{servers[m]} == multiset(servers)
    ensures Complete(jobs2, q2, servers2)
  {
    forall i | 0 <= i < |jobs2| && Waiting(jobs2[i])
      ensures match jobs2[i].processServerId
              case None => i in q2
              case Some(id) => InQueueOf(servers2, i, id)
    {
      if i == j {
        assert servers2[0].id == servers[m].id && j in servers2[0].queue;
      } else if jobs[i].processServerId.None? {
        assert i in multiset(q);
      } else {
        var k :| 0 <= k < |servers| && servers[k].id == jobs[i].processServerId.value
                 && i in servers[k].queue;
        if k == m {
          assert i in servers2[0].queue;
        } else {
          OtherServerKept(servers, servers2, m, k);
        }
      }
    }
  }

  /** A server other than the chosen one is still in the list after a
      dispatch, one place further on or where it was. */
  lemma OtherServerKept(servers: seq<Server>, servers2: seq<Server>, m: nat, k: nat)
    requires IdsDistinct(servers)
    requires m < |servers| && k < |servers| && k != m && |servers2| == |servers|
    requires multiset(servers2[1..]) + multiset{servers[m]} == multiset(servers)
    ensures exists a :: 0 <= a < |servers2| && servers2[a] == servers[k]
  {
    assert servers[k] in multiset(servers);
    assert servers[k] != servers[m] by {
      assert servers[k].id != servers[m].id;
    }
    assert servers[k] in multiset(servers2[1..]);
    var a :| 0 <= a < |servers2| - 1 && servers2[1..][a] == servers[k];
    assert servers2[a + 1] == servers[k];
  }

  /** The job a dispatch picks is waiting in the scheduler queue and has
      not been sent to any server. */
  lemma DispatchedIsWaiting(st: State, j: nat)
    requires SchedulerQueueOk(st.jobs, st.scheduler.queue)
    requires j in st.scheduler.queue
    ensures j < |st.jobs| && Waiting(st.jobs[j]) && st.jobs[j].processServerId.None?
  {
    var p :| 0 <= p < |st.scheduler.queue| && st.scheduler.queue[p] == j;
  }

  lemma ScheduleOnceKeepsJobs(st: State, d: DispatchDraw)
    requires JobsCoherent(st.jobs, st.time) && Counted(st)
    requires SchedulerQueueOk(st.jobs, st.scheduler.queue)
    requires |st.servers| > 0
    requires d.delay > 0.0
    requires |st.scheduler.queue| > 0
    ensures var r := ScheduleOnce(st, d);
            && JobsCoherent(r.jobs, r.time) && Counted(r)
            && Fixed(st.jobs, r.jobs) && StepsOnce(st.jobs, r.jobs)
  {
    var r := ScheduleOnce(st, d);
    var j := st.scheduler.queue[FirstMin(st.scheduler.queue, JobKey(st.jobs))];
    var m := FirstMin(st.servers, ServerKey(d.tiebreak));
    DispatchedIsWaiting(st, j);
    DispatchJob(st.jobs, j, st.time, st.servers[m].id);
    CountPointwise(r.jobs, st.jobs, IsActive);
    CountPointwise(r.jobs, st.jobs, Live);
  }

  lemma ScheduleOnceKeepsQueues(st: State, d: DispatchDraw)
    requires SchedulerQueueOk(st.jobs, st.scheduler.queue)
    requires ServersOk(st.jobs, st.servers) && Shaped(st)
    requires d.delay > 0.0
    requires |st.scheduler.queue| > 0
    ensures var r := ScheduleOnce(st, d);
            && SchedulerQueueOk(r.jobs, r.scheduler.queue)
            && ServersOk(r.jobs, r.servers) && Shaped(r)
  {
    var r := ScheduleOnce(st, d);
    var j := st.scheduler.queue[FirstMin(st.scheduler.queue, JobKey(st.jobs))];
    var m := FirstMin(st.servers, ServerKey(d.tiebreak));
    DispatchedIsWaiting(st, j);
    assert r.jobs[j].processServerId == Some(st.servers[m].id);
    RemainderKeepsDiscipline(st.jobs, r.jobs, st.scheduler.queue, r.scheduler.queue, j);
    DispatchKeepsIds(st.servers, r.servers, m);
    DispatchKeepsServers(st.jobs, r.jobs, st.servers, r.servers, j, m);
  }

  /** The dispatch loop keeps the invariant, and moves every job forward in
      its lifecycle. */
  lemma {:induction false} ScheduleJobsKeepsValid(st: State, draws: nat -> DispatchDraw, n: nat)
    requires Valid(st)
    requires forall k: nat :: draws(k).delay > 0.0
    ensures var r := ScheduleJobs(st, draws, n);
            Valid(r) && Fixed(st.jobs, r.jobs) && Advances(st.jobs, r.jobs) && |r.servers| == |st.servers|
    decreases |st.scheduler.queue|
  {
    var r := ScheduleJobs(st, draws, n);
    if |st.scheduler.queue| > 0 && st.scheduler.readyTime < st.time as real {
      var next := ScheduleOnce(st, draws(n));
      ScheduleOnceKeepsValid(st, draws(n));
      StepsOnceAdvances(st.jobs, next.jobs);
      ScheduleJobsKeepsValid(next, draws, n + 1);
      FixedTransitive(st.jobs, next.jobs, r.jobs);
      AdvancesTransitive(st.jobs, next.jobs, r.jobs);
    } else {
      StepsOnceAdvances(st.jobs, st.jobs);
    }
  }

  // ---------------------------------------------------------------------
  // Phase 5: assign_to_cores

  /** Giving a job waiting at a server to a core keeps every job coherent
      and is the lifecycle step from `AtServer` to `InService`. */
  lemma AssignJob(jobs: seq<Job>, j: nat, time: int, ready: real)
    requires JobsCoherent(jobs, time)
    requires j < |jobs| && Waiting(jobs[j]) && jobs[j].processServerId.Some?
    requires ready > time as real
    ensures var jobs2 := jobs[j := jobs[j].(processStartTime := Some(time as real), finishTime := Some(ready))];
            && JobsCoherent(jobs2, time) && Fixed(jobs, jobs2) && StepsOnce(jobs, jobs2)
            && (forall i :: 0 <= i < |jobs| ==> IsActive(jobs2[i]) == IsActive(jobs[i]))
            && (forall i :: 0 <= i < |jobs| ==> Live(jobs2[i]) == Live(jobs[i]))
  {
    assert Coherent(jobs[j], time);
  }

  /** A server queue without the job just given to a core keeps its
      discipline. */
  lemma ServerRemainderOk(jobs: seq<Job>, jobs2: seq<Job>, s: Server, q2: seq<nat>, j: nat)
    requires ServerQueueOk(jobs, s)
    requires |jobs2| == |jobs|
    requires multiset(q2) + multiset{j} == multiset(s.queue)
    requires forall i :: 0 <= i < |jobs| && i != j ==> jobs2[i] == jobs[i]
    ensures ServerQueueOk(jobs2, s.(queue := q2))
  {
    RemoveOneKeepsDistinct(q2, j, s.queue);
    forall p | 0 <= p < |q2| ensures q2[p] in s.queue && q2[p] < |jobs| && jobs2[q2[p]] == jobs[q2[p]] {
      assert q2[p] in multiset(s.queue);
      var p0 :| 0 <= p0 < |s.queue| && s.queue[p0] == q2[p];
    }
    ServerQueueFrame(jobs, jobs2, s, s.(queue := q2));
  }

  lemma AssignCoreKeepsJobs(st: State, k: nat, c: nat, delay: real)
    requires JobsCoherent(st.jobs, st.time) && Counted(st)
    requires k < |st.servers| && c < |st.servers[k].cores|
    requires ServerQueueOk(st.jobs, st.servers[k])
    requires delay > 0.0
    ensures var r := AssignCore(st, k, c, delay);
            && JobsCoherent(r.jobs, r.time) && Counted(r)
            && Fixed(st.jobs, r.jobs) && StepsOnce(st.jobs, r.jobs)
  {
    var r := AssignCore(st, k, c, delay);
    var s := st.servers[k];
    if s.cores[c].readyTime < st.time as real && |s.queue| > 0 {
      ServedJobKeepsJobs(st, k, c, delay);
      ServedJobKeepsLive(st, k, c, delay);
      CountPointwise(r.jobs, st.jobs, IsActive);
      CountPointwise(r.jobs, st.jobs, Live);
    }
  }

  lemma ServedJobKeepsLive(st: State, k: nat, c: nat, delay: real)
    requires JobsCoherent(st.jobs, st.time)
    requires k < |st.servers| && c < |st.servers[k].cores|
    requires ServerQueueOk(st.jobs, st.servers[k])
    requires delay > 0.0
    requires st.servers[k].cores[c].readyTime < st.time as real && |st.servers[k].queue| > 0
    ensures var r := AssignCore(st, k, c, delay);
            forall i :: 0 <= i < |st.jobs| ==> Live(r.jobs[i]) == Live(st.jobs[i])
  {
    var s := st.servers[k];
    var p := FirstMin(s.queue, JobKey(st.jobs));
    assert Waiting(st.jobs[s.queue[p]]) && st.jobs[s.queue[p]].processServerId.Some?;
    AssignJob(st.jobs, s.queue[p], st.time, st.time as real + delay);
  }

  lemma ServedJobKeepsJobs(st: State, k: nat, c: nat, delay: real)
    requires JobsCoherent(st.jobs, st.time)
    requires k < |st.servers| && c < |st.servers[k].cores|
    requires ServerQueueOk(st.jobs, st.servers[k])
    requires delay > 0.0
    requires st.servers[k].cores[c].readyTime < st.time as real && |st.servers[k].queue| > 0
    ensures var r := AssignCore(st, k, c, delay);
            && JobsCoherent(r.jobs, r.time) && Fixed(st.jobs, r.jobs) && StepsOnce(st.jobs, r.jobs)
            && (forall i :: 0 <= i < |st.jobs| ==> IsActive(r.jobs[i]) == IsActive(st.jobs[i]))
  {
    var s := st.servers[k];
    var p := FirstMin(s.queue, JobKey(st.jobs));
    assert Waiting(st.jobs[s.queue[p]]) && st.jobs[s.queue[p]].processServerId.Some?;
    AssignJob(st.jobs, s.queue[p], st.time, st.time as real + delay);
  }

  lemma AssignCoreKeepsQueues(st: State, k: nat, c: nat, delay: real)
    requires SchedulerQueueOk(st.jobs, st.scheduler.queue)
    requires ServersOk(st.jobs, st.servers) && Shaped(st)
    requires k < |st.servers| && c < |st.servers[k].cores|
    requires delay > 0.0
    ensures ServerQueueOk(st.jobs, st.servers[k])
    ensures var r := AssignCore(st, k, c, delay);
            && SchedulerQueueOk(r.jobs, r.scheduler.queue)
            && ServersOk(r.jobs, r.servers) && Shaped(r)
  {
    var r := AssignCore(st, k, c, delay);
    var s := st.servers[k];
    assert ServerQueueOk(st.jobs, s);
    if s.cores[c].readyTime < st.time as real && |s.queue| > 0 {
      var p := FirstMin(s.queue, JobKey(st.jobs));
      var j := s.queue[p];
      assert st.jobs[j].processServerId == Some(s.id);
      forall x | 0 <= x < |st.scheduler.queue|
        ensures st.scheduler.queue[x] in st.scheduler.queue && st.scheduler.queue[x] != j
      {
      }
      SchedulerQueueFrame(st.jobs, r.jobs, st.scheduler.queue, st.scheduler.queue);
      ServedKeepsServers(st.jobs, r.jobs, st.servers, r.servers, k, j);
    }
  }

  /** Taking job `j` off the queue of the server at `k` keeps every server
      queue's discipline. */
  lemma ServedKeepsServers(jobs: seq<Job>, jobs2: seq<Job>, servers: seq<Server>, servers2: seq<Server>,
                           k: nat, j: nat)
    requires ServersOk(jobs, servers) && IdsDistinct(servers)
    requires |jobs2| == |jobs| && j < |jobs|
    requires forall i :: 0 <= i < |jobs| && i != j ==> jobs2[i] == jobs[i]
    requires k < |servers| && |servers2| == |servers|
    requires jobs[j].processServerId == Some(servers[k].id)
    requires forall m :: 0 <= m < |servers| && m != k ==> servers2[m] == servers[m]
    requires servers2[k].id == servers[k].id
    requires multiset(servers2[k].queue) + multiset{j} == multiset(servers[k].queue)
    ensures ServersOk(jobs2, servers2)
  {
    forall m | 0 <= m < |servers2| ensures ServerQueueOk(jobs2, servers2[m]) {
      if m == k {
        ServerRemainderOk(jobs, jobs2, servers[k], servers2[k].queue, j);
        assert servers2[k] == servers2[k].(queue := servers2[k].queue);
      } else {
        var o := servers[m];
        assert ServerQueueOk(jobs, o);
        assert o.id != servers[k].id;
        NotWaitingNotQueued(jobs, o, j);
        forall x | 0 <= x < |o.queue| ensures o.queue[x] in o.queue && o.queue[x] != j {
        }
        ServerQueueFrame(jobs, jobs2, o, o);
      }
    }
  }

  lemma AssignCoreKeepsValid(st: State, k: nat, c: nat, delay: real)
    requires Valid(st)
    requires k < |st.servers| && c < |st.servers[k].cores|
    requires delay > 0.0
    ensures PhaseOk(st, AssignCore(st, k, c, delay))
  {
    AssignCoreKeepsQueues(st, k, c, delay);
    AssignCoreKeepsJobs(st, k, c, delay);
    AssignCoreKeepsComplete(st, k, c, delay);
  }

  /** The job given to a core no longer waits, and every other waiting job
      stays in its queue. */
  lemma AssignCoreKeepsComplete(st: State, k: nat, c: nat, delay: real)
    requires Valid(st)
    requires k < |st.servers| && c < |st.servers[k].cores|
    requires delay > 0.0
    ensures InArena(st.servers[k].queue, |st.jobs|)
    ensures QueuesComplete(AssignCore(st, k, c, delay))
  {
    assert ServerQueueOk(st.jobs, st.servers[k]);
    var r := AssignCore(st, k, c, delay);
    var s := st.servers[k];
    if s.cores[c].readyTime < st.time as real && |s.queue| > 0 {
      var j := s.queue[FirstMin(s.queue, JobKey(st.jobs))];
      ServedKeepsComplete(st.jobs, r.jobs, st.scheduler.queue, st.servers, r.servers, k, j);
    }
  }

  lemma ServedKeepsComplete(jobs: seq<Job>, jobs2: seq<Job>, q: seq<nat>,
                            servers: seq<Server>, servers2: seq<Server>, k: nat, j: nat)
    requires Complete(jobs, q, servers)
    requires |jobs2| == |jobs| && j < |jobs| && !Waiting(jobs2[j])
    requires forall i :: 0 <= i < |jobs| && i != j ==> jobs2[i] == jobs[i]
    requires k < |servers| && |servers2| == |servers|
    requires forall m :: 0 <= m < |servers| && m != k ==> servers2[m] == servers[m]
    requires servers2[k].id == servers[k].id
    requires multiset(servers2[k].queue) + multiset{j} == multiset(servers[k].queue)
    ensures Complete(jobs2, q, servers2)
  {
    forall i | 0 <= i < |jobs2| && Waiting(jobs2[i])
      ensures match jobs2[i].processServerId
              case None => i in q
              case Some(id) => InQueueOf(servers2, i, id)
    {
      assert i != j && jobs2[i] == jobs[i];
      if jobs[i].processServerId.Some? {
        var k2 :| 0 <= k2 < |servers| && servers[k2].id == jobs[i].processServerId.value
                  && i in servers[k2].queue;
        if k2 == k {
          assert i in multiset(servers[k].queue);
          assert i in servers2[k].queue;
        } else {
          assert servers2[k2] == servers[k2];
        }
      }
    }
  }

  lemma {:induction false} AssignServerKeepsValid(st: State, k: nat, c: nat, service: (nat, nat) -> real)
    requires Valid(st)
    requires k < |st.servers| && c <= |st.servers[k].cores|
    requires PositiveDelays(service)
    ensures InArena(st.servers[k].queue, |st.jobs|)
    ensures var r := AssignServer(st, k, c, service);
            Valid(r) && Fixed(st.jobs, r.jobs) && Advances(st.jobs, r.jobs) && |r.servers| == |st.servers|
    decreases |st.servers[k].cores| - c, 1
  {
    assert ServerQueueOk(st.jobs, st.servers[k]);
    if c < |st.servers[k].cores| {
      AssignServerStepKeepsValid(st, k, c, service);
    } else {
      StepsOnceAdvances(st.jobs, st.jobs);
    }
  }

  /** One core of the loop, then the rest of the loop. */
  lemma {:induction false} AssignServerStepKeepsValid(st: State, k: nat, c: nat, service: (nat, nat) -> real)
    requires Valid(st)
    requires k < |st.servers| && c < |st.servers[k].cores|
    requires PositiveDelays(service)
    ensures InArena(st.servers[k].queue, |st.jobs|)
    ensures var r := AssignServer(st, k, c, service);
            Valid(r) && Fixed(st.jobs, r.jobs) && Advances(st.jobs, r.jobs) && |r.servers| == |st.servers|
    decreases |st.servers[k].cores| - c, 0
  {
    assert ServerQueueOk(st.jobs, st.servers[k]);
    var r := AssignServer(st, k, c, service);
    assert service(k, c) > 0.0;
    var next := AssignCore(st, k, c, service(k, c));
    assert r == AssignServer(next, k, c + 1, service);
    AssignCoreKeepsValid(st, k, c, service(k, c));
    StepsOnceAdvances(st.jobs, next.jobs);
    AssignServerKeepsValid(next, k, c + 1, service);
    FixedTransitive(st.jobs, next.jobs, r.jobs);
    AdvancesTransitive(st.jobs, next.jobs, r.jobs);
  }

  lemma {:induction false} AssignToCoresKeepsValid(st: State, k: nat, service: (nat, nat) -> real)
    requires Valid(st)
    requires k <= |st.servers|
    requires PositiveDelays(service)
    ensures QueuesInArena(st.servers, |st.jobs|)
    ensures var r := AssignToCores(st, k, service);
            Valid(r) && Fixed(st.jobs, r.jobs) && Advances(st.jobs, r.jobs) && |r.servers| == |st.servers|
    decreases |st.servers| - k
  {
    forall m | 0 <= m < |st.servers| ensures InArena(st.servers[m].queue, |st.jobs|) {
      assert ServerQueueOk(st.jobs, st.servers[m]);
    }
    var r := AssignToCores(st, k, service);
    if k < |st.servers| {
      var next := AssignServer(st, k, 0, service);
      AssignServerKeepsValid(st, k, 0, service);
      AssignToCoresKeepsValid(next, k + 1, service);
      FixedTransitive(st.jobs, next.jobs, r.jobs);
      AdvancesTransitive(st.jobs, next.jobs, r.jobs);
    } else {
      StepsOnceAdvances(st.jobs, st.jobs);
    }
  }
}
