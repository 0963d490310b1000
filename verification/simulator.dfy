/** The simulator state and the phases `Simulator.run` performs each tick:
    expire, finish, admit, dispatch, assign to cores, sample queue lengths
    and report. Each phase is a pure function of the state; the random draws
    a phase makes are explicit arguments. */
module Simulator {
  import opened Optional
  import opened Collections
  import opened Sorting
  import opened Models
  import opened Reports

  /** Number of jobs generated for a run (`JOB_COUNT`). */
  const JOB_COUNT: nat := 10000

  /** Clock advance per tick (`TIME_STEP`). */
  const TIME_STEP: int := 1

  /** The simulator's fields. `anchor` is `report_final_phase_id`. */
  datatype State = State(
    time: int,
    jobs: seq<Job>,
    scheduler: Scheduler,
    servers: seq<Server>,
    started: nat,
    finished: nat,
    anchor: Option<int>,
    serverQueueLengths: seq<seq<nat>>,
    schedulerQueueLengths: seq<nat>,
    reports: seq<Report>)

  // ---------------------------------------------------------------------
  // Job conditions

  predicate IsActive(j: Job) {
    j.isActive
  }

  /** Admitted and neither done nor expired: the jobs the conservation law
      counts as still in the system. */
  predicate Live(j: Job) {
    j.isActive && !j.isDone && !j.expired
  }

  /** Live and not yet given to a core. */
  predicate Waiting(j: Job) {
    Live(j) && j.finishTime.None? && j.processStartTime.None?
  }

  /** The flags and timestamps of one job agree with each other and with
      the clock. */
  predicate Coherent(j: Job, time: int) {
    && (!j.isActive ==> && !j.isDone && !j.expired && j.finishTime.None?
                        && j.processStartTime.None? && j.processServerId.None?)
    && (j.isActive ==> j.startTime < time as real)
    && !(j.isDone && j.expired)
    && (j.isDone ==> j.finishTime.Some?)
    && (j.finishTime.Some? <==> j.processStartTime.Some?)
    && (j.processStartTime.Some? ==>
          j.startTime < j.processStartTime.value < j.finishTime.value)
    && (j.expired ==> j.startTime < j.expiredTime)
  }

  // ---------------------------------------------------------------------
  // Queue conditions

  predicate QueuesInArena(servers: seq<Server>, n: nat) {
    forall k :: 0 <= k < |servers| ==> InArena(servers[k].queue, n)
  }

  /** Job `x` waits in some server's queue. */
  predicate InServerQueue(servers: seq<Server>, x: nat) {
    exists k :: 0 <= k < |servers| && x in servers[k].queue
  }

  /** Job `x` waits in the scheduler's queue or in some server's queue. */
  predicate Queued(st: State, x: nat) {
    x in st.scheduler.queue || InServerQueue(st.servers, x)
  }

  /** The scheduler queue holds distinct waiting jobs not yet sent to any
      server. */
  predicate SchedulerQueueOk(jobs: seq<Job>, q: seq<nat>) {
    && InArena(q, |jobs|)
    && Distinct(q)
    && forall p :: 0 <= p < |q| ==> Waiting(jobs[q[p]]) && jobs[q[p]].processServerId.None?
  }

  /** A server queue holds distinct waiting jobs sent to that server. */
  predicate ServerQueueOk(jobs: seq<Job>, s: Server) {
    && InArena(s.queue, |jobs|)
    && Distinct(s.queue)
    && forall p :: 0 <= p < |s.queue| ==>
         Waiting(jobs[s.queue[p]]) && jobs[s.queue[p]].processServerId == Some(s.id)
  }

  predicate IdsDistinct(servers: seq<Server>) {
    forall a, b :: 0 <= a < b < |servers| ==> servers[a].id != servers[b].id
  }

  /** At least one server (dispatch reads the head of the sorted server
      list), one queue-length history per server, distinct server ids. */
  predicate Shaped(st: State) {
    && |st.servers| > 0
    && |st.serverQueueLengths| == |st.servers|
    && IdsDistinct(st.servers)
  }

  predicate JobsCoherent(jobs: seq<Job>, time: int) {
    forall i :: 0 <= i < |jobs| ==> Coherent(jobs[i], time)
  }

  predicate ServersOk(jobs: seq<Job>, servers: seq<Server>) {
    forall k :: 0 <= k < |servers| ==> ServerQueueOk(jobs, servers[k])
  }

  /** The counters agree with the flags: every activated job was counted
      started, and every started job is finished or still live. */
  predicate Counted(st: State) {
    && st.started == Count(st.jobs, IsActive)
    && st.started == st.finished + Count(st.jobs, Live)
  }

  /** The server with id `id` holds job `x` in its queue. */
  predicate InQueueOf(servers: seq<Server>, x: nat, id: nat) {
    exists k :: 0 <= k < |servers| && servers[k].id == id && x in servers[k].queue
  }

  /** Every waiting job is in the queue it belongs to: the scheduler's
      until it is dispatched, then the queue of the server it was sent
      to. */
  predicate QueuesComplete(st: State) {
    Complete(st.jobs, st.scheduler.queue, st.servers)
  }

  /** `QueuesComplete` for the arena `jobs`, the scheduler queue `q` and
      the servers `servers`. */
  predicate Complete(jobs: seq<Job>, q: seq<nat>, servers: seq<Server>) {
    forall i :: 0 <= i < |jobs| && Waiting(jobs[i]) ==>
      match jobs[i].processServerId
      case None => i in q
      case Some(id) => InQueueOf(servers, i, id)
  }

  /** The invariant of the simulator between phases. */
  predicate Valid(st: State) {
    && Shaped(st)
    && JobsCoherent(st.jobs, st.time)
    && SchedulerQueueOk(st.jobs, st.scheduler.queue)
    && ServersOk(st.jobs, st.servers)
    && QueuesComplete(st)
    && Counted(st)
  }

  /** Total length of the server queues. */
  function QueuedCount(servers: seq<Server>): nat {
    if |servers| == 0 then 0 else |servers[0].queue| + QueuedCount(servers[1..])
  }

  // ---------------------------------------------------------------------
  // Phase 1: remove_expired_jobs

  predicate DueToExpire(j: Job, time: int) {
    j.deadline < time as real
  }

  function Expire(j: Job, time: int): Job {
    j.(expired := true, expiredTime := time as real)
  }

  /** A queue after the expiry scan: the updated arena, the jobs kept, and
      how many entries were removed. */
  datatype Expiry = Expiry(jobs: seq<Job>, survivors: seq<nat>, removed: nat)

  /** `remove_expired_from_queue` on one queue. */
  function ExpireQueue(jobs: seq<Job>, q: seq<nat>, time: int): (r: Expiry)
    requires InArena(q, |jobs|)
    ensures |r.jobs| == |jobs|
    ensures |r.survivors| + r.removed == |q|
    ensures forall x: nat :: x in r.survivors <==> x in q && !DueToExpire(jobs[x], time)
    ensures Subsequence(r.survivors, q)
    ensures forall i :: 0 <= i < |jobs| ==>
              r.jobs[i] == if i in q && DueToExpire(jobs[i], time) then Expire(jobs[i], time) else jobs[i]
    decreases |q|
  {
    if |q| == 0 then Expiry(jobs, [], 0)
    else
      var h := q[0];
      assert q == [h] + q[1..];
      if DueToExpire(jobs[h], time) then
        var rest := ExpireQueue(jobs[h := Expire(jobs[h], time)], q[1..], time);
        Expiry(rest.jobs, rest.survivors, rest.removed + 1)
      else
        var rest := ExpireQueue(jobs, q[1..], time);
        Expiry(rest.jobs, [h] + rest.survivors, rest.removed)
  }

  /** When the queue holds distinct live jobs, every entry removed is one
      live job fewer. */
  lemma {:induction false} ExpireQueueCountsLive(jobs: seq<Job>, q: seq<nat>, time: int)
    requires InArena(q, |jobs|)
    requires Distinct(q)
    requires forall p :: 0 <= p < |q| ==> Live(jobs[q[p]])
    ensures var r := ExpireQueue(jobs, q, time);
            Count(r.jobs, Live) + r.removed == Count(jobs, Live)
    decreases |q|
  {
    if |q| > 0 {
      var h := q[0];
      var tail := q[1..];
      assert forall p :: 0 <= p < |tail| ==> tail[p] == q[p + 1] && tail[p] != h;
      if DueToExpire(jobs[h], time) {
        var marked := jobs[h := Expire(jobs[h], time)];
        CountUpdate(jobs, h, Expire(jobs[h], time), Live);
        ExpireQueueCountsLive(marked, tail, time);
      } else {
        ExpireQueueCountsLive(jobs, tail, time);
      }
    }
  }

  /** The server queues after the expiry scan. */
  datatype ServersExpiry = ServersExpiry(jobs: seq<Job>, servers: seq<Server>, removed: nat)

  predicate ServerQueuesSeparate(servers: seq<Server>) {
    && (forall k :: 0 <= k < |servers| ==> Distinct(servers[k].queue))
    && (forall a, b, x :: 0 <= a < b < |servers| && x in servers[a].queue ==> x !in servers[b].queue)
  }

  lemma InServerQueueSplit(servers: seq<Server>, x: nat)
    requires |servers| > 0
    ensures InServerQueue(servers, x) <==> x in servers[0].queue || InServerQueue(servers[1..], x)
  {
    if InServerQueue(servers, x) && x !in servers[0].queue {
      var k :| 0 <= k < |servers| && x in servers[k].queue;
      assert servers[1..][k - 1] == servers[k];
    }
    if InServerQueue(servers[1..], x) {
      var k :| 0 <= k < |servers| - 1 && x in servers[1..][k].queue;
      assert servers[k + 1] == servers[1..][k];
    }
  }

  /** `remove_expired_from_queue` on every server, in list order. */
  function ExpireServers(jobs: seq<Job>, servers: seq<Server>, time: int): (r: ServersExpiry)
    requires QueuesInArena(servers, |jobs|)
    ensures |r.jobs| == |jobs| && |r.servers| == |servers|
    ensures forall k :: 0 <= k < |servers| ==>
              && r.servers[k] == servers[k].(queue := r.servers[k].queue)
              && Subsequence(r.servers[k].queue, servers[k].queue)
              && (forall x: nat :: x in r.servers[k].queue <==>
                    x in servers[k].queue && !DueToExpire(jobs[x], time))
    ensures forall i :: 0 <= i < |jobs| ==>
              r.jobs[i] == if InServerQueue(servers, i) && DueToExpire(jobs[i], time)
                           then Expire(jobs[i], time) else jobs[i]
    ensures r.removed + QueuedCount(r.servers) == QueuedCount(servers)
    decreases |servers|
  {
    if |servers| == 0 then ServersExpiry(jobs, [], 0)
    else
      var e := ExpireQueue(jobs, servers[0].queue, time);
      var tail := servers[1..];
      assert forall k :: 1 <= k < |servers| ==> servers[k] == tail[k - 1];
      var rest := ExpireServers(e.jobs, tail, time);
      var out := [servers[0].(queue := e.survivors)] + rest.servers;
      assert out[1..] == rest.servers;
      assert forall i :: 0 <= i < |jobs| ==> e.jobs[i].deadline == jobs[i].deadline;
      forall i | 0 <= i < |jobs|
        ensures rest.jobs[i] == if InServerQueue(servers, i) && DueToExpire(jobs[i], time)
                                then Expire(jobs[i], time) else jobs[i]
      {
        InServerQueueSplit(servers, i);
      }
      ServersExpiry(rest.jobs, out, e.removed + rest.removed)
  }

  /** Every server queue holds distinct live jobs and no job waits at two
      servers. */
  predicate ServerQueuesLive(jobs: seq<Job>, servers: seq<Server>) {
    && QueuesInArena(servers, |jobs|)
    && ServerQueuesSeparate(servers)
    && forall k, p :: 0 <= k < |servers| && 0 <= p < |servers[k].queue| ==>
         Live(jobs[servers[k].queue[p]])
  }

  /** Under `ServerQueuesLive`, every entry the server scan removes is one
      live job fewer. */
  lemma {:induction false} ExpireServersCountsLive(jobs: seq<Job>, servers: seq<Server>, time: int)
    requires ServerQueuesLive(jobs, servers)
    ensures var r := ExpireServers(jobs, servers, time);
            Count(r.jobs, Live) + r.removed == Count(jobs, Live)
    decreases |servers|
  {
    if |servers| > 0 {
      var e := ExpireQueue(jobs, servers[0].queue, time);
      var tail := servers[1..];
      assert forall k :: 1 <= k < |servers| ==> servers[k] == tail[k - 1];
      ExpireQueueCountsLive(jobs, servers[0].queue, time);
      forall k, p | 0 <= k < |tail| && 0 <= p < |tail[k].queue|
        ensures Live(e.jobs[tail[k].queue[p]])
      {
        var x := tail[k].queue[p];
        assert x in servers[k + 1].queue;
        assert x !in servers[0].queue;
        assert Live(jobs[servers[k + 1].queue[p]]);
      }
      assert ServerQueuesSeparate(tail) by {
        forall a, b, x | 0 <= a < b < |tail| && x in tail[a].queue ensures x !in tail[b].queue {
          assert tail[a] == servers[a + 1] && tail[b] == servers[b + 1];
        }
      }
      ExpireServersCountsLive(e.jobs, tail, time);
    }
  }

  /** `remove_expired_jobs`: the scheduler's queue first, then every
      server's queue. Each entry removed adds one to the finished counter. */
  function RemoveExpiredJobs(st: State): (r: State)
    requires InArena(st.scheduler.queue, |st.jobs|)
    requires QueuesInArena(st.servers, |st.jobs|)
    ensures r == st.(jobs := r.jobs, scheduler := r.scheduler, servers := r.servers, finished := r.finished)
    ensures |r.jobs| == |st.jobs| && |r.servers| == |st.servers|
    ensures r.scheduler == st.scheduler.(queue := r.scheduler.queue)
    ensures Subsequence(r.scheduler.queue, st.scheduler.queue)
    ensures forall x: nat :: x in r.scheduler.queue <==>
              x in st.scheduler.queue && !DueToExpire(st.jobs[x], st.time)
    ensures forall k :: 0 <= k < |st.servers| ==>
              && r.servers[k] == st.servers[k].(queue := r.servers[k].queue)
              && Subsequence(r.servers[k].queue, st.servers[k].queue)
              && (forall x: nat :: x in r.servers[k].queue <==>
                    x in st.servers[k].queue && !DueToExpire(st.jobs[x], st.time))
    ensures forall i :: 0 <= i < |st.jobs| ==>
              r.jobs[i] == if Queued(st, i) && DueToExpire(st.jobs[i], st.time)
                           then Expire(st.jobs[i], st.time) else st.jobs[i]
    ensures r.finished == st.finished + (|st.scheduler.queue| - |r.scheduler.queue|)
                                      + (QueuedCount(st.servers) - QueuedCount(r.servers))
  {
    var e := ExpireQueue(st.jobs, st.scheduler.queue, st.time);
    var s := ExpireServers(e.jobs, st.servers, st.time);
    assert forall i :: 0 <= i < |st.jobs| ==> e.jobs[i].deadline == st.jobs[i].deadline;
    st.(jobs := s.jobs, scheduler := st.scheduler.(queue := e.survivors), servers := s.servers,
        finished := st.finished + e.removed + s.removed)
  }

  /** The scheduler queue holds distinct live jobs, none of them also at a
      server, and the server queues satisfy `ServerQueuesLive`. */
  predicate QueuesLive(st: State) {
    && InArena(st.scheduler.queue, |st.jobs|)
    && Distinct(st.scheduler.queue)
    && (forall p :: 0 <= p < |st.scheduler.queue| ==> Live(st.jobs[st.scheduler.queue[p]]))
    && (forall x :: x in st.scheduler.queue ==> !InServerQueue(st.servers, x))
    && ServerQueuesLive(st.jobs, st.servers)
  }

  /** Every job the expiry phase counts as finished leaves the live count:
      the sum of finished and live jobs is unchanged. */
  lemma RemoveExpiredKeepsTotal(st: State)
    requires QueuesLive(st)
    ensures var r := RemoveExpiredJobs(st);
            r.finished + Count(r.jobs, Live) == st.finished + Count(st.jobs, Live)
  {
    var e := ExpireQueue(st.jobs, st.scheduler.queue, st.time);
    ExpireQueueCountsLive(st.jobs, st.scheduler.queue, st.time);
    forall k, p | 0 <= k < |st.servers| && 0 <= p < |st.servers[k].queue|
      ensures Live(e.jobs[st.servers[k].queue[p]])
    {
      var x := st.servers[k].queue[p];
      assert InServerQueue(st.servers, x);
    }
    ExpireServersCountsLive(e.jobs, st.servers, st.time);
  }

  // ---------------------------------------------------------------------
  // Phase 2: finish_done_jobs

  /** The test of `finish_done_jobs`. A finish time of 0 counts as unset
      (the source tests the value's truthiness). */
  predicate Finishable(j: Job, time: int) {
    && j.finishTime.Some? && j.finishTime.value != 0.0
    && j.finishTime.value < time as real
    && !j.isDone && !j.expired
  }

  function FinishableAt(time: int): Job -> bool {
    j => Finishable(j, time)
  }

  /** The jobs from position `i` on after the loop of `finish_done_jobs`,
      and how many it marked done. */
  function FinishFrom(jobs: seq<Job>, time: int, i: nat): (r: (seq<Job>, nat))
    requires i <= |jobs|
    ensures |r.0| == |jobs|
    ensures forall x :: 0 <= x < |jobs| ==>
              r.0[x] == if i <= x && Finishable(jobs[x], time) then jobs[x].(isDone := true) else jobs[x]
    ensures r.1 == Count(jobs[i..], FinishableAt(time))
    decreases |jobs| - i
  {
    if i == |jobs| then (jobs, 0)
    else
      assert jobs[i..][1..] == jobs[i + 1..];
      if Finishable(jobs[i], time) then
        var marked := jobs[i := jobs[i].(isDone := true)];
        assert marked[i + 1..] == jobs[i + 1..];
        var r := FinishFrom(marked, time, i + 1);
        (r.0, r.1 + 1)
      else
        FinishFrom(jobs, time, i + 1)
  }

  /** When every job the loop marks is active, each one marked is one live
      job fewer. */
  lemma FinishAllCountsLive(jobs: seq<Job>, time: int)
    ensures (forall x :: 0 <= x < |jobs| && Finishable(jobs[x], time) ==> jobs[x].isActive) ==>
              Count(FinishFrom(jobs, time, 0).0, Live) + FinishFrom(jobs, time, 0).1 == Count(jobs, Live)
  {
    if forall x :: 0 <= x < |jobs| && Finishable(jobs[x], time) ==> jobs[x].isActive {
      var r := FinishFrom(jobs, time, 0);
      assert jobs[0..] == jobs;
      var stays := (j: Job) => Live(j) && !Finishable(j, time);
      CountSplit(jobs, Live, stays, FinishableAt(time));
      CountMatched(r.0, jobs, Live, stays);
    }
  }

  /** `finish_done_jobs`. */
  function FinishDoneJobs(st: State): (r: State)
    ensures r == st.(jobs := r.jobs, finished := r.finished)
    ensures |r.jobs| == |st.jobs|
    ensures forall x :: 0 <= x < |st.jobs| ==>
              r.jobs[x] == if Finishable(st.jobs[x], st.time) then st.jobs[x].(isDone := true) else st.jobs[x]
    ensures r.finished == st.finished + Count(st.jobs, FinishableAt(st.time))
    ensures (forall x :: 0 <= x < |st.jobs| && Finishable(st.jobs[x], st.time) ==> st.jobs[x].isActive) ==>
              r.finished + Count(r.jobs, Live) == st.finished + Count(st.jobs, Live)
  {
    assert st.jobs[0..] == st.jobs;
    var r := FinishFrom(st.jobs, st.time, 0);
    FinishAllCountsLive(st.jobs, st.time);
    st.(jobs := r.0, finished := st.finished + r.1)
  }

  // ---------------------------------------------------------------------
  // Phase 3: add_new_jobs

  predicate Admissible(j: Job, time: int) {
    !j.isActive && j.startTime < time as real
  }

  function AdmissibleAt(time: int): Job -> bool {
    j => Admissible(j, time)
  }

  function Activate(j: Job): Job {
    j.(isActive := true)
  }

  predicate Increasing(s: seq<nat>) {
    forall a, b :: 0 <= a < b < |s| ==> s[a] < s[b]
  }

  /** The jobs from position `i` on after the loop of `add_new_jobs`, and
      the positions it appended to the scheduler queue. */
  function AdmitFrom(jobs: seq<Job>, time: int, i: nat): (r: (seq<Job>, seq<nat>))
    requires i <= |jobs|
    ensures |r.0| == |jobs|
    ensures forall x :: 0 <= x < |jobs| ==>
              r.0[x] == if i <= x && Admissible(jobs[x], time) then Activate(jobs[x]) else jobs[x]
    ensures forall x: nat :: x in r.1 <==> i <= x < |jobs| && Admissible(jobs[x], time)
    ensures forall p :: 0 <= p < |r.1| ==> i <= r.1[p] < |jobs|
    ensures Increasing(r.1)
    decreases |jobs| - i
  {
    if i == |jobs| then (jobs, [])
    else if Admissible(jobs[i], time) then
      var r := AdmitFrom(jobs[i := Activate(jobs[i])], time, i + 1);
      (r.0, [i] + r.1)
    else
      AdmitFrom(jobs, time, i + 1)
  }

  /** Each job `add_new_jobs` admits is one more active job, and one more
      live job when it was neither done nor expired. */
  lemma AdmitAllCounts(jobs: seq<Job>, time: int)
    ensures var r := AdmitFrom(jobs, time, 0);
            && |r.1| == Count(jobs, AdmissibleAt(time))
            && Count(r.0, IsActive) == Count(jobs, IsActive) + |r.1|
            && ((forall x :: 0 <= x < |jobs| && Admissible(jobs[x], time) ==>
                   !jobs[x].isDone && !jobs[x].expired) ==>
                  Count(r.0, Live) == Count(jobs, Live) + |r.1|)
  {
    var r := AdmitFrom(jobs, time, 0);
    assert jobs[0..] == jobs;
    AdmitFromAdded(jobs, time, 0);
    var activeAfter := (j: Job) => IsActive(j) || Admissible(j, time);
    CountMatched(r.0, jobs, IsActive, activeAfter);
    CountSplit(jobs, activeAfter, IsActive, AdmissibleAt(time));
    if forall x :: 0 <= x < |jobs| && Admissible(jobs[x], time) ==> !jobs[x].isDone && !jobs[x].expired {
      var liveAfter := (j: Job) => Live(j) || Admissible(j, time);
      CountMatched(r.0, jobs, Live, liveAfter);
      CountSplit(jobs, liveAfter, Live, AdmissibleAt(time));
    }
  }

  lemma {:induction false} AdmitFromAdded(jobs: seq<Job>, time: int, i: nat)
    requires i <= |jobs|
    ensures |AdmitFrom(jobs, time, i).1| == Count(jobs[i..], AdmissibleAt(time))
    decreases |jobs| - i
  {
    if i < |jobs| {
      assert jobs[i..][1..] == jobs[i + 1..];
      if Admissible(jobs[i], time) {
        var marked := jobs[i := Activate(jobs[i])];
        assert marked[i + 1..] == jobs[i + 1..];
        AdmitFromAdded(marked, time, i + 1);
      } else {
        AdmitFromAdded(jobs, time, i + 1);
      }
    }
  }

  /** `add_new_jobs`: every job not yet active whose start time has passed
      is appended to the scheduler queue, in arena order. */
  function AddNewJobs(st: State): (r: State)
    ensures r == st.(jobs := r.jobs, scheduler := r.scheduler, started := r.started)
    ensures |r.jobs| == |st.jobs|
    ensures forall x :: 0 <= x < |st.jobs| ==>
              r.jobs[x] == if Admissible(st.jobs[x], st.time) then Activate(st.jobs[x]) else st.jobs[x]
    ensures r.scheduler == st.scheduler.(queue := r.scheduler.queue)
    ensures |r.scheduler.queue| >= |st.scheduler.queue|
    ensures r.scheduler.queue[..|st.scheduler.queue|] == st.scheduler.queue
    ensures var added := r.scheduler.queue[|st.scheduler.queue|..];
            && Increasing(added)
            && (forall x: nat :: x in added <==> x < |st.jobs| && Admissible(st.jobs[x], st.time))
            && r.started == st.started + |added|
            && |added| == Count(st.jobs, AdmissibleAt(st.time))
    ensures Count(r.jobs, IsActive) - r.started == Count(st.jobs, IsActive) - st.started
    ensures (forall x :: 0 <= x < |st.jobs| && Admissible(st.jobs[x], st.time) ==>
               !st.jobs[x].isDone && !st.jobs[x].expired) ==>
              Count(r.jobs, Live) - r.started == Count(st.jobs, Live) - st.started
  {
    var r := AdmitFrom(st.jobs, st.time, 0);
    AdmitAllCounts(st.jobs, st.time);
    AppendSlices(st.scheduler.queue, r.1);
    st.(jobs := r.0, scheduler := st.scheduler.(queue := st.scheduler.queue + r.1), started := st.started + |r.1|)
  }

  // ---------------------------------------------------------------------
  // Phase 4: schedule_jobs

  /** The draws one call of `Scheduler.schedule` makes: its pacing delay and
      a uniform number per server id for the tiebreak. */
  datatype DispatchDraw = DispatchDraw(delay: real, tiebreak: nat -> real)

  /** The state after one call of `Scheduler.schedule`. */
  function ScheduleOnce(st: State, d: DispatchDraw): (r: State)
    requires InArena(st.scheduler.queue, |st.jobs|)
    requires |st.servers| > 0
    requires d.delay > 0.0
    ensures r == st.(jobs := r.jobs, scheduler := r.scheduler, servers := r.servers)
    ensures |r.jobs| == |st.jobs| && |r.servers| == |st.servers|
    ensures InArena(r.scheduler.queue, |r.jobs|)
    ensures |st.scheduler.queue| > 0 ==> |r.scheduler.queue| == |st.scheduler.queue| - 1
    ensures |st.scheduler.queue| > 0 ==> r.scheduler.readyTime == st.scheduler.readyTime + d.delay
  {
    var o := Schedule(st.scheduler, st.servers, st.jobs, st.time, d.delay, d.tiebreak);
    ScheduleKeepsArena(st.scheduler, st.servers, st.jobs, st.time, d.delay, d.tiebreak);
    st.(jobs := o.jobs, scheduler := o.scheduler, servers := o.servers)
  }

  /** `schedule_jobs`: dispatch while the scheduler queue is non-empty and
      the pacing clock is behind the current time. Call `n` of the loop uses
      `draws(n)`. Each call removes one job from the scheduler queue, so the
      loop ends after at most as many calls as there are queued jobs. */
  function ScheduleJobs(st: State, draws: nat -> DispatchDraw, n: nat): (r: State)
    requires InArena(st.scheduler.queue, |st.jobs|)
    requires |st.servers| > 0
    requires forall k: nat :: draws(k).delay > 0.0
    ensures r == st.(jobs := r.jobs, scheduler := r.scheduler, servers := r.servers)
    ensures |r.jobs| == |st.jobs| && |r.servers| == |st.servers|
    ensures InArena(r.scheduler.queue, |r.jobs|)
    ensures |r.scheduler.queue| == 0 || r.scheduler.readyTime >= st.time as real
    ensures |r.scheduler.queue| <= |st.scheduler.queue|
    ensures r.scheduler.readyTime >= st.scheduler.readyTime
    ensures |st.scheduler.queue| == 0 || st.scheduler.readyTime >= st.time as real ==> r == st
    decreases |st.scheduler.queue|
  {
    if |st.scheduler.queue| > 0 && st.scheduler.readyTime < st.time as real then
      ScheduleJobs(ScheduleOnce(st, draws(n)), draws, n + 1)
    else st
  }

  // ---------------------------------------------------------------------
  // Phase 5: assign_to_cores

  /** The inner step of `assign_to_cores` for core `c` of the server at
      position `k`: a free core takes the first job of the server's queue in
      (class, start time) order, and is busy until `time + delay`. */
  function AssignCore(st: State, k: nat, c: nat, delay: real): (r: State)
    requires k < |st.servers| && c < |st.servers[k].cores|
    requires InArena(st.servers[k].queue, |st.jobs|)
    requires delay > 0.0
    ensures r == st.(jobs := r.jobs, servers := r.servers)
    ensures |r.jobs| == |st.jobs| && |r.servers| == |st.servers|
    ensures InArena(r.servers[k].queue, |r.jobs|)
    ensures r.servers[k].id == st.servers[k].id && |r.servers[k].cores| == |st.servers[k].cores|
    ensures forall m :: 0 <= m < |st.servers| && m != k ==> r.servers[m] == st.servers[m]
    ensures forall d :: 0 <= d < |st.servers[k].cores| && d != c ==>
              r.servers[k].cores[d] == st.servers[k].cores[d]
    ensures !(st.servers[k].cores[c].readyTime < st.time as real && |st.servers[k].queue| > 0) ==> r == st
    ensures st.servers[k].cores[c].readyTime < st.time as real && |st.servers[k].queue| > 0 ==>
              var s := st.servers[k];
              var j := s.queue[FirstMin(s.queue, JobKey(st.jobs))];
              var ready := st.time as real + delay;
              && ready > st.time as real
              && r.jobs == st.jobs[j := st.jobs[j].(processStartTime := Some(st.time as real),
                                                     finishTime := Some(ready))]
              && r.servers == st.servers[k := s.(cores := s.cores[c := s.cores[c].(readyTime := ready)],
                                                   queue := r.servers[k].queue)]
              && multiset(r.servers[k].queue) + multiset{j} == multiset(s.queue)
              && |r.servers[k].queue| == |s.queue| - 1
              && Sorted(r.servers[k].queue, JobKey(st.jobs))
  {
    if st.servers[k].cores[c].readyTime < st.time as real && |st.servers[k].queue| > 0 then
      ServeFirst(st, k, c, st.time as real + delay)
    else st
  }

  /** Core `c` of the server at position `k` takes the first job of the
      server's queue and is busy until `ready`. */
  function ServeFirst(st: State, k: nat, c: nat, ready: real): (r: State)
    requires k < |st.servers| && c < |st.servers[k].cores|
    requires InArena(st.servers[k].queue, |st.jobs|) && |st.servers[k].queue| > 0
    ensures var s := st.servers[k];
            var p := FirstMin(s.queue, JobKey(st.jobs));
            && s.queue[p] < |st.jobs|
            && r == st.(jobs := r.jobs, servers := r.servers)
            && |r.servers| == |st.servers|
            && r.jobs == st.jobs[s.queue[p] := st.jobs[s.queue[p]].(processStartTime := Some(st.time as real),
                                                                   finishTime := Some(ready))]
            && r.servers == st.servers[k := s.(cores := s.cores[c := s.cores[c].(readyTime := ready)],
                                                 queue := r.servers[k].queue)]
            && multiset(r.servers[k].queue) + multiset{s.queue[p]} == multiset(s.queue)
            && |r.servers[k].queue| == |s.queue| - 1
            && InArena(r.servers[k].queue, |st.jobs|)
            && Sorted(r.servers[k].queue, JobKey(st.jobs))
    ensures r.servers[k].id == st.servers[k].id && |r.servers[k].cores| == |st.servers[k].cores|
    ensures forall m :: 0 <= m < |st.servers| && m != k ==> r.servers[m] == st.servers[m]
    ensures forall d :: 0 <= d < |st.servers[k].cores| && d != c ==>
              r.servers[k].cores[d] == st.servers[k].cores[d]
  {
    var s := st.servers[k];
    var (j, rest) := PopFirst(s.queue, st.jobs);
    var job := st.jobs[j].(processStartTime := Some(st.time as real), finishTime := Some(ready));
    st.(jobs := st.jobs[j := job],
        servers := st.servers[k := s.(cores := s.cores[c := s.cores[c].(readyTime := ready)], queue := rest)])
  }

  /** The service delays `assign_to_cores` draws: `service(k, c)` for core
      `c` of the server at list position `k`. */
  ghost predicate PositiveDelays(service: (nat, nat) -> real) {
    forall k: nat, c: nat :: service(k, c) > 0.0
  }

  /** How many of the cores from position `from` on went from free (ready
      before `time`) to busy (ready at `time` or later). */
  function BecameBusy(before: seq<Core>, after: seq<Core>, from: nat, time: real): nat
    decreases |before| - from
  {
    if from >= |before| || from >= |after| then 0
    else (if before[from].readyTime < time <= after[from].readyTime then 1 else 0)
         + BecameBusy(before, after, from + 1, time)
  }

  lemma {:induction false} BecameBusyFrame(b1: seq<Core>, b2: seq<Core>, after: seq<Core>, from: nat, time: real)
    requires |b1| == |b2|
    requires forall d :: from <= d < |b1| ==> b1[d] == b2[d]
    ensures BecameBusy(b1, after, from, time) == BecameBusy(b2, after, from, time)
    decreases |b1| - from
  {
    if from < |b1| && from < |after| {
      BecameBusyFrame(b1, b2, after, from + 1, time);
    }
  }

  /** The loop over the cores of the server at position `k`, from core `c`
      on. When it ends, the server's queue is empty or none of these cores
      is free any more, and the queue has lost one job per core that went
      from free to busy. */
  function AssignServer(st: State, k: nat, c: nat, service: (nat, nat) -> real): (r: State)
    requires k < |st.servers| && c <= |st.servers[k].cores|
    requires InArena(st.servers[k].queue, |st.jobs|)
    requires PositiveDelays(service)
    ensures r == st.(jobs := r.jobs, servers := r.servers)
    ensures |r.jobs| == |st.jobs| && |r.servers| == |st.servers|
    ensures InArena(r.servers[k].queue, |r.jobs|)
    ensures r.servers[k].id == st.servers[k].id
    ensures |r.servers[k].cores| == |st.servers[k].cores|
    ensures forall m :: 0 <= m < |st.servers| && m != k ==> r.servers[m] == st.servers[m]
    ensures forall d :: 0 <= d < c ==> r.servers[k].cores[d] == st.servers[k].cores[d]
    ensures forall d :: c <= d < |st.servers[k].cores| ==>
              KeptOrStarted(st.servers[k].cores[d], r.servers[k].cores[d], st.time as real, service(k, d))
    ensures |r.servers[k].queue| <= |st.servers[k].queue|
    decreases |st.servers[k].cores| - c
  {
    if c == |st.servers[k].cores| then st
    else
      var next := AssignCore(st, k, c, service(k, c));
      AssignServer(next, k, c + 1, service)
  }

  /** When the loop over the cores of one server ends, the server's queue is
      empty or none of its cores from `c` on is free any more, and the queue
      has lost one job per core that went from free to busy. */
  lemma {:induction false} AssignServerFillsCores(st: State, k: nat, c: nat, service: (nat, nat) -> real)
    requires k < |st.servers| && c <= |st.servers[k].cores|
    requires InArena(st.servers[k].queue, |st.jobs|)
    requires PositiveDelays(service)
    ensures var r := AssignServer(st, k, c, service);
            && (|r.servers[k].queue| == 0
                || forall d :: c <= d < |st.servers[k].cores| ==> r.servers[k].cores[d].readyTime >= st.time as real)
            && |r.servers[k].queue| + BecameBusy(st.servers[k].cores, r.servers[k].cores, c, st.time as real)
               == |st.servers[k].queue|
    decreases |st.servers[k].cores| - c
  {
    if c < |st.servers[k].cores| {
      assert service(k, c) > 0.0;
      var next := AssignCore(st, k, c, service(k, c));
      var r := AssignServer(next, k, c + 1, service);
      assert r == AssignServer(st, k, c, service);
      AssignServerFillsCores(next, k, c + 1, service);
      CoreThenRest(st.servers[k], next.servers[k], r.servers[k], c, st.time as real);
    }
  }

  /** One core of the loop followed by the rest: if the rest drains the
      queue or fills its cores and loses one job per core it fills, so does
      the whole loop. */
  lemma CoreThenRest(s: Server, next: Server, r: Server, c: nat, time: real)
    requires c < |s.cores| && |next.cores| == |s.cores| && |r.cores| == |s.cores|
    requires forall d :: 0 <= d < |s.cores| && d != c ==> next.cores[d] == s.cores[d]
    requires r.cores[c] == next.cores[c]
    requires next == s
             || (&& s.cores[c].readyTime < time < next.cores[c].readyTime
                 && |next.queue| == |s.queue| - 1)
    requires next == s ==> s.cores[c].readyTime >= time || |s.queue| == 0
    requires |r.queue| <= |next.queue|
    requires |r.queue| == 0 || forall d :: c + 1 <= d < |s.cores| ==> r.cores[d].readyTime >= time
    requires |r.queue| + BecameBusy(next.cores, r.cores, c + 1, time) == |next.queue|
    ensures |r.queue| == 0 || forall d :: c <= d < |s.cores| ==> r.cores[d].readyTime >= time
    ensures |r.queue| + BecameBusy(s.cores, r.cores, c, time) == |s.queue|
  {
    BecameBusyFrame(s.cores, next.cores, r.cores, c + 1, time);
  }

  /** `assign_to_cores`: the loop over the servers in list order, from
      position `k` on. */
  function AssignToCores(st: State, k: nat, service: (nat, nat) -> real): (r: State)
    requires k <= |st.servers|
    requires QueuesInArena(st.servers, |st.jobs|)
    requires PositiveDelays(service)
    ensures r == st.(jobs := r.jobs, servers := r.servers)
    ensures |r.jobs| == |st.jobs| && |r.servers| == |st.servers|
    ensures QueuesInArena(r.servers, |r.jobs|)
    ensures forall m :: 0 <= m < |st.servers| ==>
              r.servers[m].id == st.servers[m].id && |r.servers[m].cores| == |st.servers[m].cores|
    ensures forall m :: 0 <= m < k ==> r.servers[m] == st.servers[m]
    ensures forall m, d :: k <= m < |st.servers| && 0 <= d < |st.servers[m].cores| ==>
              KeptOrStarted(st.servers[m].cores[d], r.servers[m].cores[d], st.time as real, service(m, d))
    decreases |st.servers| - k
  {
    if k == |st.servers| then st
    else
      var next := AssignServer(st, k, 0, service);
      var r := AssignToCores(next, k + 1, service);
      ServersStartedOnce(st.servers, next.servers, r.servers, k, st.time as real, service);
      r
  }

  /** A core is left alone, or it was free at `time` and now serves a job
      until `time + delay` at its own rate. */
  predicate KeptOrStarted(before: Core, after: Core, time: real, delay: real) {
    after == before
    || (before.readyTime < time && after.serviceRate == before.serviceRate
        && after.readyTime == time + delay)
  }

  /** The server at position `k` changed its cores once and the later ones
      once more, so every core from `k` on changed at most once. */
  lemma ServersStartedOnce(a: seq<Server>, b: seq<Server>, c: seq<Server>, k: nat, time: real,
                           service: (nat, nat) -> real)
    requires k < |a| && |b| == |a| && |c| == |a|
    requires forall m :: 0 <= m < |a| && m != k ==> b[m] == a[m]
    requires |b[k].cores| == |a[k].cores| && c[k] == b[k]
    requires forall m :: 0 <= m < |b| ==> |c[m].cores| == |b[m].cores|
    requires forall d :: 0 <= d < |a[k].cores| ==> KeptOrStarted(a[k].cores[d], b[k].cores[d], time, service(k, d))
    requires forall m, d :: k + 1 <= m < |b| && 0 <= d < |b[m].cores| ==>
               KeptOrStarted(b[m].cores[d], c[m].cores[d], time, service(m, d))
    ensures forall m, d :: k <= m < |a| && 0 <= d < |a[m].cores| ==>
              KeptOrStarted(a[m].cores[d], c[m].cores[d], time, service(m, d))
  {
  }

  /** The server at position `k` is done with once the loop has passed it;
      the servers after it start the rest of the loop as they were. */
  lemma ServerFilledStays(st: State, next: State, r: State, k: nat, time: real)
    requires k < |st.servers| && |next.servers| == |st.servers| && |r.servers| == |st.servers|
    requires r.servers[k] == next.servers[k]
    requires forall m :: 0 <= m < |st.servers| && m != k ==> next.servers[m] == st.servers[m]
    requires |next.servers[k].cores| == |st.servers[k].cores|
    requires |next.servers[k].queue| == 0
             || forall d :: 0 <= d < |st.servers[k].cores| ==> next.servers[k].cores[d].readyTime >= time
    requires |next.servers[k].queue| + BecameBusy(st.servers[k].cores, next.servers[k].cores, 0, time)
             == |st.servers[k].queue|
    requires forall m :: k + 1 <= m < |next.servers| ==>
               |r.servers[m].queue| == 0
               || forall d :: 0 <= d < |r.servers[m].cores| ==> r.servers[m].cores[d].readyTime >= time
    requires forall m :: k + 1 <= m < |next.servers| ==>
               |r.servers[m].queue| + BecameBusy(next.servers[m].cores, r.servers[m].cores, 0, time)
               == |next.servers[m].queue|
    ensures forall m :: k <= m < |st.servers| ==>
              |r.servers[m].queue| == 0
              || forall d :: 0 <= d < |r.servers[m].cores| ==> r.servers[m].cores[d].readyTime >= time
    ensures forall m :: k <= m < |st.servers| ==>
              |r.servers[m].queue| + BecameBusy(st.servers[m].cores, r.servers[m].cores, 0, time)
              == |st.servers[m].queue|
  {
  }

  /** After `assign_to_cores`, every server from position `k` on has an
      empty queue or no free core, and its queue has lost one job per core
      that went from free to busy. */
  lemma {:induction false} AssignToCoresFillsCores(st: State, k: nat, service: (nat, nat) -> real)
    requires k <= |st.servers|
    requires QueuesInArena(st.servers, |st.jobs|)
    requires PositiveDelays(service)
    ensures var r := AssignToCores(st, k, service);
            && (forall m :: k <= m < |st.servers| ==>
                  |r.servers[m].queue| == 0
                  || forall d :: 0 <= d < |r.servers[m].cores| ==> r.servers[m].cores[d].readyTime >= st.time as real)
            && (forall m :: k <= m < |st.servers| ==>
                  |r.servers[m].queue| + BecameBusy(st.servers[m].cores, r.servers[m].cores, 0, st.time as real)
                  == |st.servers[m].queue|)
    decreases |st.servers| - k
  {
    if k < |st.servers| {
      var next := AssignServer(st, k, 0, service);
      var r := AssignToCores(next, k + 1, service);
      assert r == AssignToCores(st, k, service);
      AssignServerFillsCores(st, k, 0, service);
      AssignToCoresFillsCores(next, k + 1, service);
      ServerFilledStays(st, next, r, k, st.time as real);
    }
  }

  // ---------------------------------------------------------------------
  // Phase 6: update_queue_lengths

  /** `update_queue_lengths`: history `i` gets the queue length of whichever
      server is at list position `i` now, whatever its id. */
  function UpdateQueueLengths(st: State): (r: State)
    requires |st.serverQueueLengths| == |st.servers|
    ensures r == st.(serverQueueLengths := r.serverQueueLengths,
                     schedulerQueueLengths := r.schedulerQueueLengths)
    ensures |r.serverQueueLengths| == |st.servers|
    ensures forall i :: 0 <= i < |st.servers| ==>
              r.serverQueueLengths[i] == st.serverQueueLengths[i] + [|st.servers[i].queue|]
    ensures r.schedulerQueueLengths == st.schedulerQueueLengths + [|st.scheduler.queue|]
    ensures |r.schedulerQueueLengths| > 0
    ensures forall i :: 0 <= i < |r.serverQueueLengths| ==> |r.serverQueueLengths[i]| > 0
  {
    st.(serverQueueLengths := seq(|st.servers|, i requires 0 <= i < |st.servers| =>
                                    st.serverQueueLengths[i] + [|st.servers[i].queue|]),
        schedulerQueueLengths := st.schedulerQueueLengths + [|st.scheduler.queue|])
  }

  // ---------------------------------------------------------------------
  // Phase 7: gen_report

  function OfKind(kind: int): Job -> bool {
    (j: Job) => j.kind == kind
  }

  /** The jobs of one class, in arena order (`filter(lambda x: x.type == k)`):
      a subsequence of the jobs, all of the class, and as long as the number
      of jobs of the class, so it leaves out no job of the class. */
  function OfClass(jobs: seq<Job>, kind: int): (r: seq<Job>)
    ensures Subsequence(r, jobs)
    ensures |r| == Count(jobs, OfKind(kind))
    ensures forall i :: 0 <= i < |r| ==> r[i].kind == kind && r[i] in jobs
    ensures (exists i :: 0 <= i < |jobs| && jobs[i].kind == kind) ==> |r| > 0
    ensures forall i :: 0 <= i < |jobs| && jobs[i].kind == kind ==> jobs[i] in r
    decreases |jobs|
  {
    if |jobs| == 0 then []
    else
      var rest := OfClass(jobs[1..], kind);
      assert forall i :: 1 <= i < |jobs| ==> jobs[i] == jobs[1..][i - 1];
      if jobs[0].kind == kind then
        assert ([jobs[0]] + rest)[1..] == rest;
        [jobs[0]] + rest
      else rest
  }

  predicate InTwoClasses(jobs: seq<Job>) {
    forall i :: 0 <= i < |jobs| ==> jobs[i].kind == 1 || jobs[i].kind == 2
  }

  /** With every job of class 1 or 2, every job is in exactly one of the
      two class lists, and the sum `report_average_spent_time` divides is
      the sum over class 1 plus the sum over class 2. */
  lemma {:induction false} ClassesSplitSpent(jobs: seq<Job>)
    requires InTwoClasses(jobs)
    requires forall i :: 0 <= i < |jobs| ==> SpentDefined(jobs[i])
    ensures |OfClass(jobs, 1)| + |OfClass(jobs, 2)| == |jobs|
    ensures forall i :: 0 <= i < |OfClass(jobs, 1)| ==> SpentDefined(OfClass(jobs, 1)[i])
    ensures forall i :: 0 <= i < |OfClass(jobs, 2)| ==> SpentDefined(OfClass(jobs, 2)[i])
    ensures SpentTotal(jobs) == SpentTotal(OfClass(jobs, 1)) + SpentTotal(OfClass(jobs, 2))
    decreases |jobs|
  {
    OfClassKeeps(jobs, 1, SpentDefined);
    OfClassKeeps(jobs, 2, SpentDefined);
    if |jobs| > 0 {
      var tail := jobs[1..];
      assert forall i :: 0 <= i < |tail| ==> tail[i] == jobs[i + 1];
      ClassesSplitSpent(tail);
      ConsOfClass(jobs);
    }
  }

  /** The same split for the sum `report_average_wait_time` divides. */
  lemma {:induction false} ClassesSplitWait(jobs: seq<Job>)
    requires InTwoClasses(jobs)
    requires forall i :: 0 <= i < |jobs| ==> WaitDefined(jobs[i])
    ensures forall i :: 0 <= i < |OfClass(jobs, 1)| ==> WaitDefined(OfClass(jobs, 1)[i])
    ensures forall i :: 0 <= i < |OfClass(jobs, 2)| ==> WaitDefined(OfClass(jobs, 2)[i])
    ensures WaitTotal(jobs) == WaitTotal(OfClass(jobs, 1)) + WaitTotal(OfClass(jobs, 2))
    decreases |jobs|
  {
    OfClassKeeps(jobs, 1, WaitDefined);
    OfClassKeeps(jobs, 2, WaitDefined);
    if |jobs| > 0 {
      var tail := jobs[1..];
      assert forall i :: 0 <= i < |tail| ==> tail[i] == jobs[i + 1];
      ClassesSplitWait(tail);
      ConsOfClass(jobs);
    }
  }

  /** The first job goes to the list of its class; the other list is that
      of the rest. */
  lemma ConsOfClass(jobs: seq<Job>)
    requires |jobs| > 0 && (jobs[0].kind == 1 || jobs[0].kind == 2)
    ensures var one := OfClass(jobs[1..], 1);
            var two := OfClass(jobs[1..], 2);
            if jobs[0].kind == 1
            then OfClass(jobs, 1) == [jobs[0]] + one && OfClass(jobs, 2) == two
                 && ([jobs[0]] + one)[1..] == one
            else OfClass(jobs, 2) == [jobs[0]] + two && OfClass(jobs, 1) == one
                 && ([jobs[0]] + two)[1..] == two
  {
  }

  /** Whatever holds of every job holds of every job of one class. */
  lemma {:induction false} OfClassKeeps(jobs: seq<Job>, kind: int, p: Job -> bool)
    ensures (forall i :: 0 <= i < |jobs| ==> p(jobs[i])) ==>
              forall i :: 0 <= i < |OfClass(jobs, kind)| ==> p(OfClass(jobs, kind)[i])
  {
    if |jobs| > 0 {
      assert forall i :: 1 <= i < |jobs| ==> jobs[i] == jobs[1..][i - 1];
      OfClassKeeps(jobs[1..], kind, p);
      var rest := OfClass(jobs[1..], kind);
      if jobs[0].kind == kind {
        assert forall i :: 1 <= i < |rest| + 1 ==> ([jobs[0]] + rest)[i] == rest[i - 1];
      }
    }
  }

  predicate HasClass(jobs: seq<Job>, kind: int) {
    exists i :: 0 <= i < |jobs| && jobs[i].kind == kind
  }

  /** What the report functions read of a job is set. */
  predicate Reportable(jobs: seq<Job>) {
    forall i :: 0 <= i < |jobs| ==> SpentDefined(jobs[i]) && WaitDefined(jobs[i])
  }

  /** The three job figures of a report for one group of jobs: average
      time in the system, average wait, and the share of expired jobs. */
  datatype Figures = Figures(avgSpent: real, avgWait: real, rateExpired: real)

  function GroupFigures(jobs: seq<Job>): (f: Figures)
    requires |jobs| > 0
    requires Reportable(jobs)
    ensures 0.0 <= f.rateExpired <= 1.0
    ensures (forall i :: 0 <= i < |jobs| ==> TimesAfterStart(jobs[i])) ==>
              0.0 <= f.avgWait <= f.avgSpent
  {
    WaitAtMostSpentWhenOrdered(jobs);
    Figures(AverageSpentTime(jobs), AverageWaitTime(jobs), RateOfExpired(jobs))
  }

  lemma WaitAtMostSpentWhenOrdered(jobs: seq<Job>)
    requires |jobs| > 0
    requires Reportable(jobs)
    ensures (forall i :: 0 <= i < |jobs| ==> TimesAfterStart(jobs[i])) ==>
              AverageWaitTime(jobs) <= AverageSpentTime(jobs)
  {
    if forall i :: 0 <= i < |jobs| ==> TimesAfterStart(jobs[i]) {
      WaitAtMostSpent(jobs);
    }
  }

  /** The figures of the jobs of one class (the `t1` and `t2` lists of
      `gen_report`). */
  function ClassFigures(jobs: seq<Job>, kind: int): (f: Figures)
    requires HasClass(jobs, kind)
    requires Reportable(jobs)
    ensures |OfClass(jobs, kind)| > 0 && Reportable(OfClass(jobs, kind))
    ensures f == GroupFigures(OfClass(jobs, kind))
    ensures (forall i :: 0 <= i < |jobs| ==> TimesAfterStart(jobs[i])) ==>
              0.0 <= f.avgWait <= f.avgSpent
  {
    var defined := (j: Job) => SpentDefined(j) && WaitDefined(j);
    OfClassKeeps(jobs, kind, defined);
    OfClassKeeps(jobs, kind, TimesAfterStart);
    GroupFigures(OfClass(jobs, kind))
  }

  /** The mean length of every recorded server queue history. */
  function HistoryMeans(lengths: seq<seq<nat>>): (r: seq<real>)
    requires forall i :: 0 <= i < |lengths| ==> |lengths[i]| > 0
    ensures |r| == |lengths|
    ensures forall i :: 0 <= i < |lengths| ==>
              Min(lengths[i]) as real <= r[i] <= Max(lengths[i]) as real
    ensures forall i :: 0 <= i < |lengths| ==> r[i] == MeanQueueLength(lengths[i])
  {
    seq(|lengths|, i requires 0 <= i < |lengths| => MeanQueueLength(lengths[i]))
  }

  /** The report of `gen_report`. The source divides by the number of jobs
      of each class, so both classes must be present. */
  function MakeReport(st: State): (rep: Report)
    requires HasClass(st.jobs, 1) && HasClass(st.jobs, 2)
    requires Reportable(st.jobs)
    requires |st.schedulerQueueLengths| > 0
    requires forall i :: 0 <= i < |st.serverQueueLengths| ==> |st.serverQueueLengths[i]| > 0
    ensures |rep.avgServerQueueLens| == |st.serverQueueLengths|
    ensures 0.0 <= rep.rateExpiredTot <= 1.0 && 0.0 <= rep.rateExpiredT1 <= 1.0
            && 0.0 <= rep.rateExpiredT2 <= 1.0
    ensures Min(st.schedulerQueueLengths) as real <= rep.avgSchedulerQueueLen
            <= Max(st.schedulerQueueLengths) as real
    ensures forall i :: 0 <= i < |st.serverQueueLengths| ==>
              Min(st.serverQueueLengths[i]) as real <= rep.avgServerQueueLens[i]
              <= Max(st.serverQueueLengths[i]) as real
    ensures Figures(rep.avgSpentTot, rep.avgWaitTot, rep.rateExpiredTot) == GroupFigures(st.jobs)
    ensures |OfClass(st.jobs, 1)| > 0 && Reportable(OfClass(st.jobs, 1))
    ensures Figures(rep.avgSpentT1, rep.avgWaitT1, rep.rateExpiredT1) == GroupFigures(OfClass(st.jobs, 1))
    ensures |OfClass(st.jobs, 2)| > 0 && Reportable(OfClass(st.jobs, 2))
    ensures Figures(rep.avgSpentT2, rep.avgWaitT2, rep.rateExpiredT2) == GroupFigures(OfClass(st.jobs, 2))
    ensures rep.avgSchedulerQueueLen == MeanQueueLength(st.schedulerQueueLengths)
    ensures rep.avgServerQueueLens == HistoryMeans(st.serverQueueLengths)
    ensures (forall i :: 0 <= i < |st.jobs| ==> TimesAfterStart(st.jobs[i])) ==>
              && 0.0 <= rep.avgWaitTot <= rep.avgSpentTot
              && 0.0 <= rep.avgWaitT1 <= rep.avgSpentT1
              && 0.0 <= rep.avgWaitT2 <= rep.avgSpentT2
  {
    var all := GroupFigures(st.jobs);
    var one := ClassFigures(st.jobs, 1);
    var two := ClassFigures(st.jobs, 2);
    Report(all.avgSpent, one.avgSpent, two.avgSpent,
           all.avgWait, one.avgWait, two.avgWait,
           all.rateExpired, one.rateExpired, two.rateExpired,
           MeanQueueLength(st.schedulerQueueLengths),
           HistoryMeans(st.serverQueueLengths))
  }

  // ---------------------------------------------------------------------
  // Initial state

  /** `get_poisson_sample`: arrival times are the running sums of the
      inter-arrival draws. */
  function ArrivalTimes(gaps: seq<real>): (r: seq<real>)
    ensures |r| == |gaps|
    ensures |gaps| > 0 ==> r[0] == gaps[0]
    ensures forall i :: 0 < i < |gaps| ==> r[i] == r[i - 1] + gaps[i]
    ensures (forall i :: 0 <= i < |gaps| ==> gaps[i] > 0.0) ==>
              (forall i :: 0 <= i < |r| ==> r[i] > 0.0) && (forall i, j :: 0 <= i < j < |r| ==> r[i] < r[j])
    decreases |gaps|
  {
    if |gaps| == 0 then []
    else
      var prefix := ArrivalTimes(gaps[..|gaps| - 1]);
      assert forall i :: 0 <= i < |gaps| - 1 ==> gaps[..|gaps| - 1][i] == gaps[i];
      if |prefix| == 0 then [gaps[0]] else prefix + [prefix[|prefix| - 1] + gaps[|gaps| - 1]]
  }

  /** `init_jobs`: job `i` has class 2 when `coins[i]` (the Bernoulli draw
      `get_bernouli(1 - CLASS_ONE_RATIO)` came out 1) and class 1
      otherwise, its arrival time from the running sums of `gaps`, and its
      deadline `offsets[i]` after its arrival. */
  function InitJobs(gaps: seq<real>, offsets: seq<real>, coins: seq<bool>): (jobs: seq<Job>)
    requires |gaps| == JOB_COUNT && |offsets| == JOB_COUNT && |coins| == JOB_COUNT
    ensures |jobs| == JOB_COUNT
    ensures forall i :: 0 <= i < |jobs| ==>
              && StageOf(jobs[i]) == Pending
              && jobs[i].id == i
              && jobs[i].kind == (if coins[i] then 2 else 1)
              && jobs[i].deadline == jobs[i].startTime + offsets[i]
              && jobs[i].finishTime.None? && jobs[i].processStartTime.None?
              && jobs[i].processServerId.None?
              && !jobs[i].isDone && !jobs[i].expired
    ensures jobs[0].startTime == gaps[0]
    ensures forall i :: 0 < i < |jobs| ==> jobs[i].startTime == jobs[i - 1].startTime + gaps[i]
  {
    PendingJobs(ArrivalTimes(gaps), offsets, coins)
  }

  /** The jobs of `init_jobs` for given arrival times. */
  function PendingJobs(starts: seq<real>, offsets: seq<real>, coins: seq<bool>): (jobs: seq<Job>)
    requires |starts| == |offsets| == |coins|
    ensures |jobs| == |starts|
    ensures forall i :: 0 <= i < |jobs| ==>
              jobs[i] == NewJob(i, if coins[i] then 2 else 1, starts[i], starts[i] + offsets[i])
  {
    seq(|starts|, i requires 0 <= i < |starts| =>
          NewJob(i, if coins[i] then 2 else 1, starts[i], starts[i] + offsets[i]))
  }

  /** With positive inter-arrival gaps, jobs arrive in id order, strictly. */
  lemma InitJobsArriveInOrder(gaps: seq<real>, offsets: seq<real>, coins: seq<bool>)
    requires |gaps| == JOB_COUNT && |offsets| == JOB_COUNT && |coins| == JOB_COUNT
    requires forall i :: 0 <= i < |gaps| ==> gaps[i] > 0.0
    ensures var jobs := InitJobs(gaps, offsets, coins);
            && (forall i :: 0 <= i < |jobs| ==> jobs[i].startTime > 0.0)
            && forall i, j :: 0 <= i < j < |jobs| ==> jobs[i].startTime < jobs[j].startTime
  {
    var jobs := InitJobs(gaps, offsets, coins);
    var starts := ArrivalTimes(gaps);
    forall i | 0 <= i < |jobs| ensures jobs[i].startTime == starts[i] {
      StartsAreArrivals(jobs, gaps, starts, i);
    }
  }

  lemma {:induction false} StartsAreArrivals(jobs: seq<Job>, gaps: seq<real>, starts: seq<real>, i: nat)
    requires |jobs| == |gaps| == |starts| && i < |jobs|
    requires jobs[0].startTime == gaps[0] && starts[0] == gaps[0]
    requires forall k :: 0 < k < |jobs| ==> jobs[k].startTime == jobs[k - 1].startTime + gaps[k]
    requires forall k :: 0 < k < |gaps| ==> starts[k] == starts[k - 1] + gaps[k]
    ensures jobs[i].startTime == starts[i]
  {
    if i > 0 {
      StartsAreArrivals(jobs, gaps, starts, i - 1);
    }
  }

  /** The servers of the input file: server `i` has the cores whose rates
      are listed on its line. */
  function InitServers(coreRates: seq<seq<real>>): (servers: seq<Server>)
    ensures |servers| == |coreRates|
    ensures forall i :: 0 <= i < |servers| ==>
              servers[i].id == i && |servers[i].queue| == 0 && |servers[i].cores| == |coreRates[i]|
              && forall c :: 0 <= c < |coreRates[i]| ==>
                   servers[i].cores[c].readyTime == 0.0 && servers[i].cores[c].serviceRate == coreRates[i][c]
  {
    seq(|coreRates|, i requires 0 <= i < |coreRates| => NewServer(i, coreRates[i]))
  }

  /** `Simulator.__init__` after parsing: clock at -1, counters at 0, no
      anchor, empty histories. */
  function InitialState(coreRates: seq<seq<real>>, schedulerRate: real, jobs: seq<Job>): (st: State)
    ensures st.time == -1 && st.started == 0 && st.finished == 0 && st.anchor.None?
    ensures st.jobs == jobs
    ensures st.scheduler == NewScheduler(schedulerRate)
    ensures |st.servers| == |coreRates| && |st.serverQueueLengths| == |coreRates|
    ensures forall i :: 0 <= i < |coreRates| ==> st.serverQueueLengths[i] == []
    ensures st.schedulerQueueLengths == [] && st.reports == []
  {
    State(-1, jobs, NewScheduler(schedulerRate), InitServers(coreRates), 0, 0, None,
          seq(|coreRates|, i => []), [], [])
  }
}
