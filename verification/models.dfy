/** The records of the simulator (`Job`, `Server.Core`, `Server`, `Scheduler`)
    and the dispatch rule `Scheduler.schedule`.

    Jobs live in one arena (`seq<Job>`, position = job id); the scheduler's
    and the servers' queues hold arena positions, so a change to a job is
    seen through every queue that refers to it. */
module Models {
  import opened Optional
  import opened Sorting
  import opened Collections

  /** A job. `kind` is the job's class (1 or 2, the source's `type`); the
      optional timestamps are `None` until set. `expiredTime` starts at 0,
      not `None`. */
  datatype Job = Job(
    id: nat,
    kind: int,
    startTime: real,
    deadline: real,
    processStartTime: Option<real>,
    scheduleTime: Option<real>,
    finishTime: Option<real>,
    processServerId: Option<nat>,
    isActive: bool,
    isDone: bool,
    expired: bool,
    expiredTime: real)

  /** Where a job is in its lifecycle. The source keeps this implicit in its
      flags and timestamps; `StageOf` reads it off them. */
  datatype Stage = Pending | AtScheduler | AtServer | InService | Done | Expired

  function StageOf(j: Job): Stage {
    if !j.isActive then Pending
    else if j.expired then Expired
    else if j.isDone then Done
    else if j.finishTime.Some? then InService
    else if j.processServerId.Some? then AtServer
    else AtScheduler
  }

  /** One lifecycle transition: admission, dispatch, assignment to a core,
      completion, or expiry while still queued. */
  predicate Step(a: Stage, b: Stage) {
    || (a == Pending && b == AtScheduler)
    || (a == AtScheduler && b == AtServer)
    || (a == AtServer && b == InService)
    || (a == InService && b == Done)
    || ((a == AtScheduler || a == AtServer) && b == Expired)
  }

  /** Zero or more lifecycle transitions. */
  predicate Reaches(a: Stage, b: Stage) {
    || a == b
    || (a == Pending && b != Pending)
    || (a == AtScheduler && b in {AtServer, InService, Done, Expired})
    || (a == AtServer && b in {InService, Done, Expired})
    || (a == InService && b == Done)
  }

  predicate Terminal(s: Stage) {
    s == Done || s == Expired
  }

  /** `Reaches` is exactly the reflexive-transitive closure of `Step`: it
      contains every step, it composes, and every proper reach starts with a
      step. Terminal stages reach nothing else. */
  lemma ReachesIsClosureOfStep(a: Stage, b: Stage, c: Stage)
    ensures Step(a, b) ==> Reaches(a, b)
    ensures Reaches(a, b) && Reaches(b, c) ==> Reaches(a, c)
    ensures Reaches(a, b) && a != b ==> exists m :: Step(a, m) && Reaches(m, b)
    ensures Terminal(a) && Reaches(a, b) ==> a == b
  {
    if Reaches(a, b) && a != b {
      var m := match a
        case Pending => AtScheduler
        case AtScheduler => if b == Expired then Expired else AtServer
        case AtServer => if b == Expired then Expired else InService
        case _ => Done;
      assert Step(a, m) && Reaches(m, b);
    }
  }

  /** A job as `init_jobs` creates it. */
  function NewJob(id: nat, kind: int, startTime: real, deadline: real): (j: Job)
    ensures StageOf(j) == Pending
    ensures j.id == id && j.kind == kind && j.startTime == startTime && j.deadline == deadline
    ensures !j.isDone && !j.expired && j.expiredTime == 0.0
    ensures j.processStartTime.None? && j.scheduleTime.None?
    ensures j.finishTime.None? && j.processServerId.None?
  {
    Job(id, kind, startTime, deadline, None, None, None, None, false, false, false, 0.0)
  }

  /** One core of a server: its service rate and the time it is busy until. */
  datatype Core = Core(serviceRate: real, readyTime: real)

  /** A server: its id, its cores and the queue of jobs waiting for a core. */
  datatype Server = Server(id: nat, cores: seq<Core>, queue: seq<nat>)

  /** The dispatcher: its service rate, its pacing clock and its queue. The
      source's scheduler also holds the very list of servers the simulator
      holds; here that list lives once, in the simulator state. */
  datatype Scheduler = Scheduler(serviceRate: real, readyTime: real, queue: seq<nat>)

  function NewServer(id: nat, coreRates: seq<real>): (s: Server)
    ensures s.id == id && |s.queue| == 0 && |s.cores| == |coreRates|
    ensures forall c :: 0 <= c < |s.cores| ==>
              s.cores[c].serviceRate == coreRates[c] && s.cores[c].readyTime == 0.0
  {
    Server(id, seq(|coreRates|, c requires 0 <= c < |coreRates| => Core(coreRates[c], 0.0)), [])
  }

  function NewScheduler(serviceRate: real): (s: Scheduler)
    ensures s.serviceRate == serviceRate && s.readyTime == 0.0 && |s.queue| == 0
  {
    Scheduler(serviceRate, 0.0, [])
  }

  /** Every entry of queue `q` is a position of an arena of `n` jobs. */
  predicate InArena(q: seq<nat>, n: nat) {
    forall p :: 0 <= p < |q| ==> q[p] < n
  }

  /** Taking one entry out of a queue leaves the rest in the arena. */
  lemma RemainderInArena(a: seq<nat>, x: nat, b: seq<nat>, n: nat)
    requires multiset(a) + multiset{x} == multiset(b)
    requires InArena(b, n)
    ensures InArena(a, n)
  {
    forall p | 0 <= p < |a| ensures a[p] < n {
      assert a[p] in multiset(b);
    }
  }

  /** The order in which queued jobs are served: class first, then start
      time (`key=lambda x: (x.type, x.start_time)`). */
  function JobKey(jobs: seq<Job>): nat -> SortKey {
    (i: nat) => if i < |jobs| then SortKey(jobs[i].kind, jobs[i].startTime) else SortKey(0, 0.0)
  }

  /** Sort a queue by `JobKey` and take its head: the job served next and
      the rest of the queue, left in sorted order (the source sorts the
      queue in place and pops index 0). Jobs of equal key keep their queue
      order, so head and rest together are the stable sort of the queue. */
  function PopFirst(q: seq<nat>, jobs: seq<Job>): (r: (nat, seq<nat>))
    requires |q| > 0
    requires InArena(q, |jobs|)
    ensures r.0 == q[FirstMin(q, JobKey(jobs))] && r.0 < |jobs|
    ensures multiset(r.1) + multiset{r.0} == multiset(q)
    ensures |r.1| == |q| - 1
    ensures InArena(r.1, |jobs|)
    ensures Sorted(r.1, JobKey(jobs))
    ensures forall k :: WithKey([r.0] + r.1, JobKey(jobs), k) == WithKey(q, JobKey(jobs), k)
  {
    var s := SortBy(q, JobKey(jobs));
    SortIsStable(q, JobKey(jobs));
    assert s == [s[0]] + s[1..];
    assert Sorted(s[1..], JobKey(jobs)) by {
      forall a, b | 0 <= a < b < |s| - 1
        ensures LessEq(JobKey(jobs)(s[1..][a]), JobKey(jobs)(s[1..][b]))
      {
        assert s[1..][a] == s[a + 1] && s[1..][b] == s[b + 1];
      }
    }
    RemainderInArena(s[1..], s[0], q, |jobs|);
    (s[0], s[1..])
  }

  /** The order in which servers are tried: shortest queue first, ties broken
      by a uniform draw made for each server (`tiebreak` maps a server's id to
      its draw). */
  function ServerKey(tiebreak: nat -> real): Server -> SortKey {
    (s: Server) => SortKey(|s.queue|, tiebreak(s.id))
  }

  /** What one dispatch leaves behind. */
  datatype Dispatch = Dispatch(jobs: seq<Job>, scheduler: Scheduler, servers: seq<Server>)

  /** `Scheduler.schedule`: sort the scheduler queue, sort the server list,
      move the head job to the head server's queue and advance the pacing
      clock by `delay`. Both sorts are in place: the scheduler keeps its
      queue in sorted order and the server list comes back reordered. */
  function Schedule(sch: Scheduler, servers: seq<Server>, jobs: seq<Job>, time: int,
                    delay: real, tiebreak: nat -> real): (r: Dispatch)
    requires InArena(sch.queue, |jobs|)
    requires |servers| > 0
    requires delay > 0.0
    ensures |sch.queue| == 0 ==> r == Dispatch(jobs, sch, servers)
    ensures |sch.queue| > 0 ==>
              var j := sch.queue[FirstMin(sch.queue, JobKey(jobs))];
              var m := FirstMin(servers, ServerKey(tiebreak));
              && (forall s: Server :: s in servers ==> |servers[m].queue| <= |s.queue|)
              && |r.servers| == |servers|
              && r.servers[0] == servers[m].(queue := servers[m].queue + [j])
              && multiset(r.servers[1..]) + multiset{servers[m]} == multiset(servers)
              && Sorted(r.servers[0 := servers[m]], ServerKey(tiebreak))
              && (forall k :: WithKey(r.servers[0 := servers[m]], ServerKey(tiebreak), k)
                              == WithKey(servers, ServerKey(tiebreak), k))
              && multiset(r.scheduler.queue) + multiset{j} == multiset(sch.queue)
              && Sorted(r.scheduler.queue, JobKey(jobs))
              && (forall k :: WithKey([j] + r.scheduler.queue, JobKey(jobs), k) == WithKey(sch.queue, JobKey(jobs), k))
              && r.scheduler.serviceRate == sch.serviceRate
              && r.scheduler.readyTime == sch.readyTime + delay
              && r.scheduler.readyTime > sch.readyTime
              && r.jobs == jobs[j := jobs[j].(scheduleTime := Some(time as real),
                                              processServerId := Some(servers[m].id))]
  {
    if |sch.queue| == 0 then Dispatch(jobs, sch, servers)
    else
      var (j, rest) := PopFirst(sch.queue, jobs);
      var target := servers[FirstMin(servers, ServerKey(tiebreak))];
      var job := jobs[j].(scheduleTime := Some(time as real), processServerId := Some(target.id));
      Dispatch(jobs[j := job],
               Scheduler(sch.serviceRate, sch.readyTime + delay, rest),
               PlaceOnShortest(servers, j, tiebreak))
  }

  /** Sort the server list by `ServerKey` and append job `j` to the queue of
      the server that comes first; the others follow in sorted order. */
  function PlaceOnShortest(servers: seq<Server>, j: nat, tiebreak: nat -> real): (r: seq<Server>)
    requires |servers| > 0
    ensures var m := FirstMin(servers, ServerKey(tiebreak));
            && (forall s: Server :: s in servers ==> |servers[m].queue| <= |s.queue|)
            && |r| == |servers|
            && r[0] == servers[m].(queue := servers[m].queue + [j])
            && multiset(r[1..]) + multiset{servers[m]} == multiset(servers)
            && Sorted(r[0 := servers[m]], ServerKey(tiebreak))
            && forall k :: WithKey(r[0 := servers[m]], ServerKey(tiebreak), k)
                           == WithKey(servers, ServerKey(tiebreak), k)
  {
    var svs := SortBy(servers, ServerKey(tiebreak));
    SortedHeadIsLeast(servers, ServerKey(tiebreak));
    SortIsStable(servers, ServerKey(tiebreak));
    var r := svs[0 := svs[0].(queue := svs[0].queue + [j])];
    assert svs == [svs[0]] + svs[1..];
    assert r[1..] == svs[1..];
    assert r[0 := svs[0]] == svs;
    r
  }

  /** A dispatch leaves the scheduler queue inside the arena. */
  lemma ScheduleKeepsArena(sch: Scheduler, servers: seq<Server>, jobs: seq<Job>, time: int,
                           delay: real, tiebreak: nat -> real)
    requires InArena(sch.queue, |jobs|)
    requires |servers| > 0
    requires delay > 0.0
    ensures var r := Schedule(sch, servers, jobs, time, delay, tiebreak);
            InArena(r.scheduler.queue, |r.jobs|)
  {
    if |sch.queue| > 0 {
      var r := Schedule(sch, servers, jobs, time, delay, tiebreak);
      var j := sch.queue[FirstMin(sch.queue, JobKey(jobs))];
      RemainderInArena(r.scheduler.queue, j, sch.queue, |jobs|);
    }
  }

  /** The dispatched job has the least class of all queued jobs: a class-1
      job is always dispatched before any class-2 job, whatever their order
      in the queue. Among jobs of the least class it has the earliest start
      time, and among those it is the first in queue order. */
  lemma DispatchPicksLeastClass(sch: Scheduler, jobs: seq<Job>, x: nat)
    requires InArena(sch.queue, |jobs|)
    requires x in sch.queue
    ensures var j := sch.queue[FirstMin(sch.queue, JobKey(jobs))];
            && jobs[j].kind <= jobs[x].kind
            && (jobs[j].kind == jobs[x].kind ==> jobs[j].startTime <= jobs[x].startTime)
  {
    var k := FirstMin(sch.queue, JobKey(jobs));
    var p :| 0 <= p < |sch.queue| && sch.queue[p] == x;
    assert LessEq(JobKey(jobs)(sch.queue[k]), JobKey(jobs)(sch.queue[p]));
  }

  /** Ties among the shortest queues are broken by the draws alone: for every
      server whose queue is as short as any, some draws send the job there. */
  lemma AnyShortestServerCanBeChosen(servers: seq<Server>, m: nat)
    requires m < |servers|
    requires forall a, b :: 0 <= a < b < |servers| ==> servers[a].id != servers[b].id
    requires forall s: Server :: s in servers ==> |servers[m].queue| <= |s.queue|
    ensures exists tiebreak: nat -> real :: FirstMin(servers, ServerKey(tiebreak)) == m
  {
    var tiebreak: nat -> real := id => if id == servers[m].id then 0.0 else 1.0;
    var key := ServerKey(tiebreak);
    forall j | 0 <= j < |servers| && j != m
      ensures Less(key(servers[m]), key(servers[j]))
    {
      assert servers[j] in servers;
      assert servers[j].id != servers[m].id;
    }
    assert IsFirstMinimal(servers, key, m);
    FirstMinimalUnique(servers, key, m, FirstMin(servers, key));
  }
}
