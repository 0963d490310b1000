/** The main loop `Simulator.run`: each tick advances the clock, runs the
    phases in order, samples the queue lengths, appends a report, and then
    `check_finish_criteria` decides whether to stop. */
module Engine {
  import opened Optional
  import opened Collections
  import opened Models
  import opened Reports
  import opened Convergence
  import opened Simulator
  import opened Invariants
  import opened Loops

  // ---------------------------------------------------------------------
  // One tick

  /** The random draws of one tick: those of `schedule_jobs` (one per call
      of `Scheduler.schedule`) and those of `assign_to_cores` (one per
      server position and core). */
  datatype TickDraws = TickDraws(dispatch: nat -> DispatchDraw, service: (nat, nat) -> real)

  /** Exponential draws are positive. */
  ghost predicate DrawsOk(d: TickDraws) {
    && (forall k: nat :: d.dispatch(k).delay > 0.0)
    && PositiveDelays(d.service)
  }

  /** Every tick's draws are admissible. */
  ghost predicate AllDrawsOk(draws: seq<TickDraws>) {
    forall k :: 0 <= k < |draws| ==> DrawsOk(draws[k])
  }

  /** Both job classes occur (the report divides by the size of each). */
  predicate BothClasses(jobs: seq<Job>) {
    HasClass(jobs, 1) && HasClass(jobs, 2)
  }

  /** The clock advance and the five phases that change jobs and queues,
      in the order `run` calls them. */
  function Phases(st: State, d: TickDraws): (r: State)
    requires Valid(st)
    requires DrawsOk(d)
    ensures Valid(r) && Fixed(st.jobs, r.jobs) && Advances(st.jobs, r.jobs)
    ensures r.time == st.time + TIME_STEP
    ensures r.anchor == st.anchor && r.reports == st.reports
    ensures r.serverQueueLengths == st.serverQueueLengths
    ensures r.schedulerQueueLengths == st.schedulerQueueLengths
  {
    var s0 := st.(time := st.time + TIME_STEP);
    AdvanceKeepsValid(st, s0.time);
    var s1 := RemoveExpiredJobs(s0);
    RemoveExpiredKeepsValid(s0);
    var s2 := FinishDoneJobs(s1);
    FinishDoneKeepsValid(s1);
    var s3 := AddNewJobs(s2);
    AddNewKeepsValid(s2);
    var s4 := ScheduleJobs(s3, d.dispatch, 0);
    ScheduleJobsKeepsValid(s3, d.dispatch, 0);
    var s5 := AssignToCores(s4, 0, d.service);
    AssignToCoresKeepsValid(s4, 0, d.service);
    PhasesAdvance(s0.jobs, s1.jobs, s2.jobs, s3.jobs, s4.jobs, s5.jobs);
    s5
  }

  /** Chains the per-phase guarantees over the five phases. */
  lemma PhasesAdvance(a: seq<Job>, b: seq<Job>, c: seq<Job>, d: seq<Job>, e: seq<Job>, f: seq<Job>)
    requires Fixed(a, b) && StepsOnce(a, b)
    requires Fixed(b, c) && StepsOnce(b, c)
    requires Fixed(c, d) && StepsOnce(c, d)
    requires Fixed(d, e) && Advances(d, e)
    requires Fixed(e, f) && Advances(e, f)
    ensures Fixed(a, f) && Advances(a, f)
  {
    StepsOnceAdvances(a, b);
    StepsOnceAdvances(b, c);
    StepsOnceAdvances(c, d);
    FixedTransitive(a, b, c);
    FixedTransitive(a, c, d);
    FixedTransitive(a, d, e);
    FixedTransitive(a, e, f);
    AdvancesTransitive(a, b, c);
    AdvancesTransitive(a, c, d);
    AdvancesTransitive(a, d, e);
    AdvancesTransitive(a, e, f);
  }

  /** Jobs keep their class, so a class present stays present. */
  lemma FixedKeepsClasses(a: seq<Job>, b: seq<Job>)
    requires Fixed(a, b)
    ensures BothClasses(a) ==> BothClasses(b)
  {
    if BothClasses(a) {
      var i :| 0 <= i < |a| && a[i].kind == 1;
      var j :| 0 <= j < |a| && a[j].kind == 2;
      assert b[i].kind == 1 && b[j].kind == 2;
    }
  }

  /** Recording queue lengths and reports, and moving the anchor, touch
      nothing the invariant reads. */
  lemma HistoriesKeepValid(st: State, r: State)
    requires Valid(st)
    requires r == st.(serverQueueLengths := r.serverQueueLengths,
                      schedulerQueueLengths := r.schedulerQueueLengths, reports := r.reports,
                      anchor := r.anchor)
    requires |r.serverQueueLengths| == |st.servers|
    ensures Valid(r)
  {
  }

  /** The body of the `while True` loop of `run` up to `gen_report`. */
  function Tick(st: State, d: TickDraws): (r: State)
    requires Valid(st) && BothClasses(st.jobs)
    requires DrawsOk(d)
    ensures Valid(r) && BothClasses(r.jobs)
    ensures Fixed(st.jobs, r.jobs) && Advances(st.jobs, r.jobs)
    ensures r.time == st.time + TIME_STEP
    ensures r.anchor == st.anchor
    ensures |r.reports| == |st.reports| + 1 && r.reports[..|st.reports|] == st.reports
    ensures |r.schedulerQueueLengths| == |st.schedulerQueueLengths| + 1
    ensures |r.reports[|st.reports|].avgServerQueueLens| == |r.servers|
  {
    var s5 := Phases(st, d);
    var s6 := UpdateQueueLengths(s5);
    HistoriesKeepValid(s5, s6);
    FixedKeepsClasses(st.jobs, s6.jobs);
    ValidJobsReportable(s6);
    var r := s6.(reports := s6.reports + [MakeReport(s6)]);
    HistoriesKeepValid(s5, r);
    r
  }

  // ---------------------------------------------------------------------
  // check_finish_criteria

  /** What `get_accuracy` computes from the reports of a window: for each
      key of the newest report the mean and deviation of its values, and
      `1.96 / sqrt(n)` for a window of `n` reports. */
  datatype Window = Window(stats: seq<KeyStat>, scale: real)

  /** The decision of `check_finish_criteria` and the anchor that the call
      of `get_accuracy` inside it leaves behind. */
  datatype Verdict = Verdict(stop: bool, accuracy: real, anchor: Option<int>)

  /** `check_finish_criteria`: the accuracy gate, or every job finished.
      `measure(reports, start)` stands for the statistics of
      `reports[start:]`; the anchor is fixed before they are read. */
  function CheckFinishCriteria(st: State, measure: (seq<Report>, int) -> Window): (v: Verdict)
    ensures st.finished == JOB_COUNT ==> v.stop
    ensures st.started <= INITIAL_COUNT ==> v.anchor == st.anchor && (v.stop <==> st.finished == JOB_COUNT)
    ensures st.started > INITIAL_COUNT ==> v.anchor.Some?
    ensures st.anchor.Some? && st.anchor.value != 0 ==> v.anchor == st.anchor
    ensures v.stop <==> Converged(st.(anchor := v.anchor), measure)
  {
    var a := Accuracy(st.started, st.anchor, |st.reports|, [], 1.0).anchor;
    var w := if a.Some? then measure(st.reports, a.value) else Window([], 1.0);
    var g := Accuracy(st.started, st.anchor, |st.reports|, w.stats, w.scale);
    AccurateIffConverged(st.started, st.anchor, |st.reports|, w.stats, w.scale);
    Verdict(g.accuracy >= MIN_ACCURACY || st.finished == JOB_COUNT, g.accuracy, g.anchor)
  }

  /** The stop condition `run` breaks on, read off the state the check
      leaves: every job finished, or the warm-up is over, the window from
      the anchor holds at least two reports, and every key's relative error
      over it is at most `1 - MIN_ACCURACY`. */
  ghost predicate Converged(st: State, measure: (seq<Report>, int) -> Window) {
    || st.finished == JOB_COUNT
    || (&& st.started > INITIAL_COUNT
        && st.anchor.Some?
        && WindowLength(|st.reports|, st.anchor.value) >= 2
        && var w := measure(st.reports, st.anchor.value);
           forall k :: 0 <= k < |w.stats| ==> KeyError(w.stats[k], w.scale) <= 1.0 - MIN_ACCURACY)
  }

  // ---------------------------------------------------------------------
  // run

  /** One pass of the `while True` loop: a tick, then
      `check_finish_criteria`, which may move the anchor. The flag says
      whether the loop breaks. */
  function Iteration(st: State, d: TickDraws, measure: (seq<Report>, int) -> Window): (r: (State, bool))
    requires Valid(st) && BothClasses(st.jobs)
    requires DrawsOk(d)
    ensures Valid(r.0) && BothClasses(r.0.jobs)
    ensures Fixed(st.jobs, r.0.jobs) && Advances(st.jobs, r.0.jobs)
    ensures r.0.time == st.time + TIME_STEP
    ensures |r.0.reports| == |st.reports| + 1
    ensures r.1 <==> Converged(r.0, measure)
    ensures st.anchor.Some? && st.anchor.value != 0 ==> r.0.anchor == st.anchor
  {
    var t := Tick(st, d);
    var v := CheckFinishCriteria(t, measure);
    var t2 := t.(anchor := v.anchor);
    HistoriesKeepValid(t, t2);
    FixedKeepsClasses(t.jobs, t2.jobs);
    (t2, v.stop)
  }

  /** One pass of the loop as a total function: `Iteration`'s state where
      its preconditions hold, and the state unchanged elsewhere (a case no
      reachable state is in). */
  ghost function Pass(st: State, d: TickDraws, measure: (seq<Report>, int) -> Window): State {
    if Valid(st) && BothClasses(st.jobs) && DrawsOk(d) then Iteration(st, d, measure).0 else st
  }

  /** One pass of the loop as a step function for `Loops`. */
  ghost function PassWith(measure: (seq<Report>, int) -> Window): (State, TickDraws) -> State {
    (s, d) => Pass(s, d, measure)
  }

  /** The finish criteria as a stop test for `Loops`. */
  ghost function ConvergedWith(measure: (seq<Report>, int) -> Window): State -> bool {
    s => Converged(s, measure)
  }

  /** `run`, for at most `|draws|` ticks; tick `k` uses `draws[k]`: the loop
      over `Pass` that breaks as soon as the finish criteria hold. */
  ghost function Run(st: State, draws: seq<TickDraws>, measure: (seq<Report>, int) -> Window): (o: Outcome<State>)
    requires Valid(st) && BothClasses(st.jobs)
    requires AllDrawsOk(draws)
    ensures Valid(o.state) && BothClasses(o.state.jobs)
    ensures Fixed(st.jobs, o.state.jobs) && Advances(st.jobs, o.state.jobs)
    ensures o.passes <= |draws| && o.state.time == st.time + o.passes
    ensures |o.state.reports| == |st.reports| + o.passes
    ensures st.anchor.Some? && st.anchor.value != 0 ==> o.state.anchor == st.anchor
    ensures o.stopped ==> o.passes > 0 && Converged(o.state, measure)
    ensures !o.stopped ==> o.passes == |draws|
  {
    RunKeeps(st, draws, measure);
    LoopStopsAtFirst(PassWith(measure), ConvergedWith(measure), st, draws);
    Loop(PassWith(measure), ConvergedWith(measure), st, draws)
  }

  /** What every pass keeps, carried over the whole loop: the invariant,
      both classes, the jobs' fixed fields and forward-only stages relative
      to the start, one clock step and one report per pass. */
  lemma RunKeeps(st: State, draws: seq<TickDraws>, measure: (seq<Report>, int) -> Window)
    requires Valid(st) && BothClasses(st.jobs)
    requires AllDrawsOk(draws)
    ensures var o := Loop(PassWith(measure), ConvergedWith(measure), st, draws);
            && Valid(o.state) && BothClasses(o.state.jobs)
            && Fixed(st.jobs, o.state.jobs) && Advances(st.jobs, o.state.jobs)
            && o.state.time == st.time + o.passes
            && |o.state.reports| == |st.reports| + o.passes
            && (st.anchor.Some? && st.anchor.value != 0 ==> o.state.anchor == st.anchor)
  {
    var clock := (x: State) => x.time;
    PassesKeep(st, draws, measure);
    assert forall k, x :: 0 <= k < |draws| && KeptFrom(st)(x) ==>
             clock(PassWith(measure)(x, draws[k])) == clock(x) + 1;
    StepsOnceAdvances(st.jobs, st.jobs);
    KeptFromIs(st, st);
    LoopKeeps(PassWith(measure), ConvergedWith(measure), KeptFrom(st), clock, st, draws);
    KeptFromIs(st, Loop(PassWith(measure), ConvergedWith(measure), st, draws).state);
  }

  /** Every pass with one of the draws keeps `KeptFrom(st)` and moves the
      clock by one. */
  lemma PassesKeep(st: State, draws: seq<TickDraws>, measure: (seq<Report>, int) -> Window)
    requires AllDrawsOk(draws)
    ensures forall k, x :: 0 <= k < |draws| && KeptFrom(st)(x) ==>
              && KeptFrom(st)(PassWith(measure)(x, draws[k]))
              && PassWith(measure)(x, draws[k]).time == x.time + 1
  {
    forall k, x | 0 <= k < |draws| && KeptFrom(st)(x)
      ensures KeptFrom(st)(PassWith(measure)(x, draws[k]))
      ensures PassWith(measure)(x, draws[k]).time == x.time + 1
    {
      PassWithIsPass(x, draws[k], measure);
      KeptFromIs(st, x);
      KeptFromIs(st, PassWith(measure)(x, draws[k]));
      PassKeeps(st, x, draws[k], measure);
    }
  }

  /** The invariant, both classes, fixed fields and forward-only stages
      relative to `st`, and one report per clock step since `st`. */
  ghost predicate Kept(st: State, x: State) {
    && Valid(x) && BothClasses(x.jobs)
    && Fixed(st.jobs, x.jobs) && Advances(st.jobs, x.jobs)
    && |x.reports| - x.time == |st.reports| - st.time
    && (st.anchor.Some? && st.anchor.value != 0 ==> x.anchor == st.anchor)
  }

  /** `Kept` as an invariant for `Loops`. */
  ghost function KeptFrom(st: State): State -> bool {
    x => Kept(st, x)
  }

  /** Applying `KeptFrom(st)` is `Kept`. */
  lemma KeptFromIs(st: State, x: State)
    ensures KeptFrom(st)(x) == Kept(st, x)
  {
  }

  /** Applying `PassWith(measure)` is `Pass`. */
  lemma PassWithIsPass(x: State, d: TickDraws, measure: (seq<Report>, int) -> Window)
    ensures PassWith(measure)(x, d) == Pass(x, d, measure)
  {
  }

  /** One pass from a state reached from `st` keeps what `Kept` states and
      moves the clock by one. */
  lemma PassKeeps(st: State, x: State, d: TickDraws, measure: (seq<Report>, int) -> Window)
    requires Kept(st, x) && DrawsOk(d)
    ensures Kept(st, Pass(x, d, measure))
    ensures Pass(x, d, measure).time == x.time + 1
  {
    var y := Iteration(x, d, measure).0;
    FixedTransitive(st.jobs, x.jobs, y.jobs);
    AdvancesTransitive(st.jobs, x.jobs, y.jobs);
  }

  /** Once the window anchor is set to a nonzero report index, every later
      pass of the run leaves it where it is. */
  lemma AnchorStaysFixed(st: State, draws: seq<TickDraws>, measure: (seq<Report>, int) -> Window,
                         m1: nat, m2: nat)
    requires m1 <= m2 <= |draws|
    requires var a := After(PassWith(measure), st, draws, m1).anchor; a.Some? && a.value != 0
    ensures After(PassWith(measure), st, draws, m2).anchor == After(PassWith(measure), st, draws, m1).anchor
  {
    var a := After(PassWith(measure), st, draws, m1).anchor;
    PassesKeepAnchor(a, measure);
    AnchorIsIs(a, After(PassWith(measure), st, draws, m1));
    AfterKeeps(PassWith(measure), AnchorIs(a), st, draws, m1, m2);
    AnchorIsIs(a, After(PassWith(measure), st, draws, m2));
  }

  /** The anchor is `a`, as a property for `Loops`. */
  ghost function AnchorIs(a: Option<int>): State -> bool {
    (x: State) => x.anchor == a
  }

  /** Applying `AnchorIs(a)` compares the anchor with `a`. */
  lemma AnchorIsIs(a: Option<int>, x: State)
    ensures AnchorIs(a)(x) == (x.anchor == a)
  {
  }

  /** Every pass keeps a nonzero anchor. */
  lemma PassesKeepAnchor(a: Option<int>, measure: (seq<Report>, int) -> Window)
    requires a.Some? && a.value != 0
    ensures forall x, d :: AnchorIs(a)(x) ==> AnchorIs(a)(PassWith(measure)(x, d))
  {
    forall x, d | AnchorIs(a)(x) ensures AnchorIs(a)(PassWith(measure)(x, d)) {
      AnchorIsIs(a, x);
      PassWithIsPass(x, d, measure);
      PassKeepsAnchor(x, d, measure);
      AnchorIsIs(a, PassWith(measure)(x, d));
    }
  }

  /** One pass keeps a nonzero anchor, on every state. */
  lemma PassKeepsAnchor(x: State, d: TickDraws, measure: (seq<Report>, int) -> Window)
    requires x.anchor.Some? && x.anchor.value != 0
    ensures Pass(x, d, measure).anchor == x.anchor
  {
  }

  /** `run` breaks at the first pass whose check holds: a run that stops
      after `i` passes ends in the state of `i` passes of the loop, and no
      earlier pass met the criteria; a run that does not stop met them at
      no pass. */
  lemma RunStopsAtFirst(st: State, draws: seq<TickDraws>, measure: (seq<Report>, int) -> Window)
    requires Valid(st) && BothClasses(st.jobs)
    requires AllDrawsOk(draws)
    ensures var o := Run(st, draws, measure);
            && o.state == After(PassWith(measure), st, draws, o.passes)
            && forall m :: 1 <= m <= o.passes && (m < o.passes || !o.stopped) ==>
                 !Converged(After(PassWith(measure), st, draws, m), measure)
  {
    var o := Run(st, draws, measure);
    LoopStopsAtFirst(PassWith(measure), ConvergedWith(measure), st, draws);
    forall m | 1 <= m <= o.passes && (m < o.passes || !o.stopped)
      ensures !Converged(After(PassWith(measure), st, draws, m), measure)
    {
      assert !ConvergedWith(measure)(After(PassWith(measure), st, draws, m));
    }
  }

  // ---------------------------------------------------------------------
  // Start state and theorems

  /** The state `Simulator.__init__` builds: the servers of the input, the
      jobs of `init_jobs`, and the counters at 0. */
  function Start(coreRates: seq<seq<real>>, schedulerRate: real,
                 gaps: seq<real>, offsets: seq<real>, coins: seq<bool>): (st: State)
    requires |gaps| == JOB_COUNT && |offsets| == JOB_COUNT && |coins| == JOB_COUNT
    ensures |coreRates| > 0 ==> Valid(st)
    ensures (exists i :: 0 <= i < JOB_COUNT && coins[i]) && (exists i :: 0 <= i < JOB_COUNT && !coins[i])
            ==> BothClasses(st.jobs)
    ensures |st.jobs| == JOB_COUNT && st.time == -1 && st.reports == []
  {
    var jobs := InitJobs(gaps, offsets, coins);
    InitialStateValid(coreRates, schedulerRate, jobs);
    ClassesFromCoins(jobs, coins);
    InitialState(coreRates, schedulerRate, jobs)
  }

  /** Before the first tick every job is pending, every queue is empty and
      both counters are 0, which is the invariant as soon as there is a
      server. */
  lemma InitialStateValid(coreRates: seq<seq<real>>, schedulerRate: real, jobs: seq<Job>)
    requires forall i :: 0 <= i < |jobs| ==>
               && StageOf(jobs[i]) == Pending
               && jobs[i].finishTime.None? && jobs[i].processStartTime.None?
               && jobs[i].processServerId.None?
               && !jobs[i].isDone && !jobs[i].expired
    ensures |coreRates| > 0 ==> Valid(InitialState(coreRates, schedulerRate, jobs))
  {
    var st := InitialState(coreRates, schedulerRate, jobs);
    assert JobsCoherent(st.jobs, st.time) by {
      forall i | 0 <= i < |jobs| ensures Coherent(jobs[i], -1) {
        assert StageOf(jobs[i]) == Pending;
      }
    }
    assert Count(jobs, IsActive) == 0 && Count(jobs, Live) == 0;
  }

  /** Class 2 for the jobs whose coin came up, class 1 for the others: both
      classes occur exactly when both coin faces do. */
  lemma ClassesFromCoins(jobs: seq<Job>, coins: seq<bool>)
    requires |jobs| == |coins|
    requires forall i :: 0 <= i < |jobs| ==> jobs[i].kind == (if coins[i] then 2 else 1)
    ensures BothClasses(jobs) <==>
              (exists i :: 0 <= i < |coins| && coins[i]) && (exists i :: 0 <= i < |coins| && !coins[i])
  {
    if (exists i :: 0 <= i < |coins| && coins[i]) && (exists i :: 0 <= i < |coins| && !coins[i]) {
      var a :| 0 <= a < |coins| && !coins[a];
      var b :| 0 <= b < |coins| && coins[b];
      assert jobs[a].kind == 1 && jobs[b].kind == 2;
    }
    if BothClasses(jobs) {
      var a :| 0 <= a < |jobs| && jobs[a].kind == 1;
      var b :| 0 <= b < |jobs| && jobs[b].kind == 2;
      assert !coins[a] && coins[b];
    }
  }

  /** A job that has left the system: done or expired. */
  predicate Ended(j: Job) {
    Terminal(StageOf(j))
  }

  /** Conservation: the finished counter is the number of jobs done or
      expired, and the started counter those plus the live ones. */
  lemma FinishedCountsEnded(st: State)
    requires Valid(st)
    ensures st.finished == Count(st.jobs, Ended)
    ensures st.started == Count(st.jobs, Ended) + Count(st.jobs, Live)
  {
    CountSplit(st.jobs, IsActive, Live, Ended);
  }

  /** Neither counter ever goes down: a job once admitted stays admitted, and
      a job once done or expired stays so. */
  lemma CountersNeverDecrease(a: State, b: State)
    requires Valid(a) && Valid(b) && Advances(a.jobs, b.jobs)
    ensures a.started <= b.started && a.finished <= b.finished
  {
    FinishedCountsEnded(a);
    FinishedCountsEnded(b);
    forall i | 0 <= i < |a.jobs|
      ensures IsActive(a.jobs[i]) ==> IsActive(b.jobs[i])
      ensures Ended(a.jobs[i]) ==> Ended(b.jobs[i])
    {
      MovingForwardKeeps(a.jobs[i], b.jobs[i]);
    }
    CountMonotone(a.jobs, b.jobs, IsActive);
    CountMonotone(a.jobs, b.jobs, Ended);
  }

  /** Moving forward in the lifecycle never undoes admission or an end. */
  lemma MovingForwardKeeps(x: Job, y: Job)
    requires Reaches(StageOf(x), StageOf(y))
    ensures IsActive(x) ==> IsActive(y)
    ensures Ended(x) ==> Ended(y)
  {
  }

  /** A whole run from the initial state: every job keeps its id, class,
      arrival and deadline, moves forward through its lifecycle only, and
      the counters obey the conservation law throughout. */
  lemma RunFromStart(coreRates: seq<seq<real>>, schedulerRate: real,
                     gaps: seq<real>, offsets: seq<real>, coins: seq<bool>,
                     draws: seq<TickDraws>, measure: (seq<Report>, int) -> Window)
    requires |coreRates| > 0
    requires |gaps| == JOB_COUNT && |offsets| == JOB_COUNT && |coins| == JOB_COUNT
    requires (exists i :: 0 <= i < JOB_COUNT && coins[i]) && (exists i :: 0 <= i < JOB_COUNT && !coins[i])
    requires AllDrawsOk(draws)
    ensures var st := Start(coreRates, schedulerRate, gaps, offsets, coins);
            var o := Run(st, draws, measure);
            && o.state.started == o.state.finished + Count(o.state.jobs, Live)
            && o.state.finished == Count(o.state.jobs, Ended)
            && Fixed(st.jobs, o.state.jobs)
            && |o.state.reports| == o.state.time + 1
            && (o.stopped && o.state.finished == JOB_COUNT ==>
                  forall i :: 0 <= i < JOB_COUNT ==> Terminal(StageOf(o.state.jobs[i])))
  {
    var st := Start(coreRates, schedulerRate, gaps, offsets, coins);
    var o := Run(st, draws, measure);
    FinishedCountsEnded(o.state);
    if o.stopped && o.state.finished == JOB_COUNT {
      FinishedAllMeansTerminal(o.state);
    }
  }
}
