/** The per-tick statistics of `utils/report.py`: average time spent, average
    wait, share of expired jobs and mean queue length. */
module Reports {
  import opened Optional
  import opened Models
  import opened Collections

  /** One report: the statistics `gen_report` files under its keys, in the
      order of the keys. */
  datatype Report = Report(
    avgSpentTot: real, avgSpentT1: real, avgSpentT2: real,
    avgWaitTot: real, avgWaitT1: real, avgWaitT2: real,
    rateExpiredTot: real, rateExpiredT1: real, rateExpiredT2: real,
    avgSchedulerQueueLen: real,
    avgServerQueueLens: seq<real>)

  predicate IsExpired(j: Job) {
    j.expired
  }

  /** The `elif` branch: done and not expired. */
  predicate IsDoneOnly(j: Job) {
    j.isDone && !j.expired
  }

  /** The fields a job's contribution reads are set. (The source would fail
      on `None - float` otherwise.) */
  predicate SpentDefined(j: Job) {
    IsDoneOnly(j) ==> j.finishTime.Some?
  }

  predicate WaitDefined(j: Job) {
    IsDoneOnly(j) ==> j.processStartTime.Some?
  }

  /** The timestamps of a terminal job do not precede its start. */
  predicate TimesAfterStart(j: Job) {
    && (j.expired ==> j.startTime <= j.expiredTime)
    && (IsDoneOnly(j) ==> j.finishTime.Some? && j.processStartTime.Some?
                          && j.startTime <= j.processStartTime.value <= j.finishTime.value)
  }

  function Spent(j: Job): real
    requires SpentDefined(j)
  {
    if j.expired then j.expiredTime - j.startTime
    else if j.isDone then j.finishTime.value - j.startTime
    else 0.0
  }

  function Wait(j: Job): real
    requires WaitDefined(j)
  {
    if j.expired then j.expiredTime - j.startTime
    else if j.isDone then j.processStartTime.value - j.startTime
    else 0.0
  }

  /** The loop sum of `report_average_spent_time`: jobs that are neither
      expired nor done add nothing. */
  function SpentTotal(jobs: seq<Job>): (t: real)
    requires forall i :: 0 <= i < |jobs| ==> SpentDefined(jobs[i])
    ensures (forall i :: 0 <= i < |jobs| ==> TimesAfterStart(jobs[i])) ==> t >= 0.0
    ensures (forall i :: 0 <= i < |jobs| ==> !jobs[i].expired && !jobs[i].isDone) ==> t == 0.0
  {
    if |jobs| == 0 then 0.0
    else
      assert forall i :: 1 <= i < |jobs| ==> jobs[i] == jobs[1..][i - 1];
      Spent(jobs[0]) + SpentTotal(jobs[1..])
  }

  function WaitTotal(jobs: seq<Job>): (t: real)
    requires forall i :: 0 <= i < |jobs| ==> WaitDefined(jobs[i])
    ensures (forall i :: 0 <= i < |jobs| ==> TimesAfterStart(jobs[i])) ==> t >= 0.0
    ensures (forall i :: 0 <= i < |jobs| ==> !jobs[i].expired && !jobs[i].isDone) ==> t == 0.0
  {
    if |jobs| == 0 then 0.0
    else
      assert forall i :: 1 <= i < |jobs| ==> jobs[i] == jobs[1..][i - 1];
      Wait(jobs[0]) + WaitTotal(jobs[1..])
  }

  /** `report_average_spent_time`: the sum over terminal jobs divided by the
      number of ALL jobs in the list (the source raises on an empty list). */
  function AverageSpentTime(jobs: seq<Job>): (r: real)
    requires |jobs| > 0
    requires forall i :: 0 <= i < |jobs| ==> SpentDefined(jobs[i])
    ensures (forall i :: 0 <= i < |jobs| ==> TimesAfterStart(jobs[i])) ==> r >= 0.0
    ensures (forall i :: 0 <= i < |jobs| ==> !jobs[i].expired && !jobs[i].isDone) ==> r == 0.0
  {
    SpentTotal(jobs) / |jobs| as real
  }

  /** `report_average_wait_time`: as above, with the start of service in
      place of the finish for done jobs. */
  function AverageWaitTime(jobs: seq<Job>): (r: real)
    requires |jobs| > 0
    requires forall i :: 0 <= i < |jobs| ==> WaitDefined(jobs[i])
    ensures (forall i :: 0 <= i < |jobs| ==> TimesAfterStart(jobs[i])) ==> r >= 0.0
    ensures (forall i :: 0 <= i < |jobs| ==> !jobs[i].expired && !jobs[i].isDone) ==> r == 0.0
  {
    WaitTotal(jobs) / |jobs| as real
  }

  lemma {:induction false} WaitTotalAtMostSpentTotal(jobs: seq<Job>)
    requires forall i :: 0 <= i < |jobs| ==> TimesAfterStart(jobs[i])
    ensures forall i :: 0 <= i < |jobs| ==> SpentDefined(jobs[i]) && WaitDefined(jobs[i])
    ensures WaitTotal(jobs) <= SpentTotal(jobs)
  {
    assert forall i :: 0 <= i < |jobs| ==> SpentDefined(jobs[i]) && WaitDefined(jobs[i]) by {
      forall i | 0 <= i < |jobs| ensures SpentDefined(jobs[i]) && WaitDefined(jobs[i]) {
        assert TimesAfterStart(jobs[i]);
      }
    }
    if |jobs| > 0 {
      assert forall i :: 1 <= i < |jobs| ==> jobs[i] == jobs[1..][i - 1];
      WaitTotalAtMostSpentTotal(jobs[1..]);
    }
  }

  /** A job waits no longer than it stays: when every done job started
      service no later than it finished, the average wait is at most the
      average time spent. */
  lemma WaitAtMostSpent(jobs: seq<Job>)
    requires |jobs| > 0
    requires forall i :: 0 <= i < |jobs| ==> TimesAfterStart(jobs[i])
    ensures forall i :: 0 <= i < |jobs| ==> SpentDefined(jobs[i]) && WaitDefined(jobs[i])
    ensures AverageWaitTime(jobs) <= AverageSpentTime(jobs)
  {
    WaitTotalAtMostSpentTotal(jobs);
    DivideKeepsOrder(WaitTotal(jobs), SpentTotal(jobs), |jobs| as real);
  }

  lemma DivideKeepsOrder(a: real, b: real, n: real)
    requires n > 0.0 && a <= b
    ensures a / n <= b / n
  {
    assert b / n - a / n == (b - a) / n;
  }

  /** A quotient by a positive divisor lies between `lo` and `hi` when the
      dividend lies between `n * lo` and `n * hi`. */
  lemma DivideBetween(sum: real, n: real, lo: real, hi: real)
    requires n > 0.0
    requires n * lo <= sum <= n * hi
    ensures lo <= sum / n <= hi
  {
    DivideKeepsOrder(n * lo, sum, n);
    DivideKeepsOrder(sum, n * hi, n);
    assert n * lo / n == lo && n * hi / n == hi;
  }

  lemma {:induction false} SpentTotalAppend(jobs: seq<Job>, j: Job)
    requires forall i :: 0 <= i < |jobs| ==> SpentDefined(jobs[i])
    requires SpentDefined(j)
    ensures SpentTotal(jobs + [j]) == SpentTotal(jobs) + Spent(j)
  {
    if |jobs| > 0 {
      assert (jobs + [j])[1..] == jobs[1..] + [j];
      SpentTotalAppend(jobs[1..], j);
    } else {
      assert (jobs + [j])[1..] == [];
    }
  }

  /** The average divides by every job in the list: adding a job that is
      neither expired nor done leaves the sum alone and only grows the
      divisor, so when no timestamp precedes its job's start the average
      cannot rise. */
  lemma UnfinishedJobDilutesAverage(jobs: seq<Job>, j: Job)
    requires |jobs| > 0
    requires forall i :: 0 <= i < |jobs| ==> SpentDefined(jobs[i])
    requires !j.expired && !j.isDone
    ensures forall i :: 0 <= i < |jobs + [j]| ==> SpentDefined((jobs + [j])[i])
    ensures AverageSpentTime(jobs + [j]) == SpentTotal(jobs) / (|jobs| + 1) as real
    ensures (forall i :: 0 <= i < |jobs| ==> TimesAfterStart(jobs[i]))
            ==> AverageSpentTime(jobs + [j]) <= AverageSpentTime(jobs)
  {
    SpentTotalAppend(jobs, j);
    assert Spent(j) == 0.0;
    if forall i :: 0 <= i < |jobs| ==> TimesAfterStart(jobs[i]) {
      LargerDivisor(SpentTotal(jobs), |jobs|);
    }
  }

  lemma LargerDivisor(t: real, n: nat)
    requires t >= 0.0 && n > 0
    ensures t / (n + 1) as real <= t / n as real
  {
  }

  /** `report_rate_of_expired`: expired jobs over expired-or-done jobs, or 0
      when there are none of either. A job both expired and done counts as
      expired. */
  function RateOfExpired(jobs: seq<Job>): (r: real)
    ensures 0.0 <= r <= 1.0
    ensures r == 0.0 <==> forall i :: 0 <= i < |jobs| ==> !jobs[i].expired
    ensures r == 1.0 <==> (exists i :: 0 <= i < |jobs| && jobs[i].expired)
                          && (forall i :: 0 <= i < |jobs| ==> !IsDoneOnly(jobs[i]))
  {
    var expired := Count(jobs, IsExpired);
    var done := Count(jobs, IsDoneOnly);
    if expired + done == 0 then 0.0
    else
      RatioFacts(expired, done);
      expired as real / (done + expired) as real
  }

  lemma RatioFacts(e: nat, d: nat)
    requires e + d > 0
    ensures 0.0 <= e as real / (d + e) as real <= 1.0
    ensures e as real / (d + e) as real == 0.0 <==> e == 0
    ensures e as real / (d + e) as real == 1.0 <==> d == 0
  {
    var n := (d + e) as real;
    DivideBetween(e as real, n, 0.0, 1.0);
    QuotientIsOne(e as real, n);
    QuotientIsZero(e as real, n);
  }

  lemma QuotientIsOne(a: real, n: real)
    requires n > 0.0
    ensures a / n == 1.0 <==> a == n
  {
    if a / n == 1.0 {
      assert a == a / n * n;
    }
  }

  lemma QuotientIsZero(a: real, n: real)
    requires n > 0.0
    ensures a / n == 0.0 <==> a == 0.0
  {
    if a / n == 0.0 {
      assert a == a / n * n;
    }
  }

  /** Sum of a list of naturals. */
  function Sum(s: seq<nat>): nat {
    if |s| == 0 then 0 else s[0] + Sum(s[1..])
  }

  function Min(s: seq<nat>): (m: nat)
    requires |s| > 0
    ensures forall i :: 0 <= i < |s| ==> m <= s[i]
    ensures m in s
  {
    if |s| == 1 then s[0]
    else
      var rest := Min(s[1..]);
      assert forall i :: 1 <= i < |s| ==> s[i] == s[1..][i - 1];
      if s[0] <= rest then s[0] else rest
  }

  function Max(s: seq<nat>): (m: nat)
    requires |s| > 0
    ensures forall i :: 0 <= i < |s| ==> s[i] <= m
    ensures m in s
  {
    if |s| == 1 then s[0]
    else
      var rest := Max(s[1..]);
      assert forall i :: 1 <= i < |s| ==> s[i] == s[1..][i - 1];
      if s[0] >= rest then s[0] else rest
  }

  lemma {:induction false} SumBounds(s: seq<nat>, lo: nat, hi: nat)
    requires forall i :: 0 <= i < |s| ==> lo <= s[i] <= hi
    ensures |s| * lo <= Sum(s) <= |s| * hi
  {
    if |s| > 0 {
      assert forall i :: 0 <= i < |s| - 1 ==> s[1..][i] == s[i + 1];
      SumBounds(s[1..], lo, hi);
      assert |s| * lo == (|s| - 1) * lo + lo;
      assert |s| * hi == (|s| - 1) * hi + hi;
    }
  }

  lemma MeanBetweenBounds(s: seq<nat>, lo: nat, hi: nat)
    requires |s| > 0
    requires forall i :: 0 <= i < |s| ==> lo <= s[i] <= hi
    ensures lo as real <= Sum(s) as real / |s| as real <= hi as real
  {
    SumBounds(s, lo, hi);
    MeanOfBounded(Sum(s), |s|, lo, hi);
  }

  lemma MeanOfBounded(sum: nat, n: nat, lo: nat, hi: nat)
    requires n > 0
    requires n * lo <= sum <= n * hi
    ensures lo as real <= sum as real / n as real <= hi as real
  {
    CastProduct(n, lo);
    CastProduct(n, hi);
    DivideBetween(sum as real, n as real, lo as real, hi as real);
  }

  lemma CastProduct(a: nat, b: nat)
    ensures (a * b) as real == a as real * b as real
  {
  }

  /** `report_mean_queue_length`: the arithmetic mean of the recorded queue
      lengths (the source raises on an empty list). It lies between the
      shortest and the longest recorded length. */
  function MeanQueueLength(lengths: seq<nat>): (r: real)
    requires |lengths| > 0
    ensures Min(lengths) as real <= r <= Max(lengths) as real
    ensures (forall i :: 0 <= i < |lengths| ==> lengths[i] == 0) ==> r == 0.0
  {
    MeanBetweenBounds(lengths, Min(lengths), Max(lengths));
    Sum(lengths) as real / |lengths| as real
  }
}
