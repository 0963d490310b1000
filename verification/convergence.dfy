/** The convergence gate `Simulator.get_accuracy`: a warm-up threshold, the
    anchor of the report window, and the worst per-key accuracy over that
    window.

    The statistics themselves (`statistics.mean`, `statistics.stdev` and the
    square root of the window length) are inputs here: for each key its
    window mean and standard deviation, and `scale` standing for
    `1.96 / sqrt(len(window))`. */
module Convergence {
  import opened Optional

  /** Started jobs needed before accuracy is measured (`INITIAL_COUNT`). */
  const INITIAL_COUNT: nat := 50

  /** Accuracy at which the run stops (`MIN_ACCURACY`). */
  const MIN_ACCURACY: real := 0.95

  /** Mean and standard deviation of one key's values over the window. */
  datatype KeyStat = KeyStat(mean: real, dev: real)

  /** Half-width of the 95% confidence interval relative to the mean, or 0
      when the mean is 0. */
  function KeyError(s: KeyStat, scale: real): (e: real)
    ensures s.dev == 0.0 ==> e == 0.0
    ensures s.mean == 0.0 ==> e == 0.0
    ensures s.mean > 0.0 && s.dev >= 0.0 && scale >= 0.0 ==> e >= 0.0
  {
    if s.mean != 0.0 then scale * s.dev / s.mean else 0.0
  }

  /** The loop `min_acc = min(min_acc, 1 - err)` over the keys, starting
      from `acc`. */
  function MinAccuracy(acc: real, stats: seq<KeyStat>, scale: real): (r: real)
    ensures r <= acc
    ensures forall k :: 0 <= k < |stats| ==> r <= 1.0 - KeyError(stats[k], scale)
    ensures r == acc || exists k :: 0 <= k < |stats| && r == 1.0 - KeyError(stats[k], scale)
    decreases |stats|
  {
    if |stats| == 0 then acc
    else
      var e := 1.0 - KeyError(stats[0], scale);
      var r := MinAccuracy(if e < acc then e else acc, stats[1..], scale);
      assert forall k :: 1 <= k < |stats| ==> stats[k] == stats[1..][k - 1];
      assert r != acc && r != e ==> exists k :: 1 <= k < |stats| && r == 1.0 - KeyError(stats[k], scale);
      r
  }

  lemma {:induction false} MinAccuracyAppend(acc: real, stats: seq<KeyStat>, x: KeyStat, scale: real)
    ensures var m := MinAccuracy(acc, stats, scale);
            var e := 1.0 - KeyError(x, scale);
            MinAccuracy(acc, stats + [x], scale) == if e < m then e else m
    decreases |stats|
  {
    if |stats| == 0 {
      assert ([x])[1..] == [];
    } else {
      assert (stats + [x])[1..] == stats[1..] + [x];
      var e := 1.0 - KeyError(stats[0], scale);
      MinAccuracyAppend(if e < acc then e else acc, stats[1..], x, scale);
    }
  }

  /** A key whose values did not vary over the window costs nothing: adding
      it leaves the accuracy as it was. */
  lemma SteadyKeyCostsNothing(stats: seq<KeyStat>, mean: real, scale: real)
    ensures MinAccuracy(1.0, stats + [KeyStat(mean, 0.0)], scale) == MinAccuracy(1.0, stats, scale)
  {
    MinAccuracyAppend(1.0, stats, KeyStat(mean, 0.0), scale);
  }

  /** The anchor counts as unset when it is `None` or 0 (the source tests
      `not self.report_final_phase_id`). */
  predicate Unset(anchor: Option<int>) {
    anchor.None? || anchor.value == 0
  }

  /** `len(reports[start:])` for a list of `count` reports, with Python's
      reading of a negative `start` as counted from the end. */
  function WindowLength(count: nat, start: int): (n: nat)
    ensures n <= count
    ensures 0 <= start <= count ==> n == count - start
    ensures start > count ==> n == 0
    ensures start < 0 ==> n == if count < -start then count else -start
  {
    var from := if start >= 0 then start else if count + start < 0 then 0 else count + start;
    if from >= count then 0 else count - from
  }

  /** The accuracy `get_accuracy` returns and the anchor it leaves behind. */
  datatype Gate = Gate(accuracy: real, anchor: Option<int>)

  /** `get_accuracy`, given the started-job counter, the current anchor, the
      number of reports so far and the statistics of each key of the last
      report over the window. */
  function Accuracy(started: nat, anchor: Option<int>, reportCount: nat,
                    stats: seq<KeyStat>, scale: real): (g: Gate)
    ensures g.accuracy <= 1.0
    ensures started <= INITIAL_COUNT ==> g == Gate(0.0, anchor)
    ensures started > INITIAL_COUNT ==>
              g.anchor == if Unset(anchor) then Some(reportCount - 1) else anchor
    ensures anchor.Some? && anchor.value != 0 ==> g.anchor == anchor
    ensures started > INITIAL_COUNT && WindowLength(reportCount, g.anchor.value) < 2 ==>
              g.accuracy == 0.0
    ensures started > INITIAL_COUNT && WindowLength(reportCount, g.anchor.value) >= 2 ==>
              && (forall k :: 0 <= k < |stats| ==> g.accuracy <= 1.0 - KeyError(stats[k], scale))
              && (g.accuracy == 1.0
                  || exists k :: 0 <= k < |stats| && g.accuracy == 1.0 - KeyError(stats[k], scale))
  {
    if started <= INITIAL_COUNT then Gate(0.0, anchor)
    else
      var a := if Unset(anchor) then reportCount - 1 else anchor.value;
      if WindowLength(reportCount, a) < 2 then Gate(0.0, Some(a))
      else Gate(MinAccuracy(1.0, stats, scale), Some(a))
  }

  /** The accuracy reaches `MIN_ACCURACY` exactly when the warm-up is over,
      the window holds at least two reports, and every key's relative error
      is at most `1 - MIN_ACCURACY`. */
  lemma AccurateIffConverged(started: nat, anchor: Option<int>, reportCount: nat,
                             stats: seq<KeyStat>, scale: real)
    ensures var g := Accuracy(started, anchor, reportCount, stats, scale);
            g.accuracy >= MIN_ACCURACY <==>
              && started > INITIAL_COUNT
              && WindowLength(reportCount, g.anchor.value) >= 2
              && forall k :: 0 <= k < |stats| ==> KeyError(stats[k], scale) <= 1.0 - MIN_ACCURACY
  {
  }
}
