/** A loop that applies a step to its state once per input and breaks as
    soon as a stop test holds of the new state, with the fact that it breaks
    at the first such state. */
module Loops {

  /** Where a loop ended: the final state, whether the stop test held (as
      opposed to the inputs running out), and how many passes ran. */
  datatype Outcome<S> = Outcome(state: S, stopped: bool, passes: nat)

  /** The state after `m` passes with the stop test ignored, pass `k` using
      `inputs[k]` (fewer passes when the inputs run out). */
  function After<S, D>(step: (S, D) -> S, s: S, inputs: seq<D>, m: nat): S
    decreases m
  {
    if m == 0 || |inputs| == 0 then s else After(step, step(s, inputs[0]), inputs[1..], m - 1)
  }

  /** One pass per input; the loop breaks after the first pass whose new
      state passes `stop`. */
  function Loop<S, D>(step: (S, D) -> S, stop: S -> bool, s: S, inputs: seq<D>): Outcome<S>
    decreases |inputs|
  {
    if |inputs| == 0 then Outcome(s, false, 0)
    else
      var t := step(s, inputs[0]);
      if stop(t) then Outcome(t, true, 1)
      else var o := Loop(step, stop, t, inputs[1..]); o.(passes := o.passes + 1)
  }

  /** The loop breaks at the first pass whose state passes the test: it
      ends in the state of its number of passes, and no earlier pass (and,
      when it did not break, no pass at all) passed the test. */
  lemma {:induction false} LoopStopsAtFirst<S, D>(step: (S, D) -> S, stop: S -> bool, s: S, inputs: seq<D>)
    ensures var o := Loop(step, stop, s, inputs);
            && o.passes <= |inputs|
            && (o.stopped ==> o.passes > 0 && stop(o.state))
            && (!o.stopped ==> o.passes == |inputs|)
            && o.state == After(step, s, inputs, o.passes)
            && forall m :: 1 <= m <= o.passes && (m < o.passes || !o.stopped) ==>
                 !stop(After(step, s, inputs, m))
    decreases |inputs|
  {
    if |inputs| > 0 {
      var t := step(s, inputs[0]);
      LoopStopsAtFirst(step, stop, t, inputs[1..]);
      forall m | 1 <= m
        ensures After(step, s, inputs, m) == After(step, t, inputs[1..], m - 1)
      {
      }
    }
  }

  /** An invariant that every pass keeps holds where the loop ends, and a
      measure that every pass raises by one has risen by the number of
      passes. */
  lemma {:induction false} LoopKeeps<S, D>(step: (S, D) -> S, stop: S -> bool, inv: S -> bool,
                                           clock: S -> int, s: S, inputs: seq<D>)
    requires inv(s)
    requires forall k, x :: 0 <= k < |inputs| && inv(x) ==>
               inv(step(x, inputs[k])) && clock(step(x, inputs[k])) == clock(x) + 1
    ensures var o := Loop(step, stop, s, inputs);
            inv(o.state) && clock(o.state) == clock(s) + o.passes
    decreases |inputs|
  {
    if |inputs| > 0 {
      assert forall k :: 0 <= k < |inputs| - 1 ==> inputs[1..][k] == inputs[k + 1];
      LoopKeeps(step, stop, inv, clock, step(s, inputs[0]), inputs[1..]);
    }
  }

  /** Running `m2` passes is running `m1` passes and then `m2 - m1` more on
      the remaining inputs. */
  lemma {:induction false} AfterSplit<S, D>(step: (S, D) -> S, s: S, inputs: seq<D>, m1: nat, m2: nat)
    requires m1 <= m2 && m1 <= |inputs|
    ensures After(step, s, inputs, m2) == After(step, After(step, s, inputs, m1), inputs[m1..], m2 - m1)
    decreases m1
  {
    if m1 > 0 {
      AfterSplit(step, step(s, inputs[0]), inputs[1..], m1 - 1, m2 - 1);
      assert inputs[1..][m1 - 1..] == inputs[m1..];
    }
  }

  /** A property that every step keeps, holding after `m1` passes, holds
      after every later number of passes. */
  lemma AfterKeeps<S, D>(step: (S, D) -> S, inv: S -> bool, s: S, inputs: seq<D>, m1: nat, m2: nat)
    requires m1 <= m2 <= |inputs|
    requires forall x, d :: inv(x) ==> inv(step(x, d))
    requires inv(After(step, s, inputs, m1))
    ensures inv(After(step, s, inputs, m2))
  {
    AfterSplit(step, s, inputs, m1, m2);
    AfterKeepsAll(step, inv, After(step, s, inputs, m1), inputs[m1..], m2 - m1);
  }

  lemma {:induction false} AfterKeepsAll<S, D>(step: (S, D) -> S, inv: S -> bool, s: S, inputs: seq<D>, n: nat)
    requires forall x, d :: inv(x) ==> inv(step(x, d))
    requires inv(s)
    ensures inv(After(step, s, inputs, n))
    decreases n
  {
    if n > 0 && |inputs| > 0 {
      AfterKeepsAll(step, inv, step(s, inputs[0]), inputs[1..], n - 1);
    }
  }
}
