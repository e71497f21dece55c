/**
 * Runtime accounting of `update_curr_{sjf,rms}`: the part of
 * `struct sched_entity` that the two classes read and write, and the
 * charge made for the time since `exec_start`.
 */
module Accounting {

  /** `se.exec_start`, `se.sum_exec_runtime`, `se.exec_max`. */
  datatype SchedEntity = SchedEntity(execStart: int, sumExecRuntime: int, execMax: int)

  function Max(a: int, b: int): int { if a < b then b else a }

  /** `delta_exec = rq->clock - exec_start`, a negative difference (clock regression) clamped to 0. */
  function ClampedDelta(clock: int, start: int): (d: nat)
    ensures start <= clock ==> d == clock - start
    ensures clock < start ==> d == 0
  {
    var delta := clock - start;
    if delta < 0 then 0 else delta
  }

  /**
   * One call of `update_curr` on a task of the class: the time since
   * `exec_start` is added to the runtime, `exec_max` covers it, and the
   * stamp moves to `clock`.
   */
  function Charge(se: SchedEntity, clock: int): (r: SchedEntity)
    ensures r.execStart == clock
    ensures r.sumExecRuntime >= se.sumExecRuntime
    ensures se.execStart <= clock ==> r.sumExecRuntime == se.sumExecRuntime + (clock - se.execStart)
    ensures clock < se.execStart ==> r.sumExecRuntime == se.sumExecRuntime
    ensures r.execMax >= se.execMax && r.execMax >= r.sumExecRuntime - se.sumExecRuntime
    ensures r.execMax == se.execMax || r.execMax == r.sumExecRuntime - se.sumExecRuntime
  {
    var delta := ClampedDelta(clock, se.execStart);
    SchedEntity(clock, se.sumExecRuntime + delta, Max(se.execMax, delta))
  }

  /** Charges at each clock reading of `clocks`, in order. */
  function ChargeAll(se: SchedEntity, clocks: seq<int>): SchedEntity
  {
    if clocks == [] then se else Charge(ChargeAll(se, clocks[..|clocks| - 1]), clocks[|clocks| - 1])
  }

  /** The time charged by the i-th update of a run started at `start`. */
  function Gap(start: int, clocks: seq<int>, i: nat): int
    requires i < |clocks|
  {
    clocks[i] - (if i == 0 then start else clocks[i - 1])
  }

  ghost predicate NonDecreasing(start: int, clocks: seq<int>) {
    (|clocks| > 0 ==> start <= clocks[0]) &&
    forall i :: 0 < i < |clocks| ==> clocks[i - 1] <= clocks[i]
  }

  /**
   * Accounting never drops time: over any run of updates with a clock that
   * does not go back, the runtime grows by exactly the time elapsed since the
   * first stamp, and `exec_max` is at least every single charge.
   */
  lemma {:induction false} ChargeAllTelescopes(se: SchedEntity, clocks: seq<int>)
    requires |clocks| > 0 && NonDecreasing(se.execStart, clocks)
    ensures ChargeAll(se, clocks).execStart == clocks[|clocks| - 1]
    ensures ChargeAll(se, clocks).sumExecRuntime == se.sumExecRuntime + (clocks[|clocks| - 1] - se.execStart)
    ensures ChargeAll(se, clocks).execMax >= se.execMax
    ensures forall i :: 0 <= i < |clocks| ==> ChargeAll(se, clocks).execMax >= Gap(se.execStart, clocks, i)
  {
    var n := |clocks|;
    var init := clocks[..n - 1];
    if n > 1 {
      assert NonDecreasing(se.execStart, init);
      ChargeAllTelescopes(se, init);
      var mid := ChargeAll(se, init);
      assert mid.execStart == clocks[n - 2];
      forall i | 0 <= i < n - 1
        ensures mid.execMax >= Gap(se.execStart, clocks, i)
      {
        assert Gap(se.execStart, init, i) == Gap(se.execStart, clocks, i);
      }
    }
  }
}
