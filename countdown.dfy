/**
 * The quantum countdown of `task_tick_{sjf,rms}`: `task_time_slice` is
 * decremented on every tick and reloaded from the static slice when it
 * reaches 0.
 */
module Countdown {

  /** What one tick leaves: the new countdown, and whether it ran out (and was reloaded). */
  datatype TickOutcome = TickOutcome(remaining: int, expired: bool)

  /** One tick on a countdown `remaining` with static slice `slice`. */
  function Tick(remaining: int, slice: int): (r: TickOutcome)
    ensures r.expired <==> remaining == 1
    ensures r.expired ==> r.remaining == slice
    ensures !r.expired ==> r.remaining == remaining - 1
    ensures 1 <= remaining <= slice ==> 1 <= r.remaining <= slice
  {
    var left := remaining - 1;
    if left == 0 then TickOutcome(slice, true) else TickOutcome(left, false)
  }

  /** The outcome of the k-th tick after a fresh reload to `slice` (k = 0: the reload itself). */
  function AfterTicks(slice: int, k: nat): TickOutcome
  {
    if k == 0 then TickOutcome(slice, false) else Tick(AfterTicks(slice, k - 1).remaining, slice)
  }

  /**
   * The countdown is periodic: writing a tick count after a reload as
   * `m * slice + j` with `j < slice`, the countdown then reads `slice - j`,
   * and the tick expired exactly when `j == 0` (and it is not the reload
   * itself): every `slice`-th tick, and no other, runs the quantum out.
   */
  lemma {:induction false} AfterTicksPeriodic(slice: int, m: nat, j: nat)
    requires 1 <= slice && j < slice
    ensures AfterTicks(slice, m * slice + j).remaining == slice - j
    ensures AfterTicks(slice, m * slice + j).expired <==> j == 0 && m > 0
  {
    if j > 0 {
      AfterTicksPeriodic(slice, m, j - 1);
    } else if m > 0 {
      assert (m - 1) * slice + (slice - 1) + 1 == m * slice;
      AfterTicksPeriodic(slice, m - 1, slice - 1);
    }
  }
}
