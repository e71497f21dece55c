/**
 * The SJF and RMS scheduling classes of kernel/sched_sjf.c and
 * kernel/sched_rms.c. The two files are the same code over different fields
 * (`sjf_time_slice` / `rms_time_slice`, `rq->sjf` / `rq->rms`) except for
 * `task_tick`; here one run queue class is parameterised by `cls`.
 */
module Sched {
  import opened Wrappers
  import opened RunList
  import Accounting
  import Countdown
  import Selection
  import LoadBalance

  /** A task's scheduling policy: one of the two classes modelled here, or any other class. */
  datatype Policy = Sjf | Rms | Other

  /** `SD_BALANCE_WAKE`, as Linux 2.6.32 defines it in include/linux/sched.h. */
  const SD_BALANCE_WAKE: int := 0x0010

  /** The fields of `struct task_struct` that the two classes read and write. */
  class Task {
    var policy: Policy
    var sjfTimeSlice: int
    var rmsTimeSlice: int
    var taskTimeSlice: int
    var se: Accounting.SchedEntity
    var needResched: bool

    constructor (policy: Policy, sjfTimeSlice: int, rmsTimeSlice: int, taskTimeSlice: int)
      ensures this.policy == policy && this.sjfTimeSlice == sjfTimeSlice
      ensures this.rmsTimeSlice == rmsTimeSlice && this.taskTimeSlice == taskTimeSlice
      ensures se == Accounting.SchedEntity(0, 0, 0) && !needResched
    {
      this.policy := policy;
      this.sjfTimeSlice := sjfTimeSlice;
      this.rmsTimeSlice := rmsTimeSlice;
      this.taskTimeSlice := taskTimeSlice;
      se := Accounting.SchedEntity(0, 0, 0);
      needResched := false;
    }

    /** The static slice the class `c` orders and reloads by. */
    function StaticSlice(c: Policy): int
      requires c != Other
      reads this
    {
      if c == Sjf then sjfTimeSlice else rmsTimeSlice
    }
  }

  /** The static slices of the queued tasks, head to tail. */
  ghost function Slices(ts: seq<Task>, c: Policy): (keys: seq<int>)
    requires c != Other
    reads ts
    ensures |keys| == |ts|
    ensures forall i :: 0 <= i < |ts| ==> keys[i] == ts[i].StaticSlice(c)
  {
    if ts == [] then [] else [ts[0].StaticSlice(c)] + Slices(ts[1..], c)
  }

  /** What `switched_to` asks of the host. */
  datatype SwitchAction = ReschedCurr | CheckPreemptCurr

  /**
   * `switched_to_*`: a task that is already running gets a reschedule of the
   * current task; otherwise the host's preemption check is asked.
   */
  function SwitchedTo(running: bool): (a: SwitchAction)
    ensures a == ReschedCurr <==> running
    ensures a == CheckPreemptCurr <==> !running
  {
    if running then ReschedCurr else CheckPreemptCurr
  }

  /**
   * `select_task_rq_*`: the CPU a task is placed on. `thisCpu` stands for
   * `smp_processor_id()` and `taskCpu` for `task_cpu(p)`. The task goes
   * nowhere but these two CPUs; only a wake-up balance keeps it on its own CPU.
   */
  function SelectTaskRq(sdFlag: int, thisCpu: nat, taskCpu: nat): (cpu: nat)
    ensures cpu == thisCpu || cpu == taskCpu
    ensures sdFlag == SD_BALANCE_WAKE ==> cpu == taskCpu
    ensures sdFlag != SD_BALANCE_WAKE ==> cpu == thisCpu
  {
    if sdFlag != SD_BALANCE_WAKE then thisCpu else taskCpu
  }

  /**
   * The part of one CPU's `struct rq` a class sees: `clock`, `curr`, and
   * the class's own `struct sjf_rq` / `struct rms_rq` (`queue`,
   * `nr_running`, `*_load_balance_curr`).
   */
  class RunQueue {
    const cls: Policy
    var clock: int
    var curr: Task
    var queue: seq<Task>
    var nrRunning: int
    var lbCurr: Option<Task>

    /** `nr_running` counts the linked tasks, and no task is linked twice. */
    ghost predicate Valid()
      reads this
    {
      cls != Other && nrRunning == |queue| && Distinct(queue)
    }

    constructor (cls: Policy, curr: Task, clock: int)
      requires cls != Other
      ensures Valid()
      ensures this.cls == cls && this.curr == curr && this.clock == clock
      ensures queue == [] && lbCurr == None
    {
      this.cls := cls;
      this.curr := curr;
      this.clock := clock;
      queue := [];
      nrRunning := 0;
      lbCurr := None;
    }

    /** `se` of the current task after `update_curr`: charged when the task belongs to this class, else untouched. */
    ghost function ChargeCurr(se: Accounting.SchedEntity): Accounting.SchedEntity
      reads this, curr
    {
      if curr.policy == cls then Accounting.Charge(se, clock) else se
    }

    /** `update_curr_*`. */
    method UpdateCurr()
      modifies curr`se
      ensures curr.se == ChargeCurr(old(curr.se))
    {
      if curr.policy != cls {
        return;
      }
      var delta := clock - curr.se.execStart;
      if delta < 0 {
        delta := 0;
      }
      var execMax := if curr.se.execMax < delta then delta else curr.se.execMax;
      curr.se := Accounting.SchedEntity(clock, curr.se.sumExecRuntime + delta, execMax);
    }

    /** `enqueue_task_*`: link `p` at the tail. */
    method Enqueue(p: Task)
      requires Valid() && p !in queue
      modifies this`queue, this`nrRunning
      ensures Valid()
      ensures queue == old(queue) + [p] && nrRunning == old(nrRunning) + 1
    {
      queue := queue + [p];
      nrRunning := nrRunning + 1;
    }

    /** `dequeue_task_*`: charge the current task, then unlink `p`. */
    method Dequeue(p: Task)
      requires Valid() && p in queue
      modifies this`queue, this`nrRunning, curr`se
      ensures Valid()
      ensures queue == Remove(old(queue), p) && nrRunning == old(nrRunning) - 1
      ensures curr.se == ChargeCurr(old(curr.se))
    {
      UpdateCurr();
      RemoveSpec(queue, p);
      queue := Remove(queue, p);
      nrRunning := nrRunning - 1;
    }

    /** `requeue_task_*`: move `p` to the tail in place. */
    method Requeue(p: Task)
      requires Valid() && p in queue
      modifies this`queue
      ensures Valid()
      ensures queue == MoveToTail(old(queue), p)
    {
      MoveToTailSpec(queue, p);
      queue := MoveToTail(queue, p);
    }

    /** `yield_task_*`: the current task goes to the tail. */
    method Yield()
      requires Valid() && curr in queue
      modifies this`queue
      ensures Valid()
      ensures queue == MoveToTail(old(queue), curr)
    {
      Requeue(curr);
    }

    /**
     * `pick_next_task_*`: NULL (None) exactly when nothing is queued;
     * otherwise a queued task with the smallest static slice, the one
     * nearest the head among equals. Nothing is unlinked.
     */
    method PickNext() returns (next: Option<Task>)
      requires Valid()
      ensures next.None? <==> nrRunning == 0
      ensures next.Some? ==> next.value in queue && Selection.IsFirstMin(Slices(queue, cls), IndexOf(queue, next.value))
    {
      if nrRunning > 0 {
        var best := queue[0];
        var minValue := best.StaticSlice(cls);
        ghost var bi := 0;
        var i := 0;
        while i < |queue|
          invariant 0 <= i <= |queue|
          invariant 0 <= bi < |queue| && (bi < i || bi == 0)
          invariant best == queue[bi] && minValue == best.StaticSlice(cls)
          invariant forall j :: 0 <= j < i ==> minValue <= queue[j].StaticSlice(cls)
          invariant forall j :: 0 <= j < bi ==> minValue < queue[j].StaticSlice(cls)
        {
          var t := queue[i];
          if t.StaticSlice(cls) < minValue {
            best := t;
            minValue := t.StaticSlice(cls);
            bi := i;
          }
          i := i + 1;
        }
        IndexOfDistinct(queue, bi);
        return Some(best);
      }
      return None;
    }

    /** `put_prev_task_*`: charge the current task, then mark `p` as no longer running (`exec_start = 0`). */
    method PutPrev(p: Task)
      modifies curr`se, p`se
      ensures p.se.execStart == 0
      ensures p != curr ==> curr.se == ChargeCurr(old(curr.se)) && p.se == old(p.se).(execStart := 0)
      ensures p == curr ==> p.se == ChargeCurr(old(p.se)).(execStart := 0)
    {
      UpdateCurr();
      p.se := p.se.(execStart := 0);
    }

    /** `set_curr_task_*`: the current task's run starts now. */
    method SetCurr()
      modifies curr`se
      ensures curr.se == old(curr.se).(execStart := clock)
    {
      curr.se := curr.se.(execStart := clock);
    }

    /**
     * `task_tick_*`: charge the current task, then count `p`'s quantum down.
     * When it runs out it is reloaded from the static slice; the RMS class
     * also moves `p` to the tail and sets its need-resched flag, the SJF
     * class does neither.
     */
    method Tick(p: Task)
      requires Valid() && (cls == Rms ==> p in queue)
      modifies this`queue, curr`se, p`taskTimeSlice, p`needResched
      ensures Valid()
      ensures curr.se == ChargeCurr(old(curr.se))
      ensures var t := Countdown.Tick(old(p.taskTimeSlice), p.StaticSlice(cls));
              && p.taskTimeSlice == t.remaining
              && queue == (if cls == Rms && t.expired then MoveToTail(old(queue), p) else old(queue))
              && p.needResched == (old(p.needResched) || (cls == Rms && t.expired))
    {
      UpdateCurr();
      p.taskTimeSlice := p.taskTimeSlice - 1;
      if p.taskTimeSlice == 0 {
        p.taskTimeSlice := p.StaticSlice(cls);
        if cls == Rms {
          Requeue(p);
          p.needResched := true;
        }
      }
    }

    /**
     * `load_balance_start_*`: hand out the tail and leave the cursor on its
     * predecessor.
     */
    method LoadBalanceStart() returns (p: Option<Task>)
      requires Valid()
      modifies this`lbCurr
      ensures (p, lbCurr) == LoadBalance.Start(queue)
    {
      if |queue| == 0 {
        p, lbCurr := None, None;
        return;
      }
      var tail := queue[|queue| - 1];
      p := Some(tail);
      lbCurr := LoadBalance.Pred(queue, tail);
    }

    /**
     * `load_balance_next_*`: hand out the task under the cursor, having
     * first stepped the cursor to its predecessor. The caller may unlink
     * the tasks it is handed, never the one under the cursor.
     */
    method LoadBalanceNext() returns (p: Option<Task>)
      requires Valid() && (lbCurr.Some? ==> lbCurr.value in queue)
      modifies this`lbCurr
      ensures (p, lbCurr) == LoadBalance.Next(queue, old(lbCurr))
    {
      match lbCurr
      case None =>
        p := None;
      case Some(t) =>
        p := Some(t);
        lbCurr := LoadBalance.Pred(queue, t);
    }
  }

  /**
   * A client of the contracts above: tasks A, B, C with slices 5, 3, 4 are
   * queued in that order; the pick is B, and once B is dequeued it is C.
   */
  method ShortestSliceScenario(cls: Policy, idle: Task)
    requires cls != Other
    modifies idle
  {
    var a := new Task(cls, 5, 5, 5);
    var b := new Task(cls, 3, 3, 3);
    var c := new Task(cls, 4, 4, 4);
    var rq := new RunQueue(cls, idle, 0);
    rq.Enqueue(a);
    rq.Enqueue(b);
    rq.Enqueue(c);
    assert rq.queue == [a, b, c];
    PickThenDequeue(rq, a, b, c);
  }

  /** With B's slice the smallest, the pick is B; the rest continues in DequeueThenPick. */
  method PickThenDequeue(rq: RunQueue, a: Task, b: Task, c: Task)
    requires rq.Valid() && rq.queue == [a, b, c]
    requires a.StaticSlice(rq.cls) == 5 && b.StaticSlice(rq.cls) == 3 && c.StaticSlice(rq.cls) == 4
    modifies rq, rq.curr
  {
    var cls := rq.cls;
    var first := rq.PickNext();
    assert first == Some(b) by {
      assert Slices([a, b, c], cls) == [5, 3, 4];
      Selection.FirstMinUnique([5, 3, 4], IndexOf(rq.queue, first.value), 1);
    }
    DequeueThenPick(rq, a, b, c);
  }

  /** The second half of the scenario: with B unlinked from [A, B, C], the pick is C. */
  method DequeueThenPick(rq: RunQueue, a: Task, b: Task, c: Task)
    requires rq.Valid() && rq.queue == [a, b, c]
    requires a.StaticSlice(rq.cls) == 5 && c.StaticSlice(rq.cls) == 4
    modifies rq, rq.curr
  {
    var cls := rq.cls;
    rq.Dequeue(b);
    assert rq.queue == [a, c] by {
      IndexOfDistinct([a, b, c], 1);
    }
    var second := rq.PickNext();
    assert second == Some(c) by {
      assert Slices([a, c], cls) == [5, 4];
      Selection.FirstMinUnique([5, 4], IndexOf(rq.queue, second.value), 1);
    }
  }

  /**
   * Three ticks on a task whose countdown starts full at slice 3: the first
   * two only count down; the third reloads the countdown, and under RMS
   * (only) moves the task behind the other one and asks for a reschedule.
   */
  method ThreeTicksScenario(rq: RunQueue, p: Task, other: Task)
    requires rq.Valid() && rq.queue == [p, other]
    requires p.StaticSlice(rq.cls) == 3 && p.taskTimeSlice == 3 && !p.needResched
    modifies rq, rq.curr, p
  {
    rq.Tick(p);
    rq.Tick(p);
    assert p.taskTimeSlice == 1 && rq.queue == [p, other] && !p.needResched;
    rq.Tick(p);
    assert p.taskTimeSlice == 3;
    if rq.cls == Rms {
      assert rq.queue == MoveToTail([p, other], p);
      assert rq.queue == [other, p] by {
        IndexOfDistinct([p, other], 0);
      }
      assert p.needResched;
    } else {
      assert rq.queue == [p, other] && !p.needResched;
    }
  }
}
