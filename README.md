# SJF and RMS scheduling classes — a Dafny model

This project models the two scheduling classes that plug into the Linux
2.6.32 scheduler in `kernel/sched_sjf.c` and `kernel/sched_rms.c`:

- SJF picks the queued task with the shortest static time slice.
- RMS is a round robin weighted by static time slices.

The two files are the same code over different names (`sjf_time_slice` /
`rms_time_slice`, `rq->sjf` / `rq->rms`), except for `task_tick`. So the model
has one run-queue class, `Sched.RunQueue`, parameterised by `cls: Policy`
(`Sjf` or `Rms`). `Task.StaticSlice(cls)` reads the field that class uses.

What is modelled:

- **Tasks.** `Sched.Task` is a class holding the `task_struct` fields that the
  classes update in place:
  - the two static slices;
  - the countdown `task_time_slice`;
  - the need-resched flag;
  - `se`, the embedded `sched_entity` (`exec_start`, `sum_exec_runtime`,
    `exec_max`), as the value type `Accounting.SchedEntity`.
- **Run queue.** `Sched.RunQueue` holds the class's view of one CPU's `rq`:
  `clock`, `curr`, the intrusive task list as a `seq<Task>`, `nr_running`, and
  the load-balance cursor. Its invariant `Valid()` says that `nr_running` is
  the list's length and that no task is linked twice.
- **List primitives** (module `RunList`). `list_add_tail` is `s + [p]`,
  `list_del` is `Remove` and `list_move_tail` is `MoveToTail`. Lemmas state
  their effect on membership, length and order.
- **Accounting** (`Accounting`). `update_curr` is `Charge`, with the negative
  delta clamped to 0.
- **Tick countdown** (`Countdown`). One tick is `Tick`. `AfterTicks` is the
  countdown after k ticks, with its periodicity.
- **Selection** (`Selection`). `IsFirstMin` is the result of the strict-`<`
  scan of `pick_next_task`: the minimal slice, nearest the head on ties.
- **Load-balance iterator** (`LoadBalance`). Start and next work over a cursor
  that is a node of the list: `None` stands for the list head. The
  predecessor is looked up in the list as it is when the call is made, so a
  caller that unlinks the task it was just given does not disturb the walk.

Each `RunQueue` method is proved against these functions. For example,
`Dequeue` ensures `queue == Remove(old(queue), p)` and `Tick` ensures its
result in terms of `Countdown.Tick` and `MoveToTail`. The lemmas beside the
functions state what the source promises: round trips, order preservation,
the range and period of the countdown, the tail-to-head walk, and no lost
runtime. Four client methods replay two worked examples:

- `ShortestSliceScenario` queues A, B and C with slices 5, 3 and 4 and hands
  them to `PickThenDequeue` and then `DequeueThenPick`: the pick is B, and
  after B is dequeued the pick is C.
- `ThreeTicksScenario` runs three ticks with a slice of 3. Under RMS the
  third tick moves the task to the tail and sets need-resched. Under SJF it
  only reloads the countdown.

Three behaviours of the code to note:

- `dequeue_task_*` charges `rq->curr` unconditionally, not only when the
  dequeued task is the running one.
- `pick_next_task_*` returns NULL (`None`), not an error.
- `update_curr_*` charges `rq->curr`, while `task_tick_*` and
  `put_prev_task_*` act on their argument `p`. The model keeps `curr` and `p`
  apart and lets them be the same task.

## Model

| member | source | states |
|---|---|---|
| `RunList.RemoveSpec` | hw2/RTS_PJ2_Team7/Code/linux-2.6.32.60/kernel/sched_sjf.c:52 | `list_del` unlinks exactly `p`. The list is one shorter, holds the same tasks minus `p` (as a multiset too), stays duplicate-free, and the remaining tasks keep their relative order |
| `RunList.RemoveAppended` | hw2/RTS_PJ2_Team7/Code/linux-2.6.32.60/kernel/sched_sjf.c:35-54 | enqueue followed by dequeue of the same task gives back exactly the list it started from |
| `RunList.MoveToTailSpec` | hw2/RTS_PJ2_Team7/Code/linux-2.6.32.60/kernel/sched_sjf.c:60-63 | `list_move_tail` keeps the length and the multiset of tasks, puts `p` last, and leaves the other tasks in their old order |
| `RunList.MoveToTailIdempotent` | hw2/RTS_PJ2_Team7/Code/linux-2.6.32.60/kernel/sched_sjf.c:68-75 | yielding twice in a row leaves the list as one yield does |
| `Accounting.ClampedDelta` | hw2/RTS_PJ2_Team7/Code/linux-2.6.32.60/kernel/sched_sjf.c:21-23 | the charged delta is never negative. It is the elapsed time when the clock has advanced, and 0 when the clock went back |
| `Accounting.Charge` | hw2/RTS_PJ2_Team7/Code/linux-2.6.32.60/kernel/sched_sjf.c:13-30 | one update resets `exec_start` to the clock and never decreases the runtime. With the clock ahead it adds exactly the elapsed time, and after a regression it adds nothing. `exec_max` covers the old maximum and this charge, and equals one of the two |
| `Accounting.ChargeAllTelescopes` | hw2/RTS_PJ2_Team7/Code/linux-2.6.32.60/kernel/sched_rms.c:13-30 | over any run of updates with a clock that does not go back, the runtime grows by exactly the time since the first stamp, so no time is dropped. `exec_max` is at least every single charge and at least its old value |
| `Countdown.Tick` | hw2/RTS_PJ2_Team7/Code/linux-2.6.32.60/kernel/sched_rms.c:214-216 | a tick expires exactly when the countdown was 1, and then reloads the static slice. A tick that does not expire lowers the countdown by exactly one. A countdown in `1..slice` stays in `1..slice` |
| `Countdown.AfterTicksPeriodic` | hw2/RTS_PJ2_Team7/Code/linux-2.6.32.60/kernel/sched_rms.c:214-219 | `m*slice + j` ticks after a reload (`j < slice`) the countdown reads `slice - j`. The tick expired, and so requeued the task under RMS, exactly when `j == 0` and `m > 0`: every `slice`-th tick and no other |
| `Selection.FirstMinUnique` | hw2/RTS_PJ2_Team7/Code/linux-2.6.32.60/kernel/sched_sjf.c:99-110 | the first minimum is unique, so the scan's choice is determined by the slices |
| `Selection.FirstMinExists` | hw2/RTS_PJ2_Team7/Code/linux-2.6.32.60/kernel/sched_rms.c:99-110 | every non-empty queue has a first minimum, so the scan always has an answer |
| `LoadBalance.WalkTailToHead` | hw2/RTS_PJ2_Team7/Code/linux-2.6.32.60/kernel/sched_sjf.c:132-164 | `start` and k-1 calls of `next`, k being the length of the caller's choice sequence, hand out the last k tasks, tail first, each once, then nothing. This holds for every pattern of the caller's choices: before each further call it may unlink the task it was just handed or leave it, independently at each step |
| `LoadBalance.NextSurvivesRemoval` | hw2/RTS_PJ2_Team7/Code/linux-2.6.32.60/kernel/sched_rms.c:151-164 | the cursor was stepped back before the task was returned, so unlinking that task changes neither the next result nor the next cursor |
| `LoadBalance.AsWrittenWalkRevisitsTail` | hw2/RTS_PJ2_Team7/Code/linux-2.6.32.60/kernel/sched_sjf.c:138-163 | as written, with no head check: on an empty list `start` hands out the head. On n tasks, the (n+1)-th result is the head and the (n+2)-th is the tail again |
| `Sched.SwitchedTo` | hw2/RTS_PJ2_Team7/Code/linux-2.6.32.60/kernel/sched_rms.c:236-247 | a reschedule of the current task is asked for if and only if the task is running; otherwise the host's preemption check runs |
| `Sched.SelectTaskRq` | hw2/RTS_PJ2_Team7/Code/linux-2.6.32.60/kernel/sched_rms.c:249-256 | the result is the task's own CPU when `sd_flag == SD_BALANCE_WAKE` and the executing CPU otherwise, never a third CPU |
| `Sched.RunQueue.UpdateCurr` | hw2/RTS_PJ2_Team7/Code/linux-2.6.32.60/kernel/sched_sjf.c:13-30 | the current task's `se` becomes `Charge(se, clock)` when the task has this class's policy, and is untouched otherwise. No other field changes |
| `Sched.RunQueue.Enqueue` | hw2/RTS_PJ2_Team7/Code/linux-2.6.32.60/kernel/sched_sjf.c:35-42 | `p` is appended at the tail, the earlier tasks stay as they were, `nr_running` rises by one, and the invariant holds |
| `Sched.RunQueue.Dequeue` | hw2/RTS_PJ2_Team7/Code/linux-2.6.32.60/kernel/sched_sjf.c:44-54 | the current task is charged first, then exactly `p` is unlinked (`Remove`), `nr_running` drops by one, and the invariant holds |
| `Sched.RunQueue.Requeue` | hw2/RTS_PJ2_Team7/Code/linux-2.6.32.60/kernel/sched_sjf.c:60-63 | the list becomes `MoveToTail(old list, p)`. `nr_running` is unchanged |
| `Sched.RunQueue.Yield` | hw2/RTS_PJ2_Team7/Code/linux-2.6.32.60/kernel/sched_sjf.c:68-75 | the current task moves to the tail (`MoveToTail`). `nr_running` is unchanged |
| `Sched.RunQueue.PickNext` | hw2/RTS_PJ2_Team7/Code/linux-2.6.32.60/kernel/sched_sjf.c:88-116 | the result is None if and only if `nr_running == 0`. Otherwise it is a queued task at the first minimum of the static slices (minimal, with every earlier task strictly larger). Nothing is modified |
| `Sched.RunQueue.PutPrev` | hw2/RTS_PJ2_Team7/Code/linux-2.6.32.60/kernel/sched_sjf.c:118-122 | the current task is charged, then `p`'s `exec_start` is set to 0, also when `p` is the current task |
| `Sched.RunQueue.SetCurr` | hw2/RTS_PJ2_Team7/Code/linux-2.6.32.60/kernel/sched_sjf.c:240-244 | the current task's `exec_start` becomes the run queue's clock, and nothing else changes |
| `Sched.RunQueue.Tick` | hw2/RTS_PJ2_Team7/Code/linux-2.6.32.60/kernel/sched_rms.c:203-221 | the current task is charged and `p`'s countdown takes one `Countdown.Tick`. On expiry under RMS, `p` moves to the tail and its need-resched flag is set. Under SJF, and on any tick that does not expire, the list and the flag are unchanged (sched_sjf.c:203-234) |
| `Sched.RunQueue.LoadBalanceStart` | hw2/RTS_PJ2_Team7/Code/linux-2.6.32.60/kernel/sched_sjf.c:132-149 | the result and the new cursor are `LoadBalance.Start` of the list: the tail, with the cursor on its predecessor |
| `Sched.RunQueue.LoadBalanceNext` | hw2/RTS_PJ2_Team7/Code/linux-2.6.32.60/kernel/sched_sjf.c:151-164 | the result and the new cursor are `LoadBalance.Next`: the task under the cursor, with the cursor moved to its predecessor |

## Findings

| source | as written | input that shows it | evidently intended | confidence | as-written member | corrected member |
|---|---|---|---|---|---|---|
| hw2/RTS_PJ2_Team7/Code/linux-2.6.32.60/kernel/sched_sjf.c:138-163 (same code at sched_rms.c:138-163) | `load_balance_start_*` and `load_balance_next_*` never compare the cursor with the list head. On an empty queue `start` returns `list_entry(head)`. When the cursor is on the head, `next` returns `list_entry(head)` and moves the cursor round to the tail. | a queue of one task `t`: `start`, `next`, `next` hand out `t`, the head as if it were a task, then `t` a second time. An empty queue: `start` hands out the head. | return NULL when the cursor reaches the head, so that every task is handed out at most once and only tasks are handed out. `start` stores the head in `*_load_balance_head` (sched_sjf.c:145, sched_rms.c:145), but nothing ever reads it: the comparison with the head that this field exists for is missing. | medium; not executed | `LoadBalance.AsWrittenWalkRevisitsTail` | `LoadBalance.WalkTailToHead` |

The class methods `LoadBalanceStart` and `LoadBalanceNext` use the corrected
iterator and return `None` at the head.

## Left out

- `load_balance_*` and `move_one_task_*` (sched_sjf.c:166-197) only pass the
  iterator to the host's `balance_tasks` and `iter_move_one_task`. Those are
  not part of this model.
- `check_preempt_curr_*` has an empty body, so it has nothing to model.
- `cpuacct_charge` reports the charge to a CPU-accounting subsystem outside
  this core. It is not modelled.
- `schedstat_set` is modelled as always assigning `exec_max`, as when
  `CONFIG_SCHEDSTATS` is enabled. Without that option, `exec_max` would stay
  unchanged.
- `set_tsk_need_resched` is the boolean field `Task.needResched`.
  `resched_task` and the host's `check_preempt_curr` are returned as a
  `SwitchAction` for the host to carry out.
- `smp_processor_id()` and `task_cpu(p)` are parameters of `SelectTaskRq`.
- `SD_BALANCE_WAKE` takes the value 0x0010 from the 2.6.32 header
  include/linux/sched.h, which is not part of this model.
- Accounting: `Accounting.Charge` uses unbounded integers. `u64` wrap-around
  is not modelled. A forward difference of 2^63 or more, which the `(s64)`
  cast would read as negative and clamp to 0, is charged in full.
- Tick countdown: the C type of `task_time_slice` and where it is first set
  are not in the modelled files. It is an unbounded `int`, so a countdown
  that starts at 0 goes negative instead of wrapping.
- Selection: the truncation of an `unsigned` slice into `int min_value` is
  not modelled.
- The list: the intrusive `list_head` ring is a sequence. O(1) linking and
  unlinking are not captured. The load-balance cursor is the task it rests
  on, or `None` for the head.
- `sjf_load_balance_head` / `rms_load_balance_head` are stored by `start` but
  never read, so they are not modelled.
- `Sched.RunQueue.LoadBalanceNext` requires that the task under the cursor is
  still linked. In the source, an unlinked cursor node would be followed
  through poisoned pointers.
- Unused parameters are dropped: `wakeup`, `b`, `sleep`, `queued`,
  `wakeflags` and `flags`.
- The SJF preemption scan and the requeue and resched lines of `task_tick_sjf`
  are commented out in the source, so they are not modelled.
- Per-CPU locking, SMP and interrupt context are not modelled. Every
  operation runs with the caller holding the run queue's lock.
- The host keeps each task in at most one class's queue. That invariant
  spans several queues and is not modelled. Within one queue it is part of
  `Valid()`.
- `printk` and `DEBUG` lines are left out, as are the `sched_class` tables.
  The tables are replaced by the `Policy` datatype and the `cls` field.
