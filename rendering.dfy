/**
 * The rendering system's tasks (src/systems/rendering/Rendering.cpp): submit_tasks refills
 * the system's stack with its own re-submission, the present task, one performance-overlay
 * task per worker thread and three countdown groups of ten; the overlay tasks collect the
 * profiling counts of two iterations ago, and the present task reports that the frame is out.
 */
module RenderingSystem {
  import opened Wrappers
  import opened Tasks
  import opened Checkpoints
  import opened Latch
  import opened Memory
  import opened Scheduler
  import opened Submit
  import Priority

  /** The checkpoint that task_group<g> reports from the last task of its group (lines 195-235). */
  function GroupCheckpoint(group: nat): (c: bv64)
    requires 1 <= group <= 3
    ensures c in {SCP_RENDERING1, SCP_RENDERING2, SCP_RENDERING3}
  {
    if group == 1 then SCP_RENDERING1 else if group == 2 then SCP_RENDERING2 else SCP_RENDERING3
  }

  /** A task of group g over the group's counter, requiring `current` of this frame. */
  function GroupEntry(group: nat, counter: Counter, current: bv64): Entry
  {
    Entry(TaskGroup(Rendering, group), Some(GroupCounter(counter)), SCP_NONE, current)
  }

  /** The re-submission, once the frame has been presented (lines 50-56). */
  const SUBMIT_ENTRY := Entry(SubmitTasks(Rendering), None, SCP_NONE, SCP_RENDERING_PRESENT)

  /** The present task, once every overlay task has run (lines 58-66). */
  const PRESENT_ENTRY := Entry(PresentTask, None, SCP_NONE, SCP_RENDERING_WRITE_PERF_OVERLAY)

  /** The overlay task of worker thread i, after group 3 (lines 72-87). */
  function OverlayEntry(i: nat, iteration: bv32, counter: Counter): Entry
    requires i < STACK_SIZE
  {
    Entry(WritePerfOverlayTask, Some(PerfOverlay(i as bv32, iteration, counter)), SCP_NONE, SCP_RENDERING3)
  }

  /** The number of tasks above dont_do_it for `workers` worker threads. */
  function StackTasks(workers: nat): nat
  {
    2 + workers + 30
  }

  /**
   * Slot k of the stack as submit_tasks writes it (lines 48-181): the re-submission, the
   * present task, one overlay task per worker thread with the system's iteration, ten tasks
   * of group 3 needing RENDERING2, ten of group 2 needing PHYSICS4 and RENDERING1, and ten
   * of group 1 needing INPUT1.
   */
  function SlotEntry(k: nat, workers: nat, iteration: bv32, overlay: Counter,
                     group1: Counter, group2: Counter, group3: Counter): Entry
    requires 1 <= k <= StackTasks(workers) && workers < STACK_SIZE
  {
    if k == 1 then SUBMIT_ENTRY
    else if k == 2 then PRESENT_ENTRY
    else if k <= 2 + workers then OverlayEntry(k - 3, iteration, overlay)
    else if k <= 12 + workers then GroupEntry(3, group3, SCP_RENDERING2)
    else if k <= 22 + workers then GroupEntry(2, group2, SCP_PHYSICS4 | SCP_RENDERING1)
    else GroupEntry(1, group1, SCP_INPUT1)
  }

  /** Slots 1 .. StackTasks(workers) in order. */
  function Layout(workers: nat, iteration: bv32, overlay: Counter,
                  group1: Counter, group2: Counter, group3: Counter): (l: seq<Entry>)
    requires workers < STACK_SIZE
    ensures |l| == StackTasks(workers)
  {
    seq(StackTasks(workers), i requires 0 <= i < StackTasks(workers) =>
      SlotEntry(i + 1, workers, iteration, overlay, group1, group2, group3))
  }

  /**
   * The frame's pipeline: group 1 waits for the input system, each later group for the
   * group before it, the overlay tasks for group 3, the present task for the overlay, and
   * the re-submission for the present task.
   */
  lemma DependencyChain(workers: nat, iteration: bv32, overlay: Counter,
                        group1: Counter, group2: Counter, group3: Counter, k: nat)
    requires 1 <= k <= StackTasks(workers) && workers < STACK_SIZE
    ensures var e := SlotEntry(k, workers, iteration, overlay, group1, group2, group3);
            && e.previous == SCP_NONE
            && (e.execute.TaskGroup? && e.execute.group > 1 ==> e.current & GroupCheckpoint(e.execute.group - 1) != 0)
            && (e.execute.TaskGroup? && e.execute.group == 1 ==> e.current == SCP_INPUT1)
            && (e.execute == WritePerfOverlayTask ==> e.current == GroupCheckpoint(3))
            && (e.execute == PresentTask ==> e.current == SCP_RENDERING_WRITE_PERF_OVERLAY)
            && (e.execute.SubmitTasks? ==> e.current == SCP_RENDERING_PRESENT)
  {
  }

  /**
   * Slot k carries the overlay counter exactly when it is one of the `workers` slots after
   * the present task, and the task there logs worker thread k - 3 of this iteration: each
   * worker's profiling count is collected by exactly one task.
   */
  lemma OverlayPerThread(workers: nat, iteration: bv32, overlay: Counter,
                         group1: Counter, group2: Counter, group3: Counter, k: nat)
    requires workers < STACK_SIZE && overlay != group1 && overlay != group2 && overlay != group3
    requires 1 <= k <= StackTasks(workers)
    ensures var e := SlotEntry(k, workers, iteration, overlay, group1, group2, group3);
            (e.execute == WritePerfOverlayTask <==> 3 <= k < 3 + workers)
            && (e.execute == WritePerfOverlayTask ==>
                  e.payload == Some(PerfOverlay((k - 3) as bv32, iteration, overlay)))
            && (e.payload.Some? && e.payload.value.counter == overlay ==> e.execute == WritePerfOverlayTask)
  {
  }

  /** The first of the ten slots of group g. */
  function GroupStart(workers: nat, group: nat): nat
  {
    if group == 3 then 3 + workers else if group == 2 then 13 + workers else 23 + workers
  }

  /**
   * Slot k carries group g's counter exactly when it is one of the ten slots from
   * GroupStart(g), and those slots all run task_group<g>.
   */
  lemma GroupsOfTen(workers: nat, iteration: bv32, overlay: Counter,
                    group1: Counter, group2: Counter, group3: Counter, group: nat, k: nat)
    requires workers < STACK_SIZE && 1 <= group <= 3
    requires group1 != group2 && group2 != group3 && group1 != group3
    requires 1 <= k <= StackTasks(workers)
    ensures var c := if group == 1 then group1 else if group == 2 then group2 else group3;
            var e := SlotEntry(k, workers, iteration, overlay, group1, group2, group3);
            (e.payload == Some(GroupCounter(c)) <==> GroupStart(workers, group) <= k < GroupStart(workers, group) + 10)
            && (e.payload == Some(GroupCounter(c)) ==> e.execute == TaskGroup(Rendering, group))
  {
  }

  /** The rendering system's statics: stack index, argument allocator, counters and overlay state. */
  class SystemState {
    const systemId: nat
    const taskArgs: LinearAllocator32kb
    const group1: Counter
    const group2: Counter
    const group3: Counter
    /** num_executed_perf_overlay */
    const overlay: Counter
    /** perf_overlay_start_time */
    var overlayStartTime: real
    /** perf_overlay_write_offset */
    var overlayWriteOffset: int

    /** The four counters are four separate atomics. */
    predicate Distinct()
    {
      overlay != group1 && overlay != group2 && overlay != group3
      && group1 != group2 && group2 != group3 && group1 != group3
    }

    constructor (systemId: nat, taskArgs: LinearAllocator32kb)
      ensures this.systemId == systemId && this.taskArgs == taskArgs
      ensures fresh(group1) && fresh(group2) && fresh(group3) && fresh(overlay) && Distinct()
    {
      this.systemId := systemId;
      this.taskArgs := taskArgs;
      group1 := new Counter();
      group2 := new Counter();
      group3 := new Counter();
      overlay := new Counter();
    }

    /**
     * The stores of lines 69-71, 90, 122 and 153: the overlay latch is armed with
     * workers - 1 (as a uint32), the overlay start time and write offset are zeroed, and each
     * group latch is armed with 9.
     */
    method ArmCounters(workers: nat)
      requires Distinct()
      modifies overlay, group1, group2, group3, this`overlayStartTime, this`overlayWriteOffset
      ensures overlay.Valid() && overlay.value == (workers - 1) % UINT32
      ensures overlayStartTime == 0.0 && overlayWriteOffset == 0
      ensures group1.value == 9 && group2.value == 9 && group3.value == 9
    {
      overlay.Store((workers - 1) % UINT32);
      overlayStartTime := 0.0;
      overlayWriteOffset := 0;
      group3.Store(9);
      group2.Store(9);
      group1.Store(9);
    }

    /**
     * submit_tasks (lines 42-186) with `workers` worker threads: the argument allocator
     * starts over, the overlay counter is armed with workers - 1 (as a uint32), the overlay
     * start time and write offset are zeroed, each group counter is armed with 9, the stack
     * from slot 1 becomes Layout, and the stack word is published with its length. Slot 0
     * and every other stack are left alone.
     */
    method SubmitTasks(sched: Scheduler, workers: nat) returns (reached: bv64)
      requires sched.Shaped() && sched.stackSizes != sched.iterations && systemId < Priority.NUM_STACKS
      requires StackTasks(workers) < STACK_SIZE && Distinct()
      requires taskArgs.pool.Valid() && 0 <= taskArgs.segment < NUM_SEGMENTS && taskArgs.block < 64
      modifies sched.stacks, sched.stackSizes, taskArgs`position, this`overlayStartTime, this`overlayWriteOffset
      modifies overlay, group1, group2, group3
      ensures Filled(sched, systemId, 1, Layout(workers, sched.iterations[systemId], overlay, group1, group2, group3))
      ensures forall s, i :: 0 <= s < Priority.NUM_STACKS && 0 <= i < STACK_SIZE
                             && (s != systemId || i == 0 || StackTasks(workers) < i)
                             ==> sched.stacks[s, i] == old(sched.stacks[s, i])
      ensures sched.stackSizes[..] == old(sched.stackSizes[..])[systemId := Publish(sched.iterations[systemId], StackTasks(workers) as bv32)]
      ensures overlay.Valid() && overlay.value == (workers - 1) % UINT32
      ensures overlayStartTime == 0.0 && overlayWriteOffset == 0
      ensures group1.value == 9 && group2.value == 9 && group3.value == 9
      ensures taskArgs.Claimed() && taskArgs.position <= taskArgs.Base() + StackTasks(workers) * ARGS_STEP
      ensures reached == SCP_NONE
    {
      taskArgs.Clear();
      ArmCounters(workers);
      var layout := Layout(workers, sched.iterations[systemId], overlay, group1, group2, group3);
      WriteStack(sched, systemId, taskArgs, layout);
      reached := SCP_NONE;
    }
  }

  /** With at least one worker, the overlay latch reports WRITE_PERF_OVERLAY once, from the last overlay task. */
  lemma OneOverlayReport(workers: nat)
    requires 1 <= workers < UINT32
    ensures Reports((workers - 1) % UINT32, workers - 1) == 0
    ensures Reports((workers - 1) % UINT32, workers) == 1
  {
    OneReportPerGroup(workers - 1);
  }

  /** The profiling generation of two iterations ago: (iteration - 2) & 0x03, as a uint32. */
  function Generation(iteration: bv32): (it: bv32)
    ensures it < 4
  {
    (iteration - 2) & 3
  }

  /**
   * The four generations are used in turn: the next three iterations read other
   * generations, and the fourth iteration after reads the same one again.
   */
  lemma GenerationsInTurn(iteration: bv32)
    ensures Generation(iteration + 1) != Generation(iteration)
    ensures Generation(iteration + 2) != Generation(iteration)
    ensures Generation(iteration + 3) != Generation(iteration)
    ensures Generation(iteration + 4) == Generation(iteration)
  {
  }

  /**
   * write_perf_overlay_task (lines 237-335) without the key-P drawing: it takes the number
   * of items its thread logged in the generation of two iterations ago and resets that
   * count, then counts the overlay latch down; the task that saw 0 reports
   * WRITE_PERF_OVERLAY. `logged` is the [4][threads] count table the task indexes.
   */
  method WritePerfOverlayRun(logged: array2<int>, args: Args) returns (numLogged: int, reached: bv64)
    requires args.Block? && args.payload.PerfOverlay? && args.payload.counter.Valid()
    requires logged.Length0 == 4 && (args.payload.threadLog as int) < logged.Length1
    modifies logged, args.payload.counter
    ensures var it, t := Generation(args.payload.iteration) as int, args.payload.threadLog as int;
            && numLogged == old(logged[it, t]) && logged[it, t] == 0
            && forall g, u :: 0 <= g < 4 && 0 <= u < logged.Length1 && (g, u) != (it, t) ==> logged[g, u] == old(logged[g, u])
    ensures args.payload.counter.Valid() && args.payload.counter.value == (old(args.payload.counter.value) - 1) % UINT32
    ensures reached == if old(args.payload.counter.value) == 0 then SCP_RENDERING_WRITE_PERF_OVERLAY else SCP_NONE
  {
    var threadLog := args.payload.threadLog as int;
    var it := Generation(args.payload.iteration) as int;
    numLogged := TakeCount(logged, it, threadLog);
    reached := Arrive(args.payload.counter, SCP_RENDERING_WRITE_PERF_OVERLAY);
  }

  /** Lines 243-244: read one count of the table and reset it; no other count changes. */
  method TakeCount(logged: array2<int>, it: nat, t: nat) returns (n: int)
    requires it < logged.Length0 && t < logged.Length1
    modifies logged
    ensures n == old(logged[it, t]) && logged[it, t] == 0
    ensures forall g, u :: 0 <= g < logged.Length0 && 0 <= u < logged.Length1 && (g, u) != (it, t)
                           ==> logged[g, u] == old(logged[g, u])
  {
    n := logged[it, t];
    logged[it, t] := 0;
  }

  /** present_task (lines 337-355): draws the frame and reports that it was presented. */
  method PresentTaskRun() returns (reached: bv64)
    ensures reached == SCP_RENDERING_PRESENT
  {
    reached := SCP_RENDERING_PRESENT;
  }

  /** independent_task (lines 188-193): reports nothing; no submitted slot runs it. */
  method IndependentTaskRun(args: Args) returns (reached: bv64)
    ensures reached == SCP_NONE
  {
    reached := SCP_NONE;
  }

  /**
   * task_group1/2/3 (lines 195-235): count the group's latch down; the task that saw 0
   * reports RENDERING<g>, every other task none.
   */
  method TaskGroupRun(group: nat, args: Args) returns (reached: bv64)
    requires 1 <= group <= 3 && args.Block? && args.payload.GroupCounter? && args.payload.counter.Valid()
    modifies args.payload.counter
    ensures args.payload.counter.Valid() && args.payload.counter.value == (old(args.payload.counter.value) - 1) % UINT32
    ensures reached == if old(args.payload.counter.value) == 0 then GroupCheckpoint(group) else SCP_NONE
  {
    reached := Arrive(args.payload.counter, GroupCheckpoint(group));
  }
}
