/**
 * The earlier rendering system (src/systems/Rendering.cpp): submit_tasks refills the
 * system's stack with three countdown groups of ten, each followed by four independent
 * tasks, and re-submits itself once group 3 has finished.
 */
module LegacyRenderingSystem {
  import opened Wrappers
  import opened Tasks
  import opened Checkpoints
  import opened Latch
  import opened Memory
  import opened Scheduler
  import opened Submit
  import Priority

  /** The checkpoint that task_group<g> reports from the last task of its group (lines 143-183). */
  function GroupCheckpoint(group: nat): (c: bv64)
    requires 1 <= group <= 3
    ensures c in {SCP_RENDERING1, SCP_RENDERING2, SCP_RENDERING3}
  {
    if group == 1 then SCP_RENDERING1 else if group == 2 then SCP_RENDERING2 else SCP_RENDERING3
  }

  /** A task of group g over the group's counter, requiring `current` of this frame. */
  function GroupEntry(group: nat, counter: Counter, current: bv64): Entry
  {
    Entry(TaskGroup(LegacyRendering, group), Some(GroupCounter(counter)), SCP_NONE, current)
  }

  /** An independent task with its some_param, an int32 the stack stores as it is. */
  function IndependentEntry(someParam: nat): Entry
    requires someParam < 0x1_0000_0000
  {
    Entry(IndependentTask(LegacyRendering), Some(SomeParam(someParam as bv32)), SCP_NONE, SCP_NONE)
  }

  /** The task that re-submits the stack once group 3 has finished (lines 37-42). */
  const SUBMIT_ENTRY := Entry(SubmitTasks(LegacyRendering), None, SCP_NONE, SCP_RENDERING3)

  /** The number of tasks submit_tasks puts on the stack above dont_do_it (line 131). */
  const STACK_TASKS: nat := 43

  /**
   * Slot k of the stack as submit_tasks writes it (lines 36-129): the re-submission, ten
   * tasks of group 3 needing RENDERING2, four independent tasks with some_param 42 - i, ten
   * of group 2 needing PHYSICS4 and RENDERING1, four with 42 + i, ten of group 1 needing
   * INPUT1, and four more with 42 + i.
   */
  function SlotEntry(k: nat, group1: Counter, group2: Counter, group3: Counter): Entry
    requires 1 <= k <= STACK_TASKS
  {
    if k == 1 then SUBMIT_ENTRY
    else if k <= 11 then GroupEntry(3, group3, SCP_RENDERING2)
    else if k <= 15 then IndependentEntry(42 - (k - 12))
    else if k <= 25 then GroupEntry(2, group2, SCP_PHYSICS4 | SCP_RENDERING1)
    else if k <= 29 then IndependentEntry(42 + (k - 26))
    else if k <= 39 then GroupEntry(1, group1, SCP_INPUT1)
    else IndependentEntry(42 + (k - 40))
  }

  /** Slots 1 .. 43 in order. */
  function Layout(group1: Counter, group2: Counter, group3: Counter): (l: seq<Entry>)
    ensures |l| == STACK_TASKS
  {
    seq(STACK_TASKS, i requires 0 <= i < STACK_TASKS => SlotEntry(i + 1, group1, group2, group3))
  }

  /**
   * The dependency chain: group 1 waits for the input system, each later group for the
   * checkpoint of the group before it, and the re-submission for the one group 3 reports;
   * the independent tasks wait for nothing.
   */
  lemma DependencyChain(group1: Counter, group2: Counter, group3: Counter, k: nat)
    requires 1 <= k <= STACK_TASKS
    ensures var e := SlotEntry(k, group1, group2, group3);
            && e.previous == SCP_NONE
            && (e.execute.TaskGroup? && e.execute.group > 1 ==> e.current & GroupCheckpoint(e.execute.group - 1) != 0)
            && (e.execute.TaskGroup? && e.execute.group == 1 ==> e.current == SCP_INPUT1)
            && (e.execute.SubmitTasks? ==> e.current == GroupCheckpoint(3))
            && (e.execute.IndependentTask? ==> e.current == SCP_NONE)
  {
    if k == 1 {
    } else if k <= 11 {
    } else if k <= 15 {
    } else if k <= 25 {
      assert (SCP_PHYSICS4 | SCP_RENDERING1) & SCP_RENDERING1 != 0;
    } else if k <= 29 {
    } else if k <= 39 {
    } else {
    }
  }

  /** The first of the ten slots of group g (lines 45-57, 74-86, 103-115). */
  function GroupStart(group: nat): nat
  {
    if group == 3 then 2 else if group == 2 then 16 else 30
  }

  /**
   * Slot k carries group g's counter exactly when it is one of the ten slots from
   * GroupStart(g), and those slots all run task_group<g>.
   */
  lemma GroupsOfTen(group1: Counter, group2: Counter, group3: Counter, group: nat, k: nat)
    requires 1 <= group <= 3 && group1 != group2 && group2 != group3 && group1 != group3
    requires 1 <= k <= STACK_TASKS
    ensures var c := if group == 1 then group1 else if group == 2 then group2 else group3;
            var e := SlotEntry(k, group1, group2, group3);
            (e.payload == Some(GroupCounter(c)) <==> GroupStart(group) <= k < GroupStart(group) + 10)
            && (e.payload == Some(GroupCounter(c)) ==> e.execute == TaskGroup(LegacyRendering, group))
  {
  }

  /**
   * The independent tasks sit in the three blocks of four after the groups, and carry
   * 42, 41, 40, 39 in the first block and 42, 43, 44, 45 in the other two.
   */
  lemma IndependentBlocks(group1: Counter, group2: Counter, group3: Counter, k: nat)
    requires 1 <= k <= STACK_TASKS
    ensures var e := SlotEntry(k, group1, group2, group3);
            (e.execute.IndependentTask? <==> 12 <= k <= 15 || 26 <= k <= 29 || 40 <= k <= 43)
            && (12 <= k <= 15 ==> e == IndependentEntry(54 - k))
            && (26 <= k <= 29 ==> e == IndependentEntry(k + 16))
            && (40 <= k <= 43 ==> e == IndependentEntry(k + 2))
  {
  }

  /** The system's statics: its stack index, argument allocator and group counters. */
  class SystemState {
    const systemId: nat
    const taskArgs: LinearAllocator32kb
    const group1: Counter
    const group2: Counter
    const group3: Counter

    constructor (systemId: nat, taskArgs: LinearAllocator32kb)
      ensures this.systemId == systemId && this.taskArgs == taskArgs
      ensures fresh(group1) && fresh(group2) && fresh(group3)
    {
      this.systemId := systemId;
      this.taskArgs := taskArgs;
      group1 := new Counter();
      group2 := new Counter();
      group3 := new Counter();
    }

    /**
     * submit_tasks (lines 32-134): the argument allocator starts over, each group counter
     * is armed with 9, the stack from slot 1 becomes Layout, and the stack word is published
     * with count 43. Slot 0 and every other stack are left alone.
     */
    method SubmitTasks(sched: Scheduler) returns (reached: bv64)
      requires sched.Shaped() && sched.stackSizes != sched.iterations && systemId < Priority.NUM_STACKS
      requires taskArgs.pool.Valid() && 0 <= taskArgs.segment < NUM_SEGMENTS && taskArgs.block < 64
      modifies sched.stacks, sched.stackSizes, taskArgs`position, group1, group2, group3
      ensures Filled(sched, systemId, 1, Layout(group1, group2, group3))
      ensures forall s, i :: 0 <= s < Priority.NUM_STACKS && 0 <= i < STACK_SIZE && (s != systemId || i == 0 || STACK_TASKS < i)
                             ==> sched.stacks[s, i] == old(sched.stacks[s, i])
      ensures sched.stackSizes[..] == old(sched.stackSizes[..])[systemId := Publish(sched.iterations[systemId], STACK_TASKS as bv32)]
      ensures group1.value == 9 && group2.value == 9 && group3.value == 9
      ensures taskArgs.Claimed() && taskArgs.position <= taskArgs.Base() + STACK_TASKS * ARGS_STEP
      ensures reached == SCP_NONE
    {
      taskArgs.Clear();
      group3.Store(9);
      group2.Store(9);
      group1.Store(9);
      WriteStack(sched, systemId, taskArgs, Layout(group1, group2, group3));
      reached := SCP_NONE;
    }
  }

  /** independent_task (lines 136-141): the simulated work reports no checkpoint. */
  method IndependentTaskRun(args: Args) returns (reached: bv64)
    ensures reached == SCP_NONE
  {
    reached := SCP_NONE;
  }

  /**
   * task_group1/2/3 (lines 143-183): count the group's latch down; the task that saw 0
   * reports RENDERING<g>, every other task none.
   */
  method TaskGroupRun(group: nat, args: Args) returns (reached: bv64)
    requires 1 <= group <= 3 && args.Block? && args.payload.GroupCounter? && args.payload.counter.Valid()
    modifies args.payload.counter
    ensures args.payload.counter.Valid() && args.payload.counter.value == (old(args.payload.counter.value) - 1) % UINT32
    ensures reached == if old(args.payload.counter.value) == 0 then GroupCheckpoint(group) else SCP_NONE
  {
    reached := Arrive(args.payload.counter, GroupCheckpoint(group));
  }
}
