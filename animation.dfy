/**
 * The animation system's tasks (src/systems/animation/Animation.cpp): submit_tasks refills
 * the system's stack with three countdown groups of ten and two blocks of four independent
 * tasks, and re-submits itself once the last group has finished.
 */
module AnimationSystem {
  import opened Wrappers
  import opened Tasks
  import opened Checkpoints
  import opened Latch
  import opened Memory
  import opened Scheduler
  import opened Submit
  import Priority

  /** The checkpoint that task_group<g> reports from the last task of its group (lines 121-161). */
  function GroupCheckpoint(group: nat): (c: bv64)
    requires 1 <= group <= 3
    ensures c in {SCP_ANIMATION1, SCP_ANIMATION2, SCP_ANIMATION3}
  {
    if group == 1 then SCP_ANIMATION1 else if group == 2 then SCP_ANIMATION2 else SCP_ANIMATION3
  }

  /** A task of group g over the group's counter, requiring `current` of this frame. */
  function GroupEntry(group: nat, counter: Counter, current: bv64): Entry
  {
    Entry(TaskGroup(Animation, group), Some(GroupCounter(counter)), SCP_NONE, current)
  }

  /** An independent task with its some_param. */
  function IndependentEntry(someParam: bv32): Entry
  {
    Entry(IndependentTask(Animation), Some(SomeParam(someParam)), SCP_NONE, SCP_NONE)
  }

  /** The task that re-submits the stack once group 3 has finished (lines 28-34). */
  const SUBMIT_ENTRY := Entry(SubmitTasks(Animation), None, SCP_NONE, SCP_ANIMATION3)

  /** The number of tasks submit_tasks puts on the stack above dont_do_it (line 109). */
  const STACK_TASKS: nat := 39

  /**
   * Slot k of the stack as submit_tasks writes it (lines 28-107): the re-submission in slot 1,
   * ten tasks of group 3 needing ANIMATION2, four independent tasks with some_param 42 - i,
   * ten of group 2 needing INPUT1 and ANIMATION1, four independent with 42 + i, and ten of
   * group 1 needing nothing.
   */
  function SlotEntry(k: nat, group1: Counter, group2: Counter, group3: Counter): Entry
    requires 1 <= k <= STACK_TASKS
  {
    if k == 1 then SUBMIT_ENTRY
    else if k <= 11 then GroupEntry(3, group3, SCP_ANIMATION2)
    else if k <= 15 then IndependentEntry(42 - (k - 12) as bv32)
    else if k <= 25 then GroupEntry(2, group2, SCP_INPUT1 | SCP_ANIMATION1)
    else if k <= 29 then IndependentEntry(42 + (k - 26) as bv32)
    else GroupEntry(1, group1, SCP_NONE)
  }

  /** Slots 1 .. 39 in order. */
  function Layout(group1: Counter, group2: Counter, group3: Counter): (l: seq<Entry>)
    ensures |l| == STACK_TASKS
  {
    seq(STACK_TASKS, i requires 0 <= i < STACK_TASKS => SlotEntry(i + 1, group1, group2, group3))
  }

  /**
   * The dependency chain: every task of group 2 or 3 requires, in the current frame, the
   * checkpoint the group before it reports, and the re-submission requires the one group 3
   * reports; group 1 and the independent tasks wait for nothing.
   */
  lemma DependencyChain(group1: Counter, group2: Counter, group3: Counter, k: nat)
    requires 1 <= k <= STACK_TASKS
    ensures var e := SlotEntry(k, group1, group2, group3);
            (e.execute.TaskGroup? && e.execute.group > 1 ==> e.current & GroupCheckpoint(e.execute.group - 1) != 0)
            && (e.execute.SubmitTasks? ==> e.current == GroupCheckpoint(3))
            && (e.execute.TaskGroup? && e.execute.group == 1 ==> e.current == SCP_NONE && e.previous == SCP_NONE)
  {
  }

  /** The first of the ten slots of group g (lines 37-49, 66-78, 95-107). */
  function GroupStart(group: nat): nat
  {
    if group == 3 then 2 else if group == 2 then 16 else 30
  }

  /**
   * Slot k carries group g's counter exactly when it is one of the ten slots from
   * GroupStart(g), and those slots all run task_group<g>: with the counter armed with 9,
   * OneReportPerGroup(9) makes exactly one of them report the group's checkpoint.
   */
  lemma GroupsOfTen(group1: Counter, group2: Counter, group3: Counter, group: nat, k: nat)
    requires 1 <= group <= 3 && group1 != group2 && group2 != group3 && group1 != group3
    requires 1 <= k <= STACK_TASKS
    ensures var c := if group == 1 then group1 else if group == 2 then group2 else group3;
            var e := SlotEntry(k, group1, group2, group3);
            (e.payload == Some(GroupCounter(c)) <==> GroupStart(group) <= k < GroupStart(group) + 10)
            && (e.payload == Some(GroupCounter(c)) ==> e.execute == TaskGroup(Animation, group))
  {
  }

  /** The animation system's statics: its stack index, argument allocator and group counters. */
  class SystemState {
    const systemId: nat
    const taskArgs: LinearAllocator32kb
    const group1: Counter
    const group2: Counter
    const group3: Counter

    constructor (systemId: nat, taskArgs: LinearAllocator32kb)
      ensures this.systemId == systemId && this.taskArgs == taskArgs
      ensures fresh(group1) && fresh(group2) && fresh(group3)
    {
      this.systemId := systemId;
      this.taskArgs := taskArgs;
      group1 := new Counter();
      group2 := new Counter();
      group3 := new Counter();
    }

    /**
     * submit_tasks (lines 24-112): the argument allocator starts over, each group counter
     * is armed with 9 before its block, the stack from slot 1 becomes Layout, and the stack
     * word is published with count 39. Slot 0 and every other stack are left alone.
     */
    method SubmitTasks(sched: Scheduler) returns (reached: bv64)
      requires sched.Shaped() && sched.stackSizes != sched.iterations && systemId < Priority.NUM_STACKS
      requires taskArgs.pool.Valid() && 0 <= taskArgs.segment < NUM_SEGMENTS && taskArgs.block < 64
      modifies sched.stacks, sched.stackSizes, taskArgs`position, group1, group2, group3
      ensures Filled(sched, systemId, 1, Layout(group1, group2, group3))
      ensures forall s, i :: 0 <= s < Priority.NUM_STACKS && 0 <= i < STACK_SIZE && (s != systemId || i == 0 || STACK_TASKS < i)
                             ==> sched.stacks[s, i] == old(sched.stacks[s, i])
      ensures sched.stackSizes[..] == old(sched.stackSizes[..])[systemId := Publish(sched.iterations[systemId], STACK_TASKS as bv32)]
      ensures group1.value == 9 && group2.value == 9 && group3.value == 9
      ensures taskArgs.Claimed() && taskArgs.position <= taskArgs.Base() + STACK_TASKS * ARGS_STEP
      ensures reached == SCP_NONE
    {
      taskArgs.Clear();
      group3.Store(9);
      group2.Store(9);
      group1.Store(9);
      WriteStack(sched, systemId, taskArgs, Layout(group1, group2, group3));
      reached := SCP_NONE;
    }
  }

  /** independent_task (lines 114-119): the simulated work reports no checkpoint. */
  method IndependentTaskRun(args: Args) returns (reached: bv64)
    ensures reached == SCP_NONE
  {
    reached := SCP_NONE;
  }

  /**
   * task_group1/2/3 (lines 121-161): count the group's latch down; the task that saw 0
   * reports the group's checkpoint, every other task none.
   */
  method TaskGroupRun(group: nat, args: Args) returns (reached: bv64)
    requires 1 <= group <= 3 && args.Block? && args.payload.GroupCounter? && args.payload.counter.Valid()
    modifies args.payload.counter
    ensures args.payload.counter.Valid() && args.payload.counter.value == (old(args.payload.counter.value) - 1) % UINT32
    ensures reached == if old(args.payload.counter.value) == 0 then GroupCheckpoint(group) else SCP_NONE
  {
    reached := Arrive(args.payload.counter, GroupCheckpoint(group));
  }
}
