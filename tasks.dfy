/**
 * The entries of the task stacks (task_t, TaskScheduling.h:48-54) and the packed stack word
 * s_stack_sizes[s] = (iteration << 7) | count (TaskScheduling.cpp:103-104, 127).
 */
module Tasks {
  import opened Latch

  /** The engine systems that own a task stack. */
  datatype System = Input | Animation | Rendering | LegacyRendering

  /** What task.execute points at. */
  datatype Routine =
    | NoRoutine                          // a slot never written
    | DontDoIt                           // slot 0 of every stack
    | SubmitTasks(system: System)        // refills the system's stack
    | IndependentTask(system: System)
    | TaskGroup(system: System, group: nat)
    | InputTask
    | WritePerfOverlayTask
    | PresentTask

  /** The argument block a task's args points at, as the submitting code filled it in. */
  datatype Payload =
    | SomeParam(someParam: bv32)                                        // independent_task_args_t
    | GroupCounter(counter: Counter)                                   // task_groupN_args_t
    | PerfOverlay(threadLog: bv32, iteration: bv32, counter: Counter)  // write_perf_overlay_task_args_t

  /** task.args: nullptr, a stack index cast to a pointer, or a block in a task-argument allocator. */
  datatype Args = NoArgs | StackIndex(stack: nat) | Block(address: int, payload: Payload)

  datatype Task = Task(execute: Routine, args: Args, checkpointsPreviousFrame: bv64, checkpointsCurrentFrame: bv64)

  /** The zero-initialised slot. */
  const EMPTY_TASK := Task(NoRoutine, NoArgs, 0, 0)

  /** Byte sizes of the argument structs on a 64-bit target (allocated with alignment 4). */
  const INDEPENDENT_ARGS_SIZE: int := 4
  const GROUP_ARGS_SIZE: int := 8
  const PERF_OVERLAY_ARGS_SIZE: int := 40

  /** sizeof the argument struct that holds a payload. */
  function ArgsSize(p: Payload): (n: nat)
    ensures n <= PERF_OVERLAY_ARGS_SIZE
  {
    match p
    case SomeParam(_) => INDEPENDENT_ARGS_SIZE
    case GroupCounter(_) => GROUP_ARGS_SIZE
    case PerfOverlay(_, _, _) => PERF_OVERLAY_ARGS_SIZE
  }

  // ------------------------------------------------------------ the packed stack word

  const STACK_SIZE: int := 128
  const COUNT_MASK: bv32 := 0x7F

  /** (s_iterations[system_id] << 7) | stack_size, as published by a submit_tasks. */
  function Publish(iteration: bv32, count: bv32): (ss: bv32)
    requires count < 128
    ensures ss & COUNT_MASK == count
    ensures ss >> 7 == iteration & 0x1FF_FFFF
  {
    (iteration << 7) | count
  }

  /** The pop of line 127: one task fewer, same iteration field, when the count is not 0. */
  lemma PopKeepsIteration(ss: bv32)
    requires ss & COUNT_MASK != 0
    ensures (ss - 1) & COUNT_MASK == (ss & COUNT_MASK) - 1
    ensures (ss - 1) >> 7 == ss >> 7
  {
  }
}
