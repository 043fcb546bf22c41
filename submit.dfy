/**
 * What every system's submit_tasks does to the scheduler (Animation.cpp:24-112,
 * rendering/Rendering.cpp:42-186, Rendering.cpp:32-134, input/Input.cpp:80-103): it writes
 * its stack slot by slot from slot 1 upwards, placing each task's argument block in the
 * system's task-argument allocator, and publishes (iteration << 7) | stack_size.
 */
module Submit {
  import opened Wrappers
  import opened Tasks
  import opened Memory
  import opened Scheduler
  import Priority

  /**
   * A stack slot as the submitting code describes it: the routine, the contents of the
   * argument block (None for a nullptr args), and the checkpoints the task requires.
   * Where the block was placed is left to the allocator.
   */
  datatype Entry = Entry(execute: Routine, payload: Option<Payload>, previous: bv64, current: bv64)

  /** The task in a slot is the one the entry describes. */
  predicate Holds(t: Task, e: Entry)
  {
    t.execute == e.execute && t.checkpointsPreviousFrame == e.previous && t.checkpointsCurrentFrame == e.current
    && match e.payload
       case None => t.args == NoArgs
       case Some(p) => t.args.Block? && t.args.payload == p
  }

  /** The task a submit_tasks writes for an entry without argument block. */
  function Plain(e: Entry): (t: Task)
    requires e.payload.None?
    ensures Holds(t, e)
  {
    Task(e.execute, NoArgs, e.previous, e.current)
  }

  /** The most a placement new of one argument block (at most 40 bytes, alignment 4) advances the allocator. */
  const ARGS_STEP: int := 44

  /** Slots `from` .. `to` of stack `system` hold `entries`, in order. */
  ghost predicate Filled(sched: Scheduler, system: nat, from: nat, entries: seq<Entry>)
    reads sched.stacks
    requires sched.Shaped() && system < Priority.NUM_STACKS && from + |entries| <= STACK_SIZE
  {
    forall k :: 0 <= k < |entries| ==> Holds(sched.stacks[system, from + k], entries[k])
  }

  /**
   * The body of a submit_tasks, block after block: for each entry, ++stack_size, a placement
   * new of its argument struct when it has one (args stays nullptr otherwise), and the task
   * written at the new stack_size. Returns the new stack_size; only those slots change.
   */
  method PushTasks(sched: Scheduler, system: nat, alloc: LinearAllocator32kb, size: nat,
                   entries: seq<Entry>) returns (newSize: nat)
    requires sched.Shaped() && system < Priority.NUM_STACKS && size + |entries| < STACK_SIZE
    requires alloc.Claimed() && alloc.position + |entries| * ARGS_STEP < alloc.Base() + BLOCK_SIZE
    modifies sched.stacks, alloc`position
    ensures newSize == size + |entries|
    ensures Filled(sched, system, size + 1, entries)
    ensures forall s, i :: 0 <= s < Priority.NUM_STACKS && 0 <= i < STACK_SIZE && (s != system || i <= size || newSize < i)
                           ==> sched.stacks[s, i] == old(sched.stacks[s, i])
    ensures alloc.Claimed() && old(alloc.position) <= alloc.position <= old(alloc.position) + |entries| * ARGS_STEP
  {
    newSize := size;
    var k := 0;
    while k < |entries|
      invariant 0 <= k <= |entries| && newSize == size + k
      invariant alloc.Claimed() && old(alloc.position) <= alloc.position <= old(alloc.position) + k * ARGS_STEP
      invariant forall j :: 0 <= j < k ==> Holds(sched.stacks[system, size + 1 + j], entries[j])
      invariant forall s, i :: 0 <= s < Priority.NUM_STACKS && 0 <= i < STACK_SIZE && (s != system || i <= size || newSize < i)
                               ==> sched.stacks[s, i] == old(sched.stacks[s, i])
    {
      newSize := newSize + 1;
      PushTask(sched, system, alloc, newSize, entries[k]);
      k := k + 1;
    }
  }

  /**
   * One block of a submit_tasks: the entry's argument struct is placed in the allocator when
   * it has one, and its task is written into slot `slot`; no other slot changes.
   */
  method PushTask(sched: Scheduler, system: nat, alloc: LinearAllocator32kb, slot: nat, e: Entry)
    requires sched.Shaped() && system < Priority.NUM_STACKS && slot < STACK_SIZE
    requires alloc.Claimed() && alloc.position + ARGS_STEP < alloc.Base() + BLOCK_SIZE
    modifies sched.stacks, alloc`position
    ensures Holds(sched.stacks[system, slot], e)
    ensures forall s, i :: 0 <= s < Priority.NUM_STACKS && 0 <= i < STACK_SIZE && (s != system || i != slot)
                           ==> sched.stacks[s, i] == old(sched.stacks[s, i])
    ensures alloc.Claimed() && old(alloc.position) <= alloc.position <= old(alloc.position) + ARGS_STEP
  {
    if e.payload.None? {
      sched.stacks[system, slot] := Plain(e);
    } else {
      var address := New(alloc, ArgsSize(e.payload.value), 1, 4);
      sched.stacks[system, slot] := Task(e.execute, Block(address, e.payload.value), e.previous, e.current);
    }
  }

  /**
   * The closing store of every submit_tasks: the stack word becomes the system's iteration
   * and the new stack size, and no other stack word changes.
   */
  method PublishStack(sched: Scheduler, system: nat, size: nat)
    requires sched.Shaped() && sched.stackSizes != sched.iterations && system < Priority.NUM_STACKS && size < STACK_SIZE
    modifies sched.stackSizes
    ensures sched.stackSizes[..] == old(sched.stackSizes[..])[system := Publish(sched.iterations[system], size as bv32)]
  {
    sched.stackSizes[system] := Publish(sched.iterations[system], size as bv32);
  }

  /**
   * A whole submit_tasks after task_args_memory.Clear(): the stack from slot 1 becomes
   * `layout` and the stack word is published with its length. Slot 0, the slots above the
   * layout and every other stack are left alone.
   */
  method WriteStack(sched: Scheduler, system: nat, alloc: LinearAllocator32kb, layout: seq<Entry>)
    requires sched.Shaped() && sched.stackSizes != sched.iterations && system < Priority.NUM_STACKS
    requires |layout| < STACK_SIZE
    requires alloc.Claimed() && alloc.position + |layout| * ARGS_STEP < alloc.Base() + BLOCK_SIZE
    modifies sched.stacks, sched.stackSizes, alloc`position
    ensures Filled(sched, system, 1, layout)
    ensures forall s, i :: 0 <= s < Priority.NUM_STACKS && 0 <= i < STACK_SIZE && (s != system || i == 0 || |layout| < i)
                           ==> sched.stacks[s, i] == old(sched.stacks[s, i])
    ensures sched.stackSizes[..] == old(sched.stackSizes[..])[system := Publish(sched.iterations[system], |layout| as bv32)]
    ensures alloc.Claimed() && old(alloc.position) <= alloc.position <= old(alloc.position) + |layout| * ARGS_STEP
  {
    var size := PushTasks(sched, system, alloc, 0, layout);
    PublishStack(sched, system, size);
  }
}
