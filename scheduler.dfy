/**
 * The scheduler state of MTaskScheduling (TaskScheduling.cpp:23-30) and the decisions a
 * worker takes on it (worker_thread, lines 79-203), one at a time: which stack to pop from,
 * the pop itself with the iteration bump and priority recompute, and the report of reached
 * checkpoints.
 */
module Scheduler {
  import opened Wrappers
  import opened Bits
  import opened Priority
  import opened Checkpoints
  import opened Tasks

  const NUM_STACKS_BV: bv32 := 16
  /** The number of executed tasks after which a worker signals shutdown (line 191). */
  const SHUTDOWN_COUNT: bv32 := 10_000_000

  class Scheduler {
    /** s_stacks[NUM_STACKS][STACK_SIZE] */
    const stacks: array2<Task>
    /** s_stack_sizes: (iteration << 7) | count per stack */
    const stackSizes: array<bv32>
    /** s_iterations */
    const iterations: array<bv32>
    /** s_pri_mask_main_stack: (main stack << 32) | mask */
    var priMaskMainStack: bv64
    /** s_checkpoints[2] */
    const checkpoints: array<bv64>
    /** g_total_executed: tasks started so far, a uint32 */
    var totalExecuted: bv32

    /** The shapes of the static arrays, and the priority word and iterations a worker relies on. */
    ghost predicate Valid()
      reads this, iterations
    {
      Shaped() && stackSizes != iterations
      && WellFormedWord(priMaskMainStack) && ActiveIterations(Iters())
    }

    /** The iteration counters as numbers. */
    function Iters(): (r: seq<int>)
      reads iterations
      requires iterations.Length == NUM_STACKS
      ensures Iterations(r)
    {
      seq(NUM_STACKS, i requires 0 <= i < NUM_STACKS reads iterations => iterations[i] as int)
    }

    /** The statics before init_scheduler: zero-initialised. */
    constructor ()
      ensures fresh(stacks) && fresh(stackSizes) && fresh(iterations) && fresh(checkpoints)
      ensures stacks.Length0 == NUM_STACKS && stacks.Length1 == STACK_SIZE
      ensures stackSizes.Length == NUM_STACKS && iterations.Length == NUM_STACKS && checkpoints.Length == 2
      ensures forall s, i :: 0 <= s < NUM_STACKS && 0 <= i < STACK_SIZE ==> stacks[s, i] == EMPTY_TASK
      ensures forall s :: 0 <= s < NUM_STACKS ==> stackSizes[s] == 0 && iterations[s] == 0
      ensures priMaskMainStack == 0 && checkpoints[0] == 0 && checkpoints[1] == 0 && totalExecuted == 0
    {
      stacks := new Task[NUM_STACKS, STACK_SIZE]((s, i) => EMPTY_TASK);
      stackSizes := new bv32[NUM_STACKS](s => 0);
      iterations := new bv32[NUM_STACKS](s => 0);
      checkpoints := new bv64[2](i => 0);
      priMaskMainStack := 0;
      totalExecuted := 0;
    }

    /**
     * init_scheduler (lines 62-77): slot 0 of every stack gets dont_do_it with the stack's
     * own index; the idle stacks 5 .. 15 are parked at iteration 0x7FFFFFFF; the priority
     * word allows stacks 0 .. 4 around main stack 0; both checkpoint words become all ones.
     */
    method InitScheduler()
      requires stacks.Length0 == NUM_STACKS && stacks.Length1 == STACK_SIZE
      requires stackSizes.Length == NUM_STACKS && iterations.Length == NUM_STACKS && checkpoints.Length == 2
      requires stackSizes != iterations
      requires forall i :: 0 <= i < 5 ==> (iterations[i] as int) < IDLE_ITERATION
      modifies stacks, iterations, this`priMaskMainStack, checkpoints
      ensures Valid()
      ensures forall s :: 0 <= s < NUM_STACKS ==> stacks[s, 0] == Task(DontDoIt, StackIndex(s), SCP_NONE, SCP_NONE)
      ensures forall s, i :: 0 <= s < NUM_STACKS && 1 <= i < STACK_SIZE ==> stacks[s, i] == old(stacks[s, i])
      ensures forall i :: 0 <= i < 5 ==> iterations[i] == old(iterations[i])
      ensures forall i :: 5 <= i < NUM_STACKS ==> iterations[i] as int == IDLE_ITERATION
      ensures priMaskMainStack == 0x1F
      ensures checkpoints[0] == ALL_CHECKPOINTS && checkpoints[1] == ALL_CHECKPOINTS
    {
      var stack := 0;
      while stack < NUM_STACKS
        modifies stacks
        invariant stack <= NUM_STACKS
        invariant forall s :: 0 <= s < stack ==> stacks[s, 0] == Task(DontDoIt, StackIndex(s), SCP_NONE, SCP_NONE)
        invariant forall s, i :: 0 <= s < NUM_STACKS && 0 <= i < STACK_SIZE && (i != 0 || s >= stack) ==> stacks[s, i] == old(stacks[s, i])
      {
        stacks[stack, 0] := Task(DontDoIt, StackIndex(stack), SCP_NONE, SCP_NONE);
        stack := stack + 1;
      }
      var inactive := 5;
      while inactive < NUM_STACKS
        modifies iterations
        invariant 5 <= inactive <= NUM_STACKS
        invariant forall i :: 0 <= i < 5 ==> iterations[i] == old(iterations[i])
        invariant forall i :: 5 <= i < inactive ==> iterations[i] == 0x7FFF_FFFF
      {
        iterations[inactive] := 0x7FFF_FFFF;
        inactive := inactive + 1;
      }
      priMaskMainStack := 0x1F;
      checkpoints[0] := ALL_CHECKPOINTS;
      checkpoints[1] := ALL_CHECKPOINTS;
      InitialWordWellFormed();
    }

    // ------------------------------------------------------------ readiness

    /** The shapes of the static arrays. */
    predicate Shaped()
    {
      stacks.Length0 == NUM_STACKS && stacks.Length1 == STACK_SIZE
      && stackSizes.Length == NUM_STACKS && iterations.Length == NUM_STACKS && checkpoints.Length == 2
    }

    /** The top task of stack s under the stack word ss: s_stacks[s][ss & 0x7F] (line 104). */
    function Top(s: nat, ss: bv32): Task
      reads stacks
      requires Shaped() && s < NUM_STACKS
    {
      stacks[s, CountIndex(ss)]
    }

    /**
     * The top task of stack s cannot run yet: the blocking word of lines 106-112 is not 0,
     * which BlockWord characterises as a required checkpoint of the frame or of the frame
     * before left unreached, or an empty stack.
     */
    predicate Blocked(s: nat, ss: bv32)
      reads stacks, checkpoints
      requires Shaped() && s < NUM_STACKS
    {
      var task := Top(s, ss);
      BlockWordOf(task.checkpointsCurrentFrame, task.checkpointsPreviousFrame, checkpoints[0], checkpoints[1], ss) != 0
    }

    /** For every stack, whether its top task under its current stack word is blocked. */
    function BlockedStacks(): (r: seq<bool>)
      reads stacks, stackSizes, checkpoints
      requires Shaped()
      ensures |r| == NUM_STACKS
    {
      seq(NUM_STACKS, s requires 0 <= s < NUM_STACKS reads stacks, stackSizes, checkpoints => Blocked(s, stackSizes[s]))
    }

    /** Whether the previous stack's packed iteration still matches its counter (line 96). */
    function SameIteration(prevStack: bv32, prevSs: bv32): bool
      reads iterations
      requires iterations.Length == NUM_STACKS && prevStack < NUM_STACKS_BV
    {
      prevSs >> 7 == iterations[prevStack as int]
    }

    // ------------------------------------------------------------ the worker's decisions

    /**
     * Lines 102-112: read the stack word of stack s and decide whether the task on top of it
     * is blocked.
     */
    method ReadStack(s: bv32) returns (ss: bv32, blocked: bool)
      requires Shaped() && s < NUM_STACKS_BV
      ensures ss == stackSizes[s as int]
      ensures blocked == BlockedStacks()[s as int]
      ensures blocked <==> Blocked(s as int, ss)
      ensures BlockedStacks() == old(BlockedStacks())
    {
      ss := stackSizes[s as int];
      var task := stacks[s as int, CountIndex(ss)];
      var c := BlockWordOf(task.checkpointsCurrentFrame, task.checkpointsPreviousFrame, checkpoints[0], checkpoints[1], ss);
      blocked := c != 0;
    }

    /**
     * The stack search of lines 89-127, up to the point where the mask is exhausted and
     * would be reloaded: the previous stack first if it is allowed and current, else the
     * main stack, then the other allowed stacks by increasing offset from the main stack;
     * the first whose top task can run is chosen. None when every candidate is blocked.
     */
    method SelectStack(prevStack: bv32, prevSs: bv32) returns (found: Option<bv32>)
      requires Shaped() && WellFormedWord(priMaskMainStack) && prevStack < NUM_STACKS_BV
      ensures var cands := Candidates(priMaskMainStack, prevStack, SameIteration(prevStack, prevSs));
              (forall i :: 0 <= i < |cands| ==> cands[i] < NUM_STACKS_BV)
              && found == FirstReady(cands, BlockedStacks())
    {
      var word := priMaskMainStack;
      var same := SameIteration(prevStack, prevSs);
      CandidatesInRange(word, prevStack, same);
      var first := FirstTry(word, prevStack, same);
      found := WalkStacks(MainOf(word), first.0, first.1, Candidates(word, prevStack, same));
    }

    /**
     * The do-while of lines 99-127 from the first stack to try: each blocked stack hands on to
     * the lowest set bit of what is left of the mask, until a stack can run or the mask is
     * exhausted.
     */
    method WalkStacks(main: bv32, first: bv32, mask: bv32, ghost cands: seq<bv32>) returns (found: Option<bv32>)
      requires Shaped() && cands == [first] + Stacks(main, SetBits(mask))
      requires forall j :: 0 <= j < |cands| ==> cands[j] < NUM_STACKS_BV
      ensures found == FirstReady(cands, BlockedStacks())
    {
      ghost var blocked := BlockedStacks();
      var next, m := first, mask;
      ghost var i := 0;
      while true
        invariant 0 <= i < |cands| && cands[i] == next && next < NUM_STACKS_BV
        invariant cands[i + 1..] == Stacks(main, SetBits(m))
        invariant FirstReady(cands, blocked) == FirstReady(cands[i..], blocked)
        invariant blocked == BlockedStacks()
        decreases |cands| - i
      {
        var ss, isBlocked := ReadStack(next);
        if !isBlocked {
          assert Runnable(blocked, next) && cands[i..][0] == next;
          FirstReadyHere(cands[i..], blocked);
          return Some(next);
        }
        FirstReadySkip(cands, blocked, i);
        SetBitsEmpty(m);
        if m == 0 {
          assert cands[i + 1..] == [];
          assert FirstReady(cands, blocked) == None;
          return None;
        }
        var step := NextTry(main, m);
        SliceNext(cands, i, step.0, Stacks(main, SetBits(step.1)));
        next, m := step.0, step.1;
        i := i + 1;
      }
    }

    /**
     * The successful compare-exchange of line 127: the stack word loses its top task (and,
     * by PopKeepsIteration, keeps its iteration field). Returns the task that was on top.
     */
    method Pop(s: bv32, ss: bv32) returns (task: Task)
      requires Shaped() && s < NUM_STACKS_BV
      requires ss == stackSizes[s as int] && CountOf(ss) != 0
      modifies stackSizes
      ensures task == Top(s as int, ss)
      ensures stackSizes[..] == old(stackSizes[..])[s as int := ss - 1]
    {
      task := stacks[s as int, CountIndex(ss)];
      stackSizes[s as int] := ss - 1;
    }

    /**
     * Lines 129-182, run by the worker that popped the last task above dont_do_it: the
     * stack's iteration goes up by one (uint32 fetch_add) and the priority word is recomputed
     * from the iterations. The scheduler stays valid while the active stack stays below the
     * idle level.
     */
    method FinishIteration(s: bv32)
      requires Shaped() && WellFormedWord(priMaskMainStack) && s < NUM_STACKS_BV
      modifies iterations, this`priMaskMainStack
      ensures iterations[..] == old(iterations[..])[s as int := old(iterations[s as int]) + 1]
      ensures priMaskMainStack == Recompute(Iters(), old(priMaskMainStack))
    {
      iterations[s as int] := iterations[s as int] + 1;
      var iters := Iters();
      priMaskMainStack := Recompute(iters, priMaskMainStack);
      assert iters == Iters();
    }

    /**
     * Lines 127-182 from the successful compare-exchange on: the top task is taken off stack s,
     * and when it was the last task above dont_do_it (the popped count was 1) the stack's
     * iteration goes up and the priority word is recomputed before the task runs; any other
     * pop leaves the iterations and the priority word alone.
     */
    method TakeTask(s: bv32, ss: bv32) returns (task: Task)
      requires Shaped() && stackSizes != iterations && WellFormedWord(priMaskMainStack) && s < NUM_STACKS_BV
      requires ss == stackSizes[s as int] && CountOf(ss) != 0
      modifies stackSizes, iterations, this`priMaskMainStack
      ensures task == Top(s as int, ss)
      ensures stackSizes[..] == old(stackSizes[..])[s as int := ss - 1]
      ensures CountOf(ss) == 1 ==> iterations[..] == old(iterations[..])[s as int := old(iterations[s as int]) + 1]
                                   && priMaskMainStack == Recompute(Iters(), old(priMaskMainStack))
      ensures CountOf(ss) != 1 ==> iterations[..] == old(iterations[..]) && priMaskMainStack == old(priMaskMainStack)
    {
      task := Pop(s, ss);
      if CountOf(ss) == 1 {
        FinishIteration(s);
      }
    }

    /**
     * Lines 191-194: one more task is counted (uint32 fetch_add); the worker that takes the
     * counter from exactly 10000000 signals shutdown.
     */
    method CountExecution() returns (shutdown: bool)
      modifies this`totalExecuted
      ensures totalExecuted == old(totalExecuted) + 1
      ensures shutdown <==> old(totalExecuted) == SHUTDOWN_COUNT
    {
      shutdown := totalExecuted == SHUTDOWN_COUNT;
      totalExecuted := totalExecuted + 1;
    }

    /**
     * Lines 198-201: the checkpoints a task reports are XOR-ed into the checkpoint word of
     * the frame of the stack word it was popped under; nothing is written when it reports
     * none. With FrameWord and ReportToggles: the frame reads the reported bits toggled.
     */
    method ReportCheckpoints(ss: bv32, reached: bv64)
      requires Shaped()
      modifies checkpoints
      ensures checkpoints[WordIndex(ss)] == old(checkpoints[WordIndex(ss)]) ^ reached
      ensures checkpoints[1 - WordIndex(ss)] == old(checkpoints[1 - WordIndex(ss)])
    {
      var i := WordIndex(ss);
      if reached != 0 {
        checkpoints[i] := checkpoints[i] ^ reached;
      } else {
        XorZero(checkpoints[i]);
      }
    }
  }

  /** Parity of the frame of a stack word: the index (ss >> 7) & 1 of its checkpoint word. */
  function WordIndex(ss: bv32): (i: nat)
    ensures i < 2
  {
    if FrameOf(ss) & 1 == 0 then 0 else 1
  }

  /** WordIndex picks the word that WordFor reads for the stack word's frame. */
  lemma FrameWord(words: seq<bv64>, ss: bv32)
    requires |words| == 2
    ensures WordFor(words[0], words[1], FrameOf(ss)) == words[WordIndex(ss)]
  {
  }

  lemma XorZero(w: bv64)
    ensures w ^ 0 == w
  {
  }

  /**
   * A stack finishing an iteration keeps the scheduler valid: with its iteration still below
   * the idle level, the iterations stay active and the recomputed priority word is well formed.
   */
  lemma FinishKeepsValid(iters: seq<int>, word: bv64, s: int)
    requires ActiveIterations(iters) && WellFormedWord(word) && 0 <= s < 5 && iters[s] + 1 < IDLE_ITERATION
    ensures ActiveIterations(iters[s := iters[s] + 1])
    ensures WellFormedWord(Recompute(iters[s := iters[s] + 1], word))
  {
    RecomputeWellFormed(iters[s := iters[s] + 1], word);
  }

  /** Every candidate of a well-formed priority word is one of the stacks. */
  lemma CandidatesInRange(word: bv64, s: bv32, sameIteration: bool)
    requires WellFormedWord(word) && s < 32
    ensures var c := Candidates(word, s, sameIteration);
            forall i :: 0 <= i < |c| ==> c[i] < NUM_STACKS_BV
  {
    CandidatesAllowed(word, s, sameIteration);
  }

  /**
   * Lines 96-98: the first stack to try, and the mask of the others with its bit cleared;
   * together they are the candidate order.
   */
  function FirstTry(word: bv64, s: bv32, sameIteration: bool): (r: (bv32, bv32))
    requires WellFormedWord(word) && s < 32
    ensures Candidates(word, s, sameIteration) == [r.0] + Stacks(MainOf(word), SetBits(r.1))
  {
    var main := MainOf(word);
    var k := FirstStep(word, s, sameIteration);
    var rest := ClearBit32(MaskOf(word), k);
    StacksCons(main, k, SetBits(rest));
    (Stack(main, k), rest)
  }

  /**
   * Lines 122-124: the next stack to try, by the lowest set bit of what is left of the mask,
   * and the mask without that bit; the walk goes on with the rest.
   */
  function NextTry(main: bv32, m: bv32): (r: (bv32, bv32))
    requires m != 0
    ensures Stacks(main, SetBits(m)) == [r.0] + Stacks(main, SetBits(r.1))
  {
    var k := Bsf32(m);
    StacksOfSetBits(main, m);
    (Stack(main, k), ClearBit32(m, k))
  }

  /** Stack s exists and its top task is not blocked. */
  predicate Runnable(blocked: seq<bool>, s: bv32)
  {
    (s as int) < |blocked| && !blocked[s as int]
  }

  /** The first of the candidate stacks whose top task can run, in order. */
  function FirstReady(cands: seq<bv32>, blocked: seq<bool>): Option<bv32>
  {
    if cands == [] then None
    else if Runnable(blocked, cands[0]) then Some(cands[0])
    else FirstReady(cands[1..], blocked)
  }

  /**
   * FirstReady finds a runnable candidate, and every candidate before it is blocked; it
   * finds none exactly when every candidate is blocked.
   */
  lemma {:induction false} FirstReadyMeaning(cands: seq<bv32>, blocked: seq<bool>)
    ensures var r := FirstReady(cands, blocked);
            (r.Some? ==> exists i :: 0 <= i < |cands| && cands[i] == r.value && Runnable(blocked, r.value)
                                     && forall j :: 0 <= j < i ==> !Runnable(blocked, cands[j]))
            && (r.None? <==> forall i :: 0 <= i < |cands| ==> !Runnable(blocked, cands[i]))
  {
    if cands != [] && !Runnable(blocked, cands[0]) {
      FirstReadyMeaning(cands[1..], blocked);
      assert forall i :: 1 <= i < |cands| ==> cands[i] == cands[1..][i - 1];
      var r := FirstReady(cands, blocked);
      if r.Some? {
        var i :| 0 <= i < |cands[1..]| && cands[1..][i] == r.value && Runnable(blocked, r.value)
                 && forall j :: 0 <= j < i ==> !Runnable(blocked, cands[1..][j]);
        assert cands[i + 1] == r.value;
      }
    }
  }

  lemma FirstReadyHere(cands: seq<bv32>, blocked: seq<bool>)
    requires |cands| > 0 && Runnable(blocked, cands[0])
    ensures FirstReady(cands, blocked) == Some(cands[0])
  {
  }

  lemma FirstReadySkip(cands: seq<bv32>, blocked: seq<bool>, i: nat)
    requires i < |cands| && !Runnable(blocked, cands[i])
    ensures FirstReady(cands[i..], blocked) == FirstReady(cands[i + 1..], blocked)
  {
    assert cands[i..][1..] == cands[i + 1..];
  }

  lemma SliceNext(cands: seq<bv32>, i: nat, x: bv32, rest: seq<bv32>)
    requires i < |cands| && cands[i + 1..] == [x] + rest
    ensures i + 1 < |cands| && cands[i + 1] == x && cands[i + 2..] == rest
  {
    assert cands[i + 1..][0] == x;
    assert cands[i + 2..] == cands[i + 1..][1..];
  }
}
