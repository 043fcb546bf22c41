/**
 * The main-stack / priority-mask word of the scheduler: its packing, its recomputation
 * when a stack finishes an iteration (worker_thread, TaskScheduling.cpp:133-181) and the
 * order in which a worker tries stacks under it (TaskScheduling.cpp:96-98, 114-124).
 *
 * Bit b of the 32-bit mask allows stack (main + b) mod 32. The SSE code of the
 * recomputation is modelled by its scalar meaning: per-stack adjusted iterations, their
 * minimum, and the 16-bit mask of the stacks that attain it (what the compare, blend,
 * shuffle and movemask steps produce); from there on the bit expressions are the
 * engine's own.
 *
 * Iteration counters are uint32 values held as ints in [0, 2^32); masks, stack numbers
 * taken from the packed word and bit indices are bv32.
 */
module Priority {
  import opened Bits

  const NUM_STACKS: int := 16
  const NUM_ACTIVE_STACKS: bv32 := 5
  /** (1 << NUM_ACTIVE_STACKS) - 1 */
  const ACTIVE_STACK_MASK: bv32 := 0x1F
  const UINT32: int := 0x1_0000_0000
  /** The iteration the idle stacks are parked at: the largest int32. */
  const IDLE_ITERATION: int := 0x7FFF_FFFF

  // ------------------------------------------------------------ packed priority word

  /** (uint64_t) main_stack << 32 | m */
  function Pack(main: bv32, mask: bv32): bv64
  {
    ((main as bv64) << 32) | (mask as bv64)
  }

  /** (uint32_t) (pri_mask_main_stack >> 32) */
  function MainOf(word: bv64): bv32
  {
    (word >> 32) as bv32
  }

  /** (uint32_t) pri_mask_main_stack */
  function MaskOf(word: bv64): bv32
  {
    (word & 0xFFFF_FFFF) as bv32
  }

  /** Packing keeps both halves: a worker reads back exactly the main stack and mask stored. */
  lemma PackRoundTrip(main: bv32, mask: bv32)
    ensures MainOf(Pack(main, mask)) == main && MaskOf(Pack(main, mask)) == mask
  {
  }

  /**
   * A priority word a worker can use: the main stack is active, the mask allows the main
   * stack itself (bit 0), and it allows no stack outside the active ones.
   */
  predicate WellFormedWord(word: bv64)
  {
    MainOf(word) < NUM_ACTIVE_STACKS
    && Bit32(MaskOf(word), 0)
    && MaskOf(word) & !RotR32(ACTIVE_STACK_MASK, MainOf(word)) == 0
  }

  /** The word init_scheduler stores (line 74): main stack 0, stacks 0 .. 4 allowed. */
  lemma InitialWordWellFormed()
    ensures WellFormedWord(0x1F)
    ensures MainOf(0x1F) == 0 && MaskOf(0x1F) == ACTIVE_STACK_MASK
  {
  }

  // ------------------------------------------------------------ cyclic stack offsets

  /** The stack that bit b of a mask relative to main stands for: (b + main) % 32. */
  function Stack(main: bv32, b: bv32): bv32
  {
    (b + main) % 32
  }

  /** How far stack s lies after main, cyclically: (s - main) % 32. */
  function Offset(main: bv32, s: bv32): bv32
  {
    (s - main) % 32
  }

  lemma StackOffset(main: bv32, b: bv32)
    requires main < 32 && b < 32
    ensures Offset(main, Stack(main, b)) == b
  {
  }

  lemma OffsetStack(main: bv32, s: bv32)
    requires main < 32 && s < 32
    ensures Stack(main, Offset(main, s)) == s
  {
  }

  lemma StackStack(main: bv32, r: bv32, b: bv32)
    requires main < 32 && r < 32 && b < 32
    ensures Stack(main, Stack(r, b)) == Stack(Stack(main, r), b)
  {
  }

  lemma ActiveMaskBit(b: bv32)
    ensures Bit32(ACTIVE_STACK_MASK, b) <==> b < NUM_ACTIVE_STACKS
  {
  }

  lemma NotBit32(x: bv32, b: bv32)
    requires b < 32
    ensures Bit32(!x, b) <==> !Bit32(x, b)
  {
  }

  lemma AndNotSelf32(x: bv32, y: bv32)
    ensures (x & y) & !y == 0
  {
  }

  /** In a well-formed word, every allowed bit stands for an active stack. */
  lemma AllowedStackIsActive(word: bv64, b: bv32)
    requires WellFormedWord(word) && Bit32(MaskOf(word), b)
    ensures Stack(MainOf(word), b) < NUM_ACTIVE_STACKS
  {
    var active := RotR32(ACTIVE_STACK_MASK, MainOf(word));
    NotBit32(active, b);
    AndBit32(MaskOf(word), !active, b);
    ZeroBit32(b);
    ActiveBit(MainOf(word), b);
  }

  // ------------------------------------------------------------ adjusted iterations

  /** 16 uint32 iteration counters. */
  predicate Iterations(iters: seq<int>)
  {
    |iters| == NUM_STACKS && forall i :: 0 <= i < NUM_STACKS ==> 0 <= iters[i] < UINT32
  }

  /** A uint32 lane read as a signed int32, as _mm_min_epi32 and _mm_cmpeq_epi32 compare it. */
  function Signed(x: int): (r: int)
    requires 0 <= x < UINT32
    ensures -0x8000_0000 <= r < 0x8000_0000
    ensures r % UINT32 == x
  {
    if x < 0x8000_0000 then x else x - UINT32
  }

  /**
   * The iteration of stack i as the recompute compares it (lines 146-149): lanes of stacks
   * below the main stack get the all-ones compare mask (-1) added, with 32-bit wrap-around.
   */
  function Adjusted(iters: seq<int>, main: bv32, i: bv32): int
    requires Iterations(iters) && i < 16
  {
    Signed(if main > i then (iters[i as int] - 1) % UINT32 else iters[i as int])
  }

  /** The minimum of the adjusted iterations of stacks 0 .. n-1. */
  function MinUpTo(iters: seq<int>, main: bv32, n: bv32): (r: int)
    requires Iterations(iters) && 0 < n <= 16
    ensures forall i: bv32 :: i < n ==> r <= Adjusted(iters, main, i)
    ensures exists i: bv32 :: i < n && r == Adjusted(iters, main, i)
    decreases n
  {
    if n == 1 then
      Adjusted(iters, main, 0)
    else
      var rest := MinUpTo(iters, main, n - 1);
      var last := Adjusted(iters, main, n - 1);
      if last < rest then last else rest
  }

  /** The minimum adjusted iteration over all 16 stacks (the min reduction of lines 151-158). */
  function MinAdjusted(iters: seq<int>, main: bv32): int
    requires Iterations(iters)
  {
    MinUpTo(iters, main, 16)
  }

  /** Stack s is one of the 16 stacks and its adjusted iteration is the minimum. */
  predicate IsMin(iters: seq<int>, main: bv32, s: bv32)
    requires Iterations(iters)
  {
    s < 16 && Adjusted(iters, main, s) == MinAdjusted(iters, main)
  }

  // ------------------------------------------------------------ the equality mask

  /**
   * The mask _mm_movemask_epi8 yields after the compare, blend and shuffle steps
   * (lines 160-170), restricted to stacks 0 .. n-1.
   */
  function EqMaskUpTo(iters: seq<int>, main: bv32, n: bv32): bv32
    requires Iterations(iters) && n <= 16
    decreases n
  {
    if n == 0 then 0
    else EqMaskUpTo(iters, main, n - 1) | (if IsMin(iters, main, n - 1) then 1 << (n - 1) else 0)
  }

  /** Bit b of the equality mask is set exactly when stack b attains the minimum. */
  lemma {:induction false} EqMaskUpToBit(iters: seq<int>, main: bv32, n: bv32, b: bv32)
    requires Iterations(iters) && n <= 16 && b < 32
    ensures Bit32(EqMaskUpTo(iters, main, n), b) <==> b < n && IsMin(iters, main, b)
    decreases n
  {
    if n == 0 {
      ZeroBit32(b);
    } else {
      EqMaskUpToBit(iters, main, n - 1, b);
      var prev := EqMaskUpTo(iters, main, n - 1);
      var take := IsMin(iters, main, n - 1);
      var bit: bv32 := if take then 1 << (n - 1) else 0;
      OrBit32(prev, bit, b);
      if take { SingleBit32(n - 1, b); } else { ZeroBit32(b); }
    }
  }

  /** The 16-bit equality mask over all stacks. */
  function EqMask(iters: seq<int>, main: bv32): bv32
    requires Iterations(iters)
  {
    EqMaskUpTo(iters, main, 16)
  }

  // ------------------------------------------------------------ new main stack

  /** The equality mask rotated right by the old main stack (line 171). */
  function RelativeEqMask(iters: seq<int>, oldMain: bv32): bv32
    requires Iterations(iters) && oldMain < 32
  {
    RotR32(EqMask(iters, oldMain), oldMain)
  }

  lemma RelativeEqMaskBit(iters: seq<int>, oldMain: bv32, b: bv32)
    requires Iterations(iters) && oldMain < 32 && b < 32
    ensures Bit32(RelativeEqMask(iters, oldMain), b) <==> IsMin(iters, oldMain, Stack(oldMain, b))
  {
    RotRStackBit(EqMask(iters, oldMain), oldMain, b);
    EqMaskUpToBit(iters, oldMain, 16, Stack(oldMain, b));
  }

  /** Some stack attains the minimum, so the relative equality mask is never zero. */
  lemma RelativeEqMaskNonZero(iters: seq<int>, oldMain: bv32)
    requires Iterations(iters) && oldMain < 32
    ensures RelativeEqMask(iters, oldMain) != 0
  {
    var s: bv32 :| s < 16 && MinAdjusted(iters, oldMain) == Adjusted(iters, oldMain, s);
    var b := Offset(oldMain, s);
    OffsetStack(oldMain, s);
    RelativeEqMaskBit(iters, oldMain, b);
    ZeroBit32(b);
  }

  /** k = asm_bsf32(m) (line 172): how many stacks after the old main stack the new one lies. */
  function MainStep(iters: seq<int>, oldMain: bv32): (k: bv32)
    requires Iterations(iters) && oldMain < 32
    ensures LowestSetBit32(RelativeEqMask(iters, oldMain), k)
  {
    RelativeEqMaskNonZero(iters, oldMain);
    Bsf32(RelativeEqMask(iters, oldMain))
  }

  /** main_stack = (k + main_stack) % 32 (line 174) */
  function NewMainStack(iters: seq<int>, oldMain: bv32): bv32
    requires Iterations(iters) && oldMain < 32
  {
    Stack(oldMain, MainStep(iters, oldMain))
  }

  /** The new main stack attains the minimum, and lies MainStep stacks after the old one. */
  lemma NewMainStackIsMin(iters: seq<int>, oldMain: bv32)
    requires Iterations(iters) && oldMain < 32
    ensures IsMin(iters, oldMain, NewMainStack(iters, oldMain))
    ensures Offset(oldMain, NewMainStack(iters, oldMain)) == MainStep(iters, oldMain)
  {
    var k := MainStep(iters, oldMain);
    LowestIsSet32(RelativeEqMask(iters, oldMain), k);
    RelativeEqMaskBit(iters, oldMain, k);
    StackOffset(oldMain, k);
  }

  /** No stack met before the new main stack, counting cyclically from the old one, attains the minimum. */
  lemma NoMinBefore(iters: seq<int>, oldMain: bv32, s: bv32)
    requires Iterations(iters) && oldMain < 32 && s < 32
    requires Offset(oldMain, s) < MainStep(iters, oldMain)
    ensures !IsMin(iters, oldMain, s)
  {
    var b := Offset(oldMain, s);
    BelowLowestIsClear32(RelativeEqMask(iters, oldMain), MainStep(iters, oldMain), b);
    RelativeEqMaskBit(iters, oldMain, b);
    OffsetStack(oldMain, s);
  }

  /**
   * The new main stack is the first stack attaining the minimum adjusted iteration when
   * counting cyclically from the old main stack.
   */
  lemma NewMainStackIsFirstMin(iters: seq<int>, oldMain: bv32)
    requires Iterations(iters) && oldMain < 32
    ensures IsMin(iters, oldMain, NewMainStack(iters, oldMain))
    ensures forall s: bv32 :: s < 32 && Offset(oldMain, s) < Offset(oldMain, NewMainStack(iters, oldMain)) ==> !IsMin(iters, oldMain, s)
  {
    NewMainStackIsMin(iters, oldMain);
    forall s: bv32 | s < 32 && Offset(oldMain, s) < Offset(oldMain, NewMainStack(iters, oldMain))
      ensures !IsMin(iters, oldMain, s)
    {
      NoMinBefore(iters, oldMain, s);
    }
  }

  // ------------------------------------------------------------ new priority mask

  /** The top d bits of a 32-bit word: the mask of the stacks passed on the way to the new main stack. */
  function TopBits(d: bv32): bv32
    requires d < 32
  {
    if d == 0 then 0 else !(((1 as bv32) << (32 - d)) - 1)
  }

  /**
   * Line 176 writes the mask as ~((uint32_t) ((uint64_t) 1 << (32 - d)) - 1), shifting on
   * 64 bits so that d == 0 (a shift by 32) truncates to 0 and yields no bits: the same word.
   */
  lemma TopBitsAsWritten(d: bv32)
    requires d < 32
    ensures TopBits(d) == !((((1 as bv64) << ((32 - d) as bv64)) & 0xFFFF_FFFF) as bv32 - 1)
  {
  }

  lemma TopBitsBit(d: bv32, b: bv32)
    requires d < 32 && b < 32
    ensures Bit32(TopBits(d), b) <==> d != 0 && 32 - d <= b
  {
    if d == 0 {
      ZeroBit32(b);
    }
  }

  /** The mask the recompute stores, relative to the new main stack (lines 175-178). */
  function NewPriMask(iters: seq<int>, oldMain: bv32): bv32
    requires Iterations(iters) && oldMain < 32
  {
    var newMain := NewMainStack(iters, oldMain);
    (RotR32(RelativeEqMask(iters, oldMain), MainStep(iters, oldMain)) | TopBits(Offset(oldMain, newMain)))
    & RotR32(ACTIVE_STACK_MASK, newMain)
  }

  /**
   * Stack s ends up allowed in the new mask: it is active, and either attains the minimum
   * or lies cyclically from the old main stack up to (not including) the new one.
   */
  predicate Allowed(iters: seq<int>, oldMain: bv32, s: bv32)
    requires Iterations(iters) && oldMain < 32
  {
    s < NUM_ACTIVE_STACKS && (IsMin(iters, oldMain, s) || Passed(oldMain, NewMainStack(iters, oldMain), s))
  }

  /** Stack s lies cyclically from oldMain up to, not including, newMain. */
  predicate Passed(oldMain: bv32, newMain: bv32, s: bv32)
  {
    Offset(oldMain, s) < Offset(oldMain, newMain)
  }

  /** Offset arithmetic behind the top-bits step: s = new + b lies before new iff b >= 32 - k. */
  lemma OffsetOfPassed(oldMain: bv32, k: bv32, b: bv32)
    requires oldMain < 32 && k < 32 && b < 32
    ensures Offset(oldMain, Stack(Stack(oldMain, k), b)) < k <==> k != 0 && 32 - k <= b
  {
  }

  /** Bit b of the equality mask rotated by k is the equality bit of the stack b places after the new main stack. */
  lemma RotatedEqMaskBit(iters: seq<int>, oldMain: bv32, b: bv32)
    requires Iterations(iters) && oldMain < 32 && b < 32
    ensures Bit32(RotR32(RelativeEqMask(iters, oldMain), MainStep(iters, oldMain)), b)
            <==> IsMin(iters, oldMain, Stack(NewMainStack(iters, oldMain), b))
  {
    var k := MainStep(iters, oldMain);
    RotRStackBit(RelativeEqMask(iters, oldMain), k, b);
    RelativeEqMaskBit(iters, oldMain, Stack(k, b));
    StackStack(oldMain, k, b);
  }

  /** RotRBit32 in terms of Stack. */
  lemma RotRStackBit(m: bv32, r: bv32, b: bv32)
    requires r < 32 && b < 32
    ensures Bit32(RotR32(m, r), b) == Bit32(m, Stack(r, b))
  {
    RotRBit32(m, r, b);
  }

  /** Bit b of the top bits says that the stack b places after the new main stack was passed on the way to it. */
  lemma TopBitsPassed(iters: seq<int>, oldMain: bv32, b: bv32)
    requires Iterations(iters) && oldMain < 32 && b < 32
    ensures Bit32(TopBits(Offset(oldMain, NewMainStack(iters, oldMain))), b)
            <==> Passed(oldMain, NewMainStack(iters, oldMain), Stack(NewMainStack(iters, oldMain), b))
  {
    PassedBit(oldMain, MainStep(iters, oldMain), b);
  }

  lemma PassedBit(oldMain: bv32, k: bv32, b: bv32)
    requires oldMain < 32 && k < 32 && b < 32
    ensures Bit32(TopBits(Offset(oldMain, Stack(oldMain, k))), b) <==> Passed(oldMain, Stack(oldMain, k), Stack(Stack(oldMain, k), b))
  {
    StackOffset(oldMain, k);
    OffsetOfPassed(oldMain, k, b);
    TopBitsBit(k, b);
  }

  /** Bit b of the new mask is set exactly when the stack b places after the new main stack is Allowed. */
  lemma NewPriMaskBit(iters: seq<int>, oldMain: bv32, b: bv32)
    requires Iterations(iters) && oldMain < 32 && b < 32
    ensures Bit32(NewPriMask(iters, oldMain), b) <==> Allowed(iters, oldMain, Stack(NewMainStack(iters, oldMain), b))
  {
    var newMain := NewMainStack(iters, oldMain);
    var s := Stack(newMain, b);
    var m2 := RotR32(RelativeEqMask(iters, oldMain), MainStep(iters, oldMain));
    var top := TopBits(Offset(oldMain, newMain));
    var active := RotR32(ACTIVE_STACK_MASK, newMain);
    RotatedEqMaskBit(iters, oldMain, b);
    TopBitsPassed(iters, oldMain, b);
    ActiveBit(newMain, b);
    NewPriMaskParts(iters, oldMain);
    AllowedParts(iters, oldMain, s);
    CombineBit32(NewPriMask(iters, oldMain), m2, top, active, b,
      IsMin(iters, oldMain, s), Passed(oldMain, newMain, s), s < NUM_ACTIVE_STACKS, Allowed(iters, oldMain, s));
  }

  /** Bit b of the active mask rotated to main says whether the stack b places after main is active. */
  lemma ActiveBit(main: bv32, b: bv32)
    requires main < 32 && b < 32
    ensures Bit32(RotR32(ACTIVE_STACK_MASK, main), b) == (Stack(main, b) < NUM_ACTIVE_STACKS)
  {
    RotRStackBit(ACTIVE_STACK_MASK, main, b);
    ActiveMaskBit(Stack(main, b));
  }

  lemma NewPriMaskParts(iters: seq<int>, oldMain: bv32)
    requires Iterations(iters) && oldMain < 32
    ensures NewPriMask(iters, oldMain)
            == (RotR32(RelativeEqMask(iters, oldMain), MainStep(iters, oldMain)) | TopBits(Offset(oldMain, NewMainStack(iters, oldMain))))
               & RotR32(ACTIVE_STACK_MASK, NewMainStack(iters, oldMain))
  {
  }

  lemma AllowedParts(iters: seq<int>, oldMain: bv32, s: bv32)
    requires Iterations(iters) && oldMain < 32
    ensures Allowed(iters, oldMain, s)
            == ((IsMin(iters, oldMain, s) || Passed(oldMain, NewMainStack(iters, oldMain), s)) && s < NUM_ACTIVE_STACKS)
  {
  }

  lemma CombineBit32(n: bv32, x: bv32, y: bv32, z: bv32, b: bv32, p: bool, q: bool, r: bool, allowed: bool)
    requires n == (x | y) & z
    requires Bit32(x, b) == p && Bit32(y, b) == q && Bit32(z, b) == r
    requires allowed == ((p || q) && r)
    ensures Bit32(n, b) == allowed
  {
    OrBit32(x, y, b);
    AndBit32(x | y, z, b);
  }
  /** pri_mask_main_stack as stored after a stack finished an iteration (line 181). */
  function Recompute(iters: seq<int>, word: bv64): bv64
    requires Iterations(iters) && MainOf(word) < 32
  {
    var oldMain := MainOf(word);
    Pack(NewMainStack(iters, oldMain), NewPriMask(iters, oldMain))
  }

  // ------------------------------------------------------------ what the new word promises

  /**
   * The stacks the engine keeps idle (5 .. 15) sit at iteration 0x7FFFFFFF (line 71), and
   * every active stack is below it.
   */
  predicate ActiveIterations(iters: seq<int>)
  {
    Iterations(iters)
    && (forall i :: 0 <= i < 5 ==> iters[i] < IDLE_ITERATION)
    && (forall i :: 5 <= i < NUM_STACKS ==> iters[i] == IDLE_ITERATION)
  }

  /** With the idle stacks parked at 0x7FFFFFFF, the minimum is always attained by an active stack. */
  lemma NewMainIsActive(iters: seq<int>, oldMain: bv32)
    requires ActiveIterations(iters) && oldMain < NUM_ACTIVE_STACKS
    ensures NewMainStack(iters, oldMain) < NUM_ACTIVE_STACKS
  {
    NewMainStackIsMin(iters, oldMain);
    // stack 4 is not below the main stack, so its adjusted iteration is iters[4] itself,
    // under the level every idle stack compares at
    assert MinAdjusted(iters, oldMain) <= Adjusted(iters, oldMain, 4) < IDLE_ITERATION;
    forall i: bv32 | 5 <= i < 16 ensures Adjusted(iters, oldMain, i) == IDLE_ITERATION {
      assert 5 <= i as int < NUM_STACKS;
    }
  }

  /**
   * Recomputing from a well-formed word gives a well-formed word, whose halves are the
   * first minimal stack (NewMainStackIsFirstMin) and the mask of NewPriMaskBit.
   */
  lemma RecomputeWellFormed(iters: seq<int>, word: bv64)
    requires ActiveIterations(iters) && WellFormedWord(word)
    ensures WellFormedWord(Recompute(iters, word))
    ensures MainOf(Recompute(iters, word)) == NewMainStack(iters, MainOf(word))
    ensures MaskOf(Recompute(iters, word)) == NewPriMask(iters, MainOf(word))
  {
    var oldMain := MainOf(word);
    var newMain := NewMainStack(iters, oldMain);
    PackRoundTrip(newMain, NewPriMask(iters, oldMain));
    NewMainIsActive(iters, oldMain);
    NewMainStackIsMin(iters, oldMain);
    NewPriMaskBit(iters, oldMain, 0);
    StackOffset(newMain, 0);
    var m1 := RelativeEqMask(iters, oldMain);
    var k := MainStep(iters, oldMain);
    AndNotSelf32(RotR32(m1, k) | TopBits(Offset(oldMain, newMain)), RotR32(ACTIVE_STACK_MASK, newMain));
  }

  /** Every active stack passed on the way from the old main stack to the new one is allowed afterwards. */
  lemma RecomputeAllowsPassed(iters: seq<int>, word: bv64, s: bv32)
    requires ActiveIterations(iters) && WellFormedWord(word)
    requires s < NUM_ACTIVE_STACKS && Offset(MainOf(word), s) < Offset(MainOf(word), MainOf(Recompute(iters, word)))
    ensures Bit32(MaskOf(Recompute(iters, word)), Offset(MainOf(Recompute(iters, word)), s))
  {
    var oldMain := MainOf(word);
    var newMain := NewMainStack(iters, oldMain);
    RecomputeWellFormed(iters, word);
    NewPriMaskBit(iters, oldMain, Offset(newMain, s));
    OffsetStack(newMain, s);
  }

  /** A stack the new mask allows is Allowed: active, and minimal or passed. */
  lemma RecomputeAllowsOnly(iters: seq<int>, word: bv64, b: bv32)
    requires ActiveIterations(iters) && WellFormedWord(word) && b < 32
    requires Bit32(MaskOf(Recompute(iters, word)), b)
    ensures Allowed(iters, MainOf(word), Stack(MainOf(Recompute(iters, word)), b))
  {
    RecomputeWellFormed(iters, word);
    NewPriMaskBit(iters, MainOf(word), b);
  }

  // ------------------------------------------------------------ candidate order

  /**
   * The offset of the first stack a worker tries (line 96): that of its previous stack s
   * when the mask allows it and the iteration packed in its stack word still equals the
   * stack's iteration; otherwise 0, the main stack (the "| 1").
   */
  function FirstStep(word: bv64, s: bv32, sameIteration: bool): (k: bv32)
    requires Bit32(MaskOf(word), 0)
    ensures k == if sameIteration && Bit32(MaskOf(word), Offset(MainOf(word), s)) then Offset(MainOf(word), s) else 0
  {
    var m := MaskOf(word);
    var off := Offset(MainOf(word), s);
    // the compare result, 1 or 0, shifted to the previous stack's bit, or'ed with the main stack's bit
    if sameIteration then
      FirstStepSame(m, off)
    else
      FirstStepOther(m)
  }

  /** asm_bsr32(((1 << off) | 1) & m) */
  function FirstStepSame(m: bv32, off: bv32): (k: bv32)
    requires Bit32(m, 0) && off < 32
    ensures k == if Bit32(m, off) then off else 0
  {
    var x := (((1 as bv32) << off) | 1) & m;
    FirstStepNonZero(m, off);
    var k := Bsr32(x);
    FirstStepSameValue(m, off, k);
    k
  }

  /** asm_bsr32(((0 << off) | 1) & m) */
  function FirstStepOther(m: bv32): (k: bv32)
    requires Bit32(m, 0)
    ensures k == 0
  {
    FirstStepNonZero(m, 0);
    var k := Bsr32(1 & m);
    HighestOfOne(m, k);
    k
  }

  lemma FirstStepSameValue(m: bv32, off: bv32, k: bv32)
    requires Bit32(m, 0) && off < 32
    requires HighestSetBit32((((1 as bv32) << off) | 1) & m, k)
    ensures k == if Bit32(m, off) then off else 0
  {
    if Bit32(m, off) {
      PairHighest(m, off);
      HighestUnique((((1 as bv32) << off) | 1) & m, k, off);
    } else {
      OneMask(m, off);
      HighestOfOne(m, k);
    }
  }

  lemma FirstStepNonZero(m: bv32, off: bv32)
    requires Bit32(m, 0) && off < 32
    ensures (((1 as bv32) << off) | 1) & m != 0 && 1 & m != 0
  {
  }

  lemma PairHighest(m: bv32, off: bv32)
    requires Bit32(m, 0) && Bit32(m, off)
    ensures HighestSetBit32((((1 as bv32) << off) | 1) & m, off)
  {
  }

  lemma OneMask(m: bv32, off: bv32)
    requires Bit32(m, 0) && off < 32 && !Bit32(m, off)
    ensures (((1 as bv32) << off) | 1) & m == 1
  {
  }

  lemma HighestUnique(x: bv32, k: bv32, j: bv32)
    requires HighestSetBit32(x, k) && HighestSetBit32(x, j)
    ensures k == j
  {
  }

  lemma HighestOfOne(m: bv32, k: bv32)
    requires Bit32(m, 0) && HighestSetBit32(1 & m, k)
    ensures k == 0
  {
  }

  /** The first candidate is the previous stack when it is allowed and current, else the main stack. */
  lemma FirstCandidate(word: bv64, s: bv32, sameIteration: bool)
    requires Bit32(MaskOf(word), 0) && MainOf(word) < 32 && s < 32
    ensures Stack(MainOf(word), FirstStep(word, s, sameIteration))
            == if sameIteration && Bit32(MaskOf(word), Offset(MainOf(word), s)) then s else MainOf(word)
    ensures Bit32(MaskOf(word), FirstStep(word, s, sameIteration))
  {
    var main := MainOf(word);
    OffsetStack(main, s);
    if sameIteration && Bit32(MaskOf(word), Offset(main, s)) {
      assert FirstStep(word, s, sameIteration) == Offset(main, s);
    } else {
      assert FirstStep(word, s, sameIteration) == 0;
      StackZero(main);
    }
  }

  lemma StackZero(main: bv32)
    requires main < 32
    ensures Stack(main, 0) == main
  {
  }

  /**
   * The set bits of m from bit i upwards, lowest first: the order in which the asm_bsf32
   * walk of lines 122-124 visits them.
   */
  function SetBitsFrom(m: bv32, i: bv32): seq<bv32>
    requires i <= 32
    decreases 32 - i
  {
    if i == 32 then [] else (if Bit32(m, i) then [i] else []) + SetBitsFrom(m, i + 1)
  }

  function SetBits(m: bv32): seq<bv32>
  {
    SetBitsFrom(m, 0)
  }

  /** Exactly the set bits from i upwards are listed. */
  lemma {:induction false} SetBitsFromMember(m: bv32, i: bv32, b: bv32)
    requires i <= 32
    ensures b in SetBitsFrom(m, i) <==> i <= b && Bit32(m, b)
    decreases 32 - i
  {
    if i < 32 {
      SetBitsFromMember(m, i + 1, b);
    }
  }

  /** The listed bits are all at least i and strictly increasing. */
  lemma {:induction false} SetBitsFromSorted(m: bv32, i: bv32)
    requires i <= 32
    ensures forall j :: 0 <= j < |SetBitsFrom(m, i)| ==> i <= SetBitsFrom(m, i)[j] < 32
    ensures forall j, l :: 0 <= j < l < |SetBitsFrom(m, i)| ==> SetBitsFrom(m, i)[j] < SetBitsFrom(m, i)[l]
    decreases 32 - i
  {
    if i < 32 {
      SetBitsFromSorted(m, i + 1);
      SortedPrepend(i, if Bit32(m, i) then [i] else [], SetBitsFrom(m, i + 1));
    }
  }

  /** Putting i (or nothing) before a sorted list of bits above i keeps it sorted. */
  lemma SortedPrepend(i: bv32, head: seq<bv32>, tail: seq<bv32>)
    requires i < 32 && (head == [] || head == [i])
    requires forall j :: 0 <= j < |tail| ==> i + 1 <= tail[j] < 32
    requires forall j, l :: 0 <= j < l < |tail| ==> tail[j] < tail[l]
    ensures forall j :: 0 <= j < |head + tail| ==> i <= (head + tail)[j] < 32
    ensures forall j, l :: 0 <= j < l < |head + tail| ==> (head + tail)[j] < (head + tail)[l]
  {
  }

  /** No bit of m in [i, k) is set. */
  ghost predicate ClearBetween(m: bv32, i: bv32, k: bv32)
  {
    forall j: bv32 :: i <= j < k ==> !Bit32(m, j)
  }

  lemma {:induction false} SetBitsFromSkip(m: bv32, i: bv32, k: bv32)
    requires i <= k <= 32 && ClearBetween(m, i, k)
    ensures SetBitsFrom(m, i) == SetBitsFrom(m, k)
    decreases k - i
  {
    if i < k {
      SetBitsFromSkip(m, i + 1, k);
    }
  }

  lemma {:induction false} SetBitsFromAgree(m: bv32, n: bv32, i: bv32)
    requires i <= 32
    requires forall j: bv32 :: i <= j < 32 ==> (Bit32(m, j) <==> Bit32(n, j))
    ensures SetBitsFrom(m, i) == SetBitsFrom(n, i)
    decreases 32 - i
  {
    if i < 32 {
      SetBitsFromAgree(m, n, i + 1);
    }
  }

  /**
   * One step of the asm_bsf32 walk: the lowest set bit comes first, and clearing it
   * leaves exactly the rest of the list.
   */
  lemma BsfClearStep(m: bv32)
    requires m != 0
    ensures SetBits(m) == [Bsf32(m)] + SetBits(ClearBit32(m, Bsf32(m)))
  {
    var k := Bsf32(m);
    var n := ClearBit32(m, k);
    forall j: bv32 | 0 <= j < k ensures !Bit32(m, j) {
      BelowLowestIsClear32(m, k, j);
    }
    SetBitsFromSkip(m, 0, k);
    LowestIsSet32(m, k);
    assert SetBitsFrom(m, k) == [k] + SetBitsFrom(m, k + 1);
    forall j: bv32 | 0 <= j < k + 1 ensures !Bit32(n, j) {
      ClearBitBit32(m, k, j);
      if j < k { BelowLowestIsClear32(m, k, j); }
    }
    SetBitsFromSkip(n, 0, k + 1);
    forall j: bv32 | k + 1 <= j < 32 ensures Bit32(m, j) <==> Bit32(n, j) {
      ClearBitBit32(m, k, j);
    }
    SetBitsFromAgree(m, n, k + 1);
  }

  /** No set bit of 0 is listed. */
  lemma {:induction false} SetBitsFromZero(i: bv32)
    requires i <= 32
    ensures SetBitsFrom(0, i) == []
    decreases 32 - i
  {
    if i < 32 {
      SetBitsFromZero(i + 1);
    }
  }

  /** The walk over m has something left exactly when m is not 0. */
  lemma SetBitsEmpty(m: bv32)
    ensures SetBits(m) == [] <==> m == 0
  {
    if m == 0 {
      SetBitsFromZero(0);
    } else {
      BsfClearStep(m);
    }
  }

  /** The mask offsets a worker tries: the first step k, then the other set bits of m from the lowest up. */
  function CandidateOffsets(m: bv32, k: bv32): seq<bv32>
    requires k < 32
  {
    [k] + SetBits(ClearBit32(m, k))
  }

  /** Every offset tried is a set bit of m, and after the first none is the first again. */
  lemma CandidateOffsetsInMask(m: bv32, k: bv32, i: int)
    requires Bit32(m, k) && 0 <= i < |CandidateOffsets(m, k)|
    ensures Bit32(m, CandidateOffsets(m, k)[i])
    ensures i > 0 ==> CandidateOffsets(m, k)[i] != k
  {
    if i > 0 {
      var b := CandidateOffsets(m, k)[i];
      assert b in SetBitsFrom(ClearBit32(m, k), 0);
      SetBitsFromMember(ClearBit32(m, k), 0, b);
      ClearBitBit32(m, k, b);
    }
  }

  /** Every set bit of m is tried. */
  lemma CandidateOffsetsCover(m: bv32, k: bv32, b: bv32)
    requires k < 32 && Bit32(m, b)
    ensures b in CandidateOffsets(m, k)
  {
    if b != k {
      ClearBitBit32(m, k, b);
      SetBitsFromMember(ClearBit32(m, k), 0, b);
    }
  }

  /** After the first, offsets strictly increase. */
  lemma CandidateOffsetsSorted(m: bv32, k: bv32)
    requires k < 32
    ensures forall i, j :: 1 <= i < j < |CandidateOffsets(m, k)| ==> CandidateOffsets(m, k)[i] < CandidateOffsets(m, k)[j]
    ensures forall i :: 0 <= i < |CandidateOffsets(m, k)| ==> CandidateOffsets(m, k)[i] < 32
  {
    SetBitsFromSorted(ClearBit32(m, k), 0);
  }

  /** Mask offsets turned into stack numbers relative to main. */
  function Stacks(main: bv32, offsets: seq<bv32>): (r: seq<bv32>)
    ensures |r| == |offsets|
  {
    seq(|offsets|, i requires 0 <= i < |offsets| => Stack(main, offsets[i]))
  }

  lemma StacksCons(main: bv32, k: bv32, rest: seq<bv32>)
    ensures Stacks(main, [k] + rest) == [Stack(main, k)] + Stacks(main, rest)
  {
  }

  /**
   * One step of the bit-scan walk on the stacks: with bits left in m, the next stack is the
   * one at the lowest set offset, followed by the walk over m without that bit; with no bits
   * left, the walk is over.
   */
  lemma StacksOfSetBits(main: bv32, m: bv32)
    ensures m == 0 ==> Stacks(main, SetBits(m)) == []
    ensures m != 0 ==> Stacks(main, SetBits(m)) == [Stack(main, Bsf32(m))] + Stacks(main, SetBits(ClearBit32(m, Bsf32(m))))
  {
    SetBitsEmpty(m);
    if m != 0 {
      BsfClearStep(m);
      StacksCons(main, Bsf32(m), SetBits(ClearBit32(m, Bsf32(m))));
    }
  }

  /**
   * The stacks a worker tries, in order, before it reloads the priority word: the first
   * candidate, then the other allowed stacks by increasing offset from the main stack.
   */
  function Candidates(word: bv64, s: bv32, sameIteration: bool): seq<bv32>
    requires Bit32(MaskOf(word), 0)
  {
    Stacks(MainOf(word), CandidateOffsets(MaskOf(word), FirstStep(word, s, sameIteration)))
  }

  /** Every candidate is an active stack the mask allows, and after the first none is the first again. */
  lemma CandidatesAllowed(word: bv64, s: bv32, sameIteration: bool)
    requires WellFormedWord(word) && s < 32
    ensures var c := Candidates(word, s, sameIteration);
            |c| > 0
            && c[0] == (if sameIteration && Bit32(MaskOf(word), Offset(MainOf(word), s)) then s else MainOf(word))
            && (forall i :: 0 <= i < |c| ==> Bit32(MaskOf(word), Offset(MainOf(word), c[i])) && c[i] < NUM_ACTIVE_STACKS)
            && (forall i :: 1 <= i < |c| ==> c[i] != c[0])
  {
    var main := MainOf(word);
    var m := MaskOf(word);
    var k := FirstStep(word, s, sameIteration);
    var offsets := CandidateOffsets(m, k);
    var c := Candidates(word, s, sameIteration);
    FirstCandidate(word, s, sameIteration);
    CandidateOffsetsSorted(m, k);
    forall i | 0 <= i < |c|
      ensures Bit32(m, Offset(main, c[i])) && c[i] < NUM_ACTIVE_STACKS && (i > 0 ==> c[i] != c[0])
    {
      var b := offsets[i];
      CandidateOffsetsInMask(m, k, i);
      StackOffset(main, k);
      StackOffset(main, b);
      AllowedStackIsActive(word, b);
    }
  }

  /** Every stack the mask allows is among the candidates. */
  lemma CandidatesCover(word: bv64, s: bv32, sameIteration: bool, b: bv32)
    requires WellFormedWord(word) && s < 32 && Bit32(MaskOf(word), b)
    ensures Stack(MainOf(word), b) in Candidates(word, s, sameIteration)
  {
    var offsets := CandidateOffsets(MaskOf(word), FirstStep(word, s, sameIteration));
    CandidateOffsetsCover(MaskOf(word), FirstStep(word, s, sameIteration), b);
    var i :| 0 <= i < |offsets| && offsets[i] == b;
    assert Candidates(word, s, sameIteration)[i] == Stack(MainOf(word), b);
  }

  /** After the first, candidates come in strictly increasing offset from the main stack. */
  lemma CandidatesOrdered(word: bv64, s: bv32, sameIteration: bool)
    requires WellFormedWord(word) && s < 32
    ensures var c := Candidates(word, s, sameIteration);
            forall i, j :: 1 <= i < j < |c| ==> Offset(MainOf(word), c[i]) < Offset(MainOf(word), c[j])
  {
    var main := MainOf(word);
    var offsets := CandidateOffsets(MaskOf(word), FirstStep(word, s, sameIteration));
    var c := Candidates(word, s, sameIteration);
    CandidateOffsetsSorted(MaskOf(word), FirstStep(word, s, sameIteration));
    forall i, j | 1 <= i < j < |c| ensures Offset(main, c[i]) < Offset(main, c[j]) {
      StackOffset(main, offsets[i]);
      StackOffset(main, offsets[j]);
    }
  }
}
