/**
 * Bit-level vocabulary shared by the scheduler, the block pool and the key packer:
 * single bits of 32- and 64-bit words, the x86 bit-scan instructions the engine reaches
 * through MPlatform::asm_bsf / asm_bsr (index of the lowest / highest set bit, undefined
 * on zero), and 32-bit rotations.
 *
 * The raw shift-and-mask facts are kept inside small predicates and proved in
 * quantifier-free lemmas; everything else talks about them through those names.
 */
module Bits {

  // ---------------------------------------------------------------- 32-bit words

  /** Bit i of m is set. */
  predicate Bit32(m: bv32, i: bv32) { i < 32 && (m >> i) & 1 == 1 }

  /** k is the index of the lowest set bit of m. */
  predicate LowestSetBit32(m: bv32, k: bv32) { Bit32(m, k) && m & ((1 << k) - 1) == 0 }

  /** k is the index of the highest set bit of m. */
  predicate HighestSetBit32(m: bv32, k: bv32) { k < 32 && m >> k == 1 }

  /** Bits i and above of m are not all clear, and every bit below i is clear. */
  predicate ClearBelow32(m: bv32, i: bv32) { i < 32 && m & ((1 << i) - 1) == 0 && m >> i != 0 }

  /** Bit i and every bit above it of m are clear, but m is not zero. */
  predicate ClearFrom32(m: bv32, i: bv32) { i < 32 && m >> i <= 1 && m != 0 }

  lemma LowestIsSet32(m: bv32, k: bv32)
    requires LowestSetBit32(m, k)
    ensures Bit32(m, k)
  {
  }

  lemma BelowLowestIsClear32(m: bv32, k: bv32, b: bv32)
    requires LowestSetBit32(m, k) && b < k
    ensures !Bit32(m, b)
  {
  }

  lemma HighestIsSet32(m: bv32, k: bv32)
    requires HighestSetBit32(m, k)
    ensures Bit32(m, k)
  {
  }

  lemma AboveHighestIsClear32(m: bv32, k: bv32, b: bv32)
    requires HighestSetBit32(m, k) && k < b
    ensures !Bit32(m, b)
  {
  }

  lemma StartLowSearch32(m: bv32)
    requires m != 0
    ensures ClearBelow32(m, 0)
  {
  }

  lemma StepLowSearch32(m: bv32, i: bv32)
    requires ClearBelow32(m, i) && !Bit32(m, i)
    ensures i < 31 && ClearBelow32(m, i + 1)
  {
  }

  lemma EndLowSearch32(m: bv32, i: bv32)
    requires ClearBelow32(m, i) && Bit32(m, i)
    ensures LowestSetBit32(m, i)
  {
  }

  lemma StartHighSearch32(m: bv32)
    requires m != 0
    ensures ClearFrom32(m, 31)
  {
  }

  lemma StepHighSearch32(m: bv32, i: bv32)
    requires ClearFrom32(m, i) && m >> i != 1
    ensures 0 < i && ClearFrom32(m, i - 1)
  {
  }

  lemma EndHighSearch32(m: bv32, i: bv32)
    requires ClearFrom32(m, i) && m >> i == 1
    ensures HighestSetBit32(m, i)
  {
  }

  /** asm_bsf on a 32-bit word (Platform.h:15-23): the index of the lowest set bit. */
  function Bsf32(m: bv32): (k: bv32)
    requires m != 0
    ensures LowestSetBit32(m, k)
  {
    StartLowSearch32(m);
    BsfFrom32(m, 0)
  }

  function BsfFrom32(m: bv32, i: bv32): (k: bv32)
    requires ClearBelow32(m, i)
    ensures i <= k && LowestSetBit32(m, k)
    decreases 32 - i
  {
    if Bit32(m, i) then
      EndLowSearch32(m, i);
      i
    else
      StepLowSearch32(m, i);
      BsfFrom32(m, i + 1)
  }

  /** asm_bsr on a 32-bit word (Platform.h:25-33): the index of the highest set bit. */
  function Bsr32(m: bv32): (k: bv32)
    requires m != 0
    ensures HighestSetBit32(m, k)
  {
    StartHighSearch32(m);
    BsrFrom32(m, 31)
  }

  function BsrFrom32(m: bv32, i: bv32): (k: bv32)
    requires ClearFrom32(m, i)
    ensures k <= i && HighestSetBit32(m, k)
    decreases i
  {
    if m >> i == 1 then
      EndHighSearch32(m, i);
      i
    else
      StepHighSearch32(m, i);
      BsrFrom32(m, i - 1)
  }

  /**
   * (m >> r) | (m << (32 - r)) as the engine writes a right rotation. For r == 0 the
   * second shift is by 32, which x86 reduces to a shift by 0, so the expression is m.
   */
  function RotR32(m: bv32, r: bv32): bv32
    requires r < 32
  {
    if r == 0 then m else (m >> r) | (m << (32 - r))
  }

  lemma ShrBit32(m: bv32, r: bv32, b: bv32)
    requires r < 32 && b < 32 && b + r < 32
    ensures Bit32(m >> r, b) == Bit32(m, b + r)
  {
  }

  lemma ShrHigh32(m: bv32, r: bv32, b: bv32)
    requires 0 < r < 32 && b < 32 && b + r >= 32
    ensures !Bit32(m >> r, b)
  {
  }

  lemma ShlBit32(m: bv32, r: bv32, b: bv32)
    requires 0 < r < 32 && b < 32 && b + r >= 32
    ensures Bit32(m << (32 - r), b) == Bit32(m, b + r - 32)
  {
  }

  lemma ShlLow32(m: bv32, r: bv32, b: bv32)
    requires 0 < r < 32 && b < 32 && b + r < 32
    ensures !Bit32(m << (32 - r), b)
  {
  }

  lemma RotRBitLow32(m: bv32, r: bv32, b: bv32)
    requires r < 32 && b < 32 && b + r < 32
    ensures Bit32(RotR32(m, r), b) == Bit32(m, b + r)
  {
    ShrBit32(m, r, b);
    if r != 0 {
      ShlLow32(m, r, b);
      OrBit32(m >> r, m << (32 - r), b);
    }
  }

  lemma RotRBitHigh32(m: bv32, r: bv32, b: bv32)
    requires r < 32 && b < 32 && b + r >= 32
    ensures Bit32(RotR32(m, r), b) == Bit32(m, b + r - 32)
  {
    ShrHigh32(m, r, b);
    ShlBit32(m, r, b);
    OrBit32(m >> r, m << (32 - r), b);
  }

  /** Bit b of m rotated right by r is bit (b + r) mod 32 of m. */
  lemma RotRBit32(m: bv32, r: bv32, b: bv32)
    requires r < 32 && b < 32
    ensures Bit32(RotR32(m, r), b) == Bit32(m, (b + r) % 32)
  {
    if b + r < 32 {
      RotRBitLow32(m, r, b);
      assert (b + r) % 32 == b + r;
    } else {
      RotRBitHigh32(m, r, b);
      assert (b + r) % 32 == b + r - 32;
    }
  }

  /** m & ~(1 << k): m with bit k cleared. */
  function ClearBit32(m: bv32, k: bv32): bv32
    requires k < 32
  {
    m & !(1 << k)
  }

  lemma ClearBitSame32(m: bv32, k: bv32)
    requires k < 32
    ensures !Bit32(ClearBit32(m, k), k)
  {
  }

  lemma ClearBitOther32(m: bv32, k: bv32, b: bv32)
    requires k < 32 && b != k
    ensures Bit32(ClearBit32(m, k), b) == Bit32(m, b)
  {
  }

  lemma ClearBitBit32(m: bv32, k: bv32, b: bv32)
    requires k < 32
    ensures Bit32(ClearBit32(m, k), b) == (Bit32(m, b) && b != k)
  {
    if b == k { ClearBitSame32(m, k); } else { ClearBitOther32(m, k, b); }
  }

  lemma OrBit32(x: bv32, y: bv32, b: bv32)
    ensures Bit32(x | y, b) == (Bit32(x, b) || Bit32(y, b))
  {
  }

  lemma AndBit32(x: bv32, y: bv32, b: bv32)
    ensures Bit32(x & y, b) == (Bit32(x, b) && Bit32(y, b))
  {
  }

  lemma SingleBit32(k: bv32, b: bv32)
    requires k < 32
    ensures Bit32(1 << k, b) == (b == k)
  {
  }

  lemma ZeroBit32(b: bv32)
    ensures !Bit32(0, b)
  {
  }

  // ---------------------------------------------------------------- 64-bit words

  /** Bit i of m is set. */
  predicate Bit64(m: bv64, i: bv64) { i < 64 && (m >> i) & 1 == 1 }

  /** k is the index of the lowest set bit of m. */
  predicate LowestSetBit64(m: bv64, k: bv64) { Bit64(m, k) && m & ((1 << k) - 1) == 0 }

  predicate ClearBelow64(m: bv64, i: bv64) { i < 64 && m & ((1 << i) - 1) == 0 && m >> i != 0 }

  lemma BelowLowestIsClear64(m: bv64, k: bv64, b: bv64)
    requires LowestSetBit64(m, k) && b < k
    ensures !Bit64(m, b)
  {
  }

  lemma StartLowSearch64(m: bv64)
    requires m != 0
    ensures ClearBelow64(m, 0)
  {
  }

  lemma StepLowSearch64(m: bv64, i: bv64)
    requires ClearBelow64(m, i) && !Bit64(m, i)
    ensures i < 63 && ClearBelow64(m, i + 1)
  {
  }

  lemma EndLowSearch64(m: bv64, i: bv64)
    requires ClearBelow64(m, i) && Bit64(m, i)
    ensures LowestSetBit64(m, i)
  {
  }

  /** asm_bsf64 (used by the block pool): the index of the lowest set bit of a 64-bit word. */
  function Bsf64(m: bv64): (k: bv64)
    requires m != 0
    ensures LowestSetBit64(m, k)
  {
    StartLowSearch64(m);
    BsfFrom64(m, 0)
  }

  function BsfFrom64(m: bv64, i: bv64): (k: bv64)
    requires ClearBelow64(m, i)
    ensures i <= k && LowestSetBit64(m, k)
    decreases 64 - i
  {
    if Bit64(m, i) then
      EndLowSearch64(m, i);
      i
    else
      StepLowSearch64(m, i);
      BsfFrom64(m, i + 1)
  }

  /** m & ~((uint64_t)1 << k): m with bit k cleared. */
  function ClearBit64(m: bv64, k: bv64): bv64
    requires k < 64
  {
    m & !(1 << k)
  }

  /** m | ((uint64_t)1 << k): m with bit k set. */
  function SetBit64(m: bv64, k: bv64): bv64
    requires k < 64
  {
    m | (1 << k)
  }

  lemma ClearBitSame64(m: bv64, k: bv64)
    requires k < 64
    ensures !Bit64(ClearBit64(m, k), k)
  {
  }

  lemma ClearBitBelow64(m: bv64, k: bv64, b: bv64)
    requires k < 64 && b < k
    ensures Bit64(ClearBit64(m, k), b) == Bit64(m, b)
  {
  }

  lemma ClearBitAbove64(m: bv64, k: bv64, b: bv64)
    requires k < 64 && k < b
    ensures Bit64(ClearBit64(m, k), b) == Bit64(m, b)
  {
  }

  lemma ClearBitOther64(m: bv64, k: bv64, b: bv64)
    requires k < 64 && b != k
    ensures Bit64(ClearBit64(m, k), b) == Bit64(m, b)
  {
    if b < k { ClearBitBelow64(m, k, b); } else { ClearBitAbove64(m, k, b); }
  }

  lemma ClearBitBit64(m: bv64, k: bv64, b: bv64)
    requires k < 64
    ensures Bit64(ClearBit64(m, k), b) == (Bit64(m, b) && b != k)
  {
    if b == k { ClearBitSame64(m, k); } else { ClearBitOther64(m, k, b); }
  }

  lemma SetBitSame64(m: bv64, k: bv64)
    requires k < 64
    ensures Bit64(SetBit64(m, k), k)
  {
  }

  lemma SetBitBelow64(m: bv64, k: bv64, b: bv64)
    requires k < 64 && b < k
    ensures Bit64(SetBit64(m, k), b) == Bit64(m, b)
  {
  }

  lemma SetBitAbove64(m: bv64, k: bv64, b: bv64)
    requires k < 64 && k < b
    ensures Bit64(SetBit64(m, k), b) == Bit64(m, b)
  {
  }

  lemma SetBitOther64(m: bv64, k: bv64, b: bv64)
    requires k < 64 && b != k
    ensures Bit64(SetBit64(m, k), b) == Bit64(m, b)
  {
    if b < k { SetBitBelow64(m, k, b); } else { SetBitAbove64(m, k, b); }
  }

  lemma SetBitBit64(m: bv64, k: bv64, b: bv64)
    requires k < 64
    ensures Bit64(SetBit64(m, k), b) == (Bit64(m, b) || b == k)
  {
    if b == k { SetBitSame64(m, k); } else { SetBitOther64(m, k, b); }
  }

  /** Setting a bit that was just cleared gives back the original word. */
  lemma SetClearedBit64(m: bv64, k: bv64)
    requires k < 64 && Bit64(m, k)
    ensures SetBit64(ClearBit64(m, k), k) == m
  {
  }
}
