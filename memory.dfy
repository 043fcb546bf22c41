/**
 * The block pool and the bump allocator of MMemory (Memory.cpp, Memory.h).
 *
 * init_memory takes 512 blocks of 32 KiB in one allocation and marks them all free in eight
 * 64-bit masks (bit b of mask s free = block b of segment s free). A LinearAllocator32kb
 * claims one block with Init, hands out aligned pieces of it with Allocate, starts over with
 * Clear, and gives the block back when destroyed.
 *
 * Addresses are numbers; the address the pool allocation returned is a parameter.
 */
module Memory {
  import opened Bits
  import opened Wrappers

  const BLOCK_SIZE: int := 32 * 1024
  const BLOCKS_PER_SEGMENT: int := 64
  const SEGMENT_SIZE: int := BLOCKS_PER_SEGMENT * BLOCK_SIZE
  const NUM_SEGMENTS: int := 8
  const ALL_FREE: bv64 := 0xFFFF_FFFF_FFFF_FFFF

  /** Where block `block` of segment `segment` starts (Memory.cpp:51, 64). */
  function BlockBase(pool: int, segment: int, block: int): int
  {
    pool + segment * SEGMENT_SIZE + block * BLOCK_SIZE
  }

  /** Distinct blocks own disjoint 32 KiB ranges inside the pool. */
  lemma BlocksDisjoint(pool: int, s1: int, b1: int, s2: int, b2: int)
    requires 0 <= s1 < NUM_SEGMENTS && 0 <= b1 < BLOCKS_PER_SEGMENT
    requires 0 <= s2 < NUM_SEGMENTS && 0 <= b2 < BLOCKS_PER_SEGMENT
    requires s1 != s2 || b1 != b2
    ensures BlockBase(pool, s1, b1) + BLOCK_SIZE <= BlockBase(pool, s2, b2)
            || BlockBase(pool, s2, b2) + BLOCK_SIZE <= BlockBase(pool, s1, b1)
    ensures pool <= BlockBase(pool, s1, b1) && BlockBase(pool, s1, b1) + BLOCK_SIZE <= pool + NUM_SEGMENTS * SEGMENT_SIZE
  {
    if s1 == s2 {
      if b1 < b2 {
        assert b1 + 1 <= b2;
      } else {
        assert b2 + 1 <= b1;
      }
    } else if s1 < s2 {
      assert s1 + 1 <= s2;
    } else {
      assert s2 + 1 <= s1;
    }
  }

  // ------------------------------------------------------------ the pool

  /** The pool allocation and its availability masks (_mem512x32kb, _mem512x32kb_allocmask). */
  class Pool {
    const base: int
    const allocMask: array<bv64>

    ghost predicate Valid()
      reads this
    {
      allocMask.Length == NUM_SEGMENTS && base > 0 && base % 16 == 0
    }

    /** Some block is free. */
    predicate HasFreeBlock()
      reads this, allocMask
      requires Valid()
    {
      exists i :: 0 <= i < NUM_SEGMENTS && allocMask[i] != 0
    }

    /**
     * init_memory (Memory.cpp:19-27): `base` is what malloc returned (non-null, aligned to
     * 16 bytes); every block is marked free.
     */
    constructor (base: int)
      requires base > 0 && base % 16 == 0
      ensures Valid() && this.base == base && fresh(allocMask)
      ensures forall i :: 0 <= i < NUM_SEGMENTS ==> allocMask[i] == ALL_FREE
    {
      this.base := base;
      var masks := new bv64[NUM_SEGMENTS];
      var i := 0;
      while i < NUM_SEGMENTS
        invariant 0 <= i <= NUM_SEGMENTS
        invariant forall j :: 0 <= j < i ==> masks[j] == ALL_FREE
      {
        masks[i] := ALL_FREE;
        i := i + 1;
      }
      allocMask := masks;
    }
  }

  // ------------------------------------------------------------ the first free segment

  /**
   * The segment the Init search settles on: the first whose mask is not zero, or None when
   * every block is taken.
   */
  function FirstFreeSegment(masks: seq<bv64>, from: nat): (r: Option<nat>)
    requires from <= |masks|
    ensures r.Some? ==> from <= r.value < |masks| && masks[r.value] != 0
                        && forall i :: from <= i < r.value ==> masks[i] == 0
    ensures r.None? <==> forall i :: from <= i < |masks| ==> masks[i] == 0
    decreases |masks| - from
  {
    if from == |masks| then None
    else if masks[from] != 0 then Some(from)
    else FirstFreeSegment(masks, from + 1)
  }

  /**
   * The guard of the search as written, assert(segment < 9) (Memory.cpp:47): it lets the
   * search step to segment 8 and read a ninth mask that does not exist.
   */
  predicate SearchGuardAsWritten(segment: int)
  {
    segment < 9
  }

  /** With every block taken the search reaches segment 8, which the guard admits. */
  lemma SearchGuardAdmitsNinthMask(masks: seq<bv64>)
    requires |masks| == NUM_SEGMENTS && forall i :: 0 <= i < NUM_SEGMENTS ==> masks[i] == 0
    ensures FirstFreeSegment(masks, 0).None?
    ensures SearchGuardAsWritten(NUM_SEGMENTS) && !(NUM_SEGMENTS < |masks|)
  {
  }

  // ------------------------------------------------------------ alignment

  /** The alignments a uint8 parameter can hold that round correctly: powers of two. */
  predicate IsAlignment(a: int)
  {
    a == 1 || a == 2 || a == 4 || a == 8 || a == 16 || a == 32 || a == 64 || a == 128
  }

  /**
   * (p + a - 1) & ~(a - 1) for a power of two a: clearing the low bits of p + a - 1 takes away
   * its remainder modulo a. The result is the first multiple of a at or after p.
   */
  function RoundUp(p: int, a: int): (r: int)
    requires p >= 0 && IsAlignment(a)
    ensures p <= r < p + a && r % a == 0
  {
    var x := p + a - 1;
    x - x % a
  }

  /** A position already aligned stays put. */
  lemma RoundUpAligned(p: int, a: int)
    requires p >= 0 && IsAlignment(a) && p % a == 0
    ensures RoundUp(p, a) == p
  {
    var x := p + a - 1;
    assert x % a == a - 1 by {
      assert x == (p / a) * a + (a - 1);
      DivModUnique(x, a, p / a, a - 1);
    }
  }

  /** Division and remainder are the only quotient and remainder in range. */
  lemma DivModUnique(x: int, a: int, q: int, r: int)
    requires a > 0 && 0 <= r < a && x == q * a + r
    ensures x % a == r && x / a == q
  {
    var q', r' := x / a, x % a;
    assert (q - q') * a == r' - r;
    if q' < q {
      AtLeastOnce(q - q', a);
    } else if q' > q {
      assert (q' - q) * a == r - r';
      AtLeastOnce(q' - q, a);
    }
  }

  lemma {:induction false} AtLeastOnce(d: int, a: int)
    requires d >= 1 && a > 0
    ensures d * a >= a
    decreases d
  {
    if d > 1 {
      AtLeastOnce(d - 1, a);
      assert d * a == (d - 1) * a + a;
    }
  }

  // ------------------------------------------------------------ the bump allocator

  class LinearAllocator32kb {
    const pool: Pool
    var position: int
    var segment: int
    var block: bv32

    /** The start of the claimed block. */
    function Base(): int
      reads this, pool
    {
      BlockBase(pool.base, segment, block as int)
    }

    /** A block is claimed and the position lies inside it. */
    ghost predicate Claimed()
      reads this, pool
    {
      pool.Valid() && 0 <= segment < NUM_SEGMENTS && block < 64
      && Base() <= position <= Base() + BLOCK_SIZE
    }

    /** The allocator before Init, working on `pool`. */
    constructor (pool: Pool)
      ensures this.pool == pool && position == 0 && segment == 0 && block == 0
    {
      this.pool := pool;
      position := 0;
      segment := 0;
      block := 0;
    }

    /**
     * Init (Memory.cpp:34-54): claim the lowest free block of the first segment that has
     * one, clearing only that bit, and start at its base. The search stays within the eight
     * masks only because some block is free.
     */
    method Init()
      requires pool.Valid() && pool.HasFreeBlock()
      modifies this, pool.allocMask
      ensures Claimed() && position == Base()
      ensures Some(segment) == FirstFreeSegment(old(pool.allocMask[..]), 0)
      ensures block as bv64 == Bsf64(old(pool.allocMask[..])[segment])
      ensures pool.allocMask[segment] == ClearBit64(old(pool.allocMask[..])[segment], block as bv64)
      ensures forall i :: 0 <= i < NUM_SEGMENTS && i != segment ==> pool.allocMask[i] == old(pool.allocMask[i])
    {
      var s := FindSegment();
      var masks := pool.allocMask;
      var word := masks[s];
      var k := Bsf64(word);
      masks[s] := ClearBit64(word, k);
      Take(s, k);
    }

    /** Lines 37-45: the first segment whose mask is not zero; some block is free, so there is one. */
    method FindSegment() returns (s: nat)
      requires pool.Valid() && pool.HasFreeBlock()
      ensures Some(s) == FirstFreeSegment(pool.allocMask[..], 0)
      ensures s < NUM_SEGMENTS && pool.allocMask[s] != 0
    {
      var masks := pool.allocMask;
      s := 0;
      var word: bv64 := masks[0];
      while word == 0
        invariant 0 <= s < NUM_SEGMENTS && word == masks[s]
        invariant forall i :: 0 <= i < s ==> masks[i] == 0
        invariant exists i :: s <= i < NUM_SEGMENTS && masks[i] != 0
        decreases NUM_SEGMENTS - s
      {
        s := s + 1;
        word := masks[s];
      }
      assert FirstFreeSegment(masks[..], s) == Some(s);
      FirstFreeSkips(masks[..], s);
    }

    /** Lines 48-53: the allocator records the claimed segment and block and starts at its base. */
    method Take(s: nat, k: bv64)
      requires s < NUM_SEGMENTS && k < 64
      modifies this`segment, this`block, this`position
      ensures segment == s && block as bv64 == k && block < 64 && position == Base()
    {
      NarrowIndex(k);
      segment := s;
      block := k as bv32;
      position := BlockBase(pool.base, segment, block as int);
    }

    /**
     * ~LinearAllocator32kb (Memory.cpp:56-60): the block's bit is set again and the position
     * becomes null.
     */
    method Release()
      requires pool.Valid() && 0 <= segment < NUM_SEGMENTS && block < 64
      modifies this`position, pool.allocMask
      ensures position == 0
      ensures pool.allocMask[segment] == SetBit64(old(pool.allocMask[..])[segment], block as bv64)
      ensures forall i :: 0 <= i < NUM_SEGMENTS && i != segment ==> pool.allocMask[i] == old(pool.allocMask[i])
    {
      var masks := pool.allocMask;
      masks[segment] := SetBit64(masks[segment], block as bv64);
      position := 0;
    }

    /** Clear (Memory.cpp:62-65): back to the start of the block; clearing twice is clearing once. */
    method Clear()
      requires pool.Valid() && 0 <= segment < NUM_SEGMENTS && block < 64
      modifies this`position
      ensures Claimed() && position == Base()
    {
      position := BlockBase(pool.base, segment, block as int);
    }

    /**
     * Allocate (Memory.cpp:67-75): the position rounded up to the alignment, after which the
     * position moves past the `size` bytes handed out. The assert of line 70 is the
     * precondition; under it the piece stays inside the block.
     */
    method Allocate(size: int, alignment: int) returns (ret: int)
      requires Claimed() && size >= 0 && IsAlignment(alignment)
      requires position + size + alignment - Base() < BLOCK_SIZE
      modifies this`position
      ensures Claimed()
      ensures ret == RoundUp(old(position), alignment)
      ensures old(position) <= ret && ret + size < Base() + BLOCK_SIZE
      ensures position == ret + size
    {
      ret := RoundUp(position, alignment);
      position := ret + size;
    }
  }

  /** Skipping empty masks does not change the first free segment. */
  lemma {:induction false} FirstFreeSkips(masks: seq<bv64>, s: nat)
    requires s <= |masks| && forall i :: 0 <= i < s ==> masks[i] == 0
    ensures FirstFreeSegment(masks, 0) == FirstFreeSegment(masks, s)
    decreases s
  {
    if s > 0 {
      FirstFreeSkips(masks, s - 1);
    }
  }

  /**
   * Claiming a block (Init) and releasing it again (the destructor) gives back the pool's
   * masks exactly as they were: the claimed bit was set, so setting it again restores it.
   */
  lemma ClaimReleaseRestores(masks: seq<bv64>)
    requires FirstFreeSegment(masks, 0).Some?
    ensures var s := FirstFreeSegment(masks, 0).value;
            var k := Bsf64(masks[s]);
            var claimed := masks[s := ClearBit64(masks[s], k)];
            claimed[s := SetBit64(claimed[s], k)] == masks
  {
    var s := FirstFreeSegment(masks, 0).value;
    SetClearedBit64(masks[s], Bsf64(masks[s]));
  }

  /** A bit index of a 64-bit word survives the trip through the uint32 m_block. */
  lemma NarrowIndex(k: bv64)
    requires k < 64
    ensures (k as bv32) as bv64 == k && k as bv32 < 64
  {
  }

  /**
   * The placement operator new (Memory.cpp:9-12): `count` objects of `size` bytes from the
   * allocator (the default count is 1, the default alignment 4).
   */
  method New(alloc: LinearAllocator32kb, size: int, count: int, alignment: int) returns (ret: int)
    requires alloc.Claimed() && size >= 0 && count >= 0 && IsAlignment(alignment)
    requires alloc.position + size * count + alignment - alloc.Base() < BLOCK_SIZE
    modifies alloc`position
    ensures alloc.Claimed()
    ensures ret == RoundUp(old(alloc.position), alignment)
    ensures alloc.position == ret + size * count
  {
    ret := alloc.Allocate(size * count, alignment);
  }

  /**
   * Successive allocations return increasing, non-overlapping ranges: the second starts
   * at or after the end of the first.
   */
  lemma AllocationsDisjoint(p: int, size1: int, a1: int, size2: int, a2: int)
    requires p >= 0 && size1 >= 0 && size2 >= 0 && IsAlignment(a1) && IsAlignment(a2)
    ensures var r1 := RoundUp(p, a1);
            var r2 := RoundUp(r1 + size1, a2);
            p <= r1 && r1 + size1 <= r2
  {
  }
}
