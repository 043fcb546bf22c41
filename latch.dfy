/**
 * The countdown latch of the task groups (Animation.cpp:121-161, rendering/Rendering.cpp:195-235
 * and 329-334, Rendering.cpp:143-183): a std::atomic<uint32_t> set to one less than the
 * number of tasks in the group; each task takes one off with fetch_sub, and the task that
 * saw 0 reports the group's checkpoint.
 */
module Latch {

  const UINT32: int := 0x1_0000_0000

  /** A group counter, shared by reference between the tasks of one group. */
  class Counter {
    /** A uint32, held as a number in [0, 2^32). */
    var value: int

    ghost predicate Valid()
      reads this
    {
      0 <= value < UINT32
    }

    constructor ()
      ensures Valid() && value == 0
    {
      value := 0;
    }

    /** counter.store(v): the submitting task arms the latch. */
    method Store(v: int)
      requires 0 <= v < UINT32
      modifies this
      ensures Valid() && value == v
    {
      value := v;
    }

    /** counter.fetch_sub(1): the value before, the counter one less (uint32 wrap-around). */
    method FetchSub() returns (prior: int)
      requires Valid()
      modifies this
      ensures Valid()
      ensures prior == old(value)
      ensures value == (old(value) - 1) % UINT32
    {
      prior := value;
      value := (value - 1) % UINT32;
    }
  }

  /**
   * One task of a group: it counts the latch down and reports `checkpoint` when it saw 0,
   * SCP_NONE (0) otherwise.
   */
  method Arrive(counter: Counter, checkpoint: bv64) returns (reached: bv64)
    requires counter.Valid()
    modifies counter
    ensures counter.Valid()
    ensures counter.value == (old(counter.value) - 1) % UINT32
    ensures reached == if old(counter.value) == 0 then checkpoint else 0
  {
    var count := counter.FetchSub();
    reached := 0;
    if count == 0 {
      reached := checkpoint;
    }
  }

  /**
   * The value the k-th arriving task (from 0) sees on a counter armed with `start`: each
   * Arrive leaves (value - 1) % 2^32 behind.
   */
  function Seen(start: int, k: nat): int
  {
    (start - k) % UINT32
  }

  /** Successive arrivals see successive decrements of the counter. */
  lemma SeenNext(start: int, k: nat)
    ensures (Seen(start, k) - 1) % UINT32 == Seen(start, k + 1)
  {
  }

  /** How many of the first n arriving tasks report the checkpoint. */
  function Reports(start: int, n: nat): nat
  {
    if n == 0 then 0 else Reports(start, n - 1) + (if Seen(start, n - 1) == 0 then 1 else 0)
  }

  /** No task before the (start + 1)-th reports. */
  lemma {:induction false} NoEarlyReport(start: int, n: nat)
    requires n <= start < UINT32
    ensures Reports(start, n) == 0
  {
    if n > 0 {
      NoEarlyReport(start, n - 1);
      assert 0 < start - (n - 1) < UINT32;
    }
  }

  /**
   * A group of start + 1 tasks over a counter armed with start reports its checkpoint
   * exactly once, from its last task: with 9, one of ten (with N - 1, one of N).
   */
  lemma OneReportPerGroup(start: int)
    requires 0 <= start < UINT32
    ensures Reports(start, start) == 0
    ensures Reports(start, start + 1) == 1
  {
    NoEarlyReport(start, start);
    assert Seen(start, start) == 0;
  }
}
