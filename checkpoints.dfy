/**
 * Scheduling checkpoints (TaskScheduling.h:24-46) and the readiness test of a stack's top
 * task (TaskScheduling.cpp:106-112).
 *
 * Two 64-bit words hold the reached checkpoints, s_checkpoints[frame & 1]. A word is read
 * inverted in frames whose bit 1 is clear, so that the word left all ones by frame f
 * reads "nothing reached" again in frame f + 2, when it is reused.
 */
module Checkpoints {

  // ------------------------------------------------------------ the checkpoint bits

  const SCP_NONE: bv64 := 0
  const SCP_INPUT1: bv64 := 1 << 0
  const SCP_PHYSICS1: bv64 := 1 << 1
  const SCP_PHYSICS2: bv64 := 1 << 2
  const SCP_PHYSICS3: bv64 := 1 << 3
  const SCP_PHYSICS4: bv64 := 1 << 4
  const SCP_ANIMATION1: bv64 := 1 << 5
  const SCP_ANIMATION2: bv64 := 1 << 6
  const SCP_ANIMATION3: bv64 := 1 << 7
  const SCP_AI1: bv64 := 1 << 8
  const SCP_AI2: bv64 := 1 << 9
  const SCP_STREAMING1: bv64 := 1 << 10
  const SCP_STREAMING2: bv64 := 1 << 11
  const SCP_STREAMING3: bv64 := 1 << 12
  const SCP_STREAMING4: bv64 := 1 << 13
  const SCP_SOUND1: bv64 := 1 << 14
  const SCP_RENDERING1: bv64 := 1 << 15
  const SCP_RENDERING2: bv64 := 1 << 16
  const SCP_RENDERING3: bv64 := 1 << 17
  /** Used by the input and rendering systems but not declared with the others; bits chosen here. */
  const SCP_RENDERING4: bv64 := 1 << 18
  const SCP_RENDERING_PRESENT: bv64 := 1 << 19
  const SCP_RENDERING_WRITE_PERF_OVERLAY: bv64 := 1 << 20
  const SCP_NEVER: bv64 := 1 << 63

  /** Both checkpoint words as init_scheduler leaves them (lines 75-76). */
  const ALL_CHECKPOINTS: bv64 := 0xFFFF_FFFF_FFFF_FFFF

  // ------------------------------------------------------------ frames and words

  /** The frame a packed stack word belongs to: ss >> 7, widened to 64 bits. */
  function FrameOf(ss: bv32): bv64
  {
    (ss >> 7) as bv64
  }

  /** The task count of a packed stack word, its low 7 bits. */
  function CountOf(ss: bv32): bv32
  {
    ss & 0x7F
  }

  /** The count field as an index into the stack, ss & 0x7F. */
  function CountIndex(ss: bv32): (r: nat)
    ensures r < 128
    ensures r == 0 <==> CountOf(ss) == 0
  {
    (ss & 0x7F) as int
  }

  /** s_checkpoints[frame & 1] */
  function WordFor(scp0: bv64, scp1: bv64, frame: bv64): bv64
  {
    if frame & 1 == 0 then scp0 else scp1
  }

  /**
   * The reached checkpoints of a frame as its word encodes them: the word itself in frames
   * whose bit 1 is set, its complement otherwise.
   */
  function Reached(word: bv64, frame: bv64): bv64
  {
    if frame & 2 == 0 then !word else word
  }

  /** Lines 110-111 decode with word ^ (((frame >> 1) & 1) - 1): the same reading as Reached. */
  lemma ReachedAsWritten(word: bv64, frame: bv64)
    ensures word ^ (((frame >> 1) & 1) - 1) == Reached(word, frame)
  {
    var b := (frame >> 1) & 1;
    assert b == 1 <==> frame & 2 != 0;
    if b == 1 {
      assert b - 1 == 0;
    } else {
      assert b == 0;
      assert b - 1 == ALL_CHECKPOINTS;
    }
  }

  /** Required checkpoints not yet reached. */
  function Missing(required: bv64, reached: bv64): bv64
  {
    required & !reached
  }

  /**
   * Lines 110-111 compute the missing checkpoints as required - (reached & required): taking
   * away a subset of its bits borrows nothing, so the difference is Missing.
   */
  lemma SubtractSubset(required: bv64, reached: bv64)
    ensures required - (reached & required) == Missing(required, reached)
  {
    SubsetDifference(required, reached & required);
    NotShared(required, reached);
  }

  /** Taking away a subset of a word's bits clears them and borrows nothing. */
  lemma SubsetDifference(x: bv64, y: bv64)
    requires y & x == y
    ensures x - y == x & !y
  {
  }

  /** Clearing the shared bits of x is clearing the bits of the other word. */
  lemma NotShared(x: bv64, y: bv64)
    ensures x & !(y & x) == x & !y
  {
  }

  /** The blocking word is non-zero exactly when one of its three parts is. */
  lemma BlockParts(c1: bv64, c2: bv64, c3: bv64, curReq: bv64, prevReq: bv64, curReached: bv64, prevReached: bv64, empty: bool)
    requires c1 == curReq & !curReached && c2 == prevReq & !prevReached
    requires c3 == if empty then 1 else 0
    ensures c1 | c2 | c3 != 0 <==> (curReq & !curReached != 0 || prevReq & !prevReached != 0 || empty)
  {
  }

  /**
   * The blocking word c of lines 110-112 for a top task with the given requirements, given
   * what its current and previous frame have reached and the count field of its stack
   * word. The task is blocked exactly when a required checkpoint of its frame or of the
   * frame before is unreached, or the stack is empty.
   */
  function BlockWord(curReq: bv64, prevReq: bv64, curReached: bv64, prevReached: bv64, count: bv32): (c: bv64)
    ensures c != 0 <==> (curReq & !curReached != 0 || prevReq & !prevReached != 0 || count == 0)
  {
    var c1 := Missing(curReq, curReached);
    var c2 := Missing(prevReq, prevReached);
    var empty := count == 0;
    var c3: bv64 := if empty then 1 else 0;
    BlockParts(c1, c2, c3, curReq, prevReq, curReached, prevReached, empty);
    c1 | c2 | c3
  }

  /** The task at the top of a stack whose word is ss, read against the checkpoint words scp0, scp1. */
  function BlockWordOf(curReq: bv64, prevReq: bv64, scp0: bv64, scp1: bv64, ss: bv32): bv64
  {
    var cur := FrameOf(ss);
    var prev := cur - 1;
    BlockWord(curReq, prevReq, Reached(WordFor(scp0, scp1, cur), cur), Reached(WordFor(scp0, scp1, prev), prev), CountOf(ss))
  }

  // ------------------------------------------------------------ what the encoding promises

  /** With both words all ones, frame 0 reads nothing reached and frame -1 reads everything reached. */
  lemma InitialReadings()
    ensures Reached(ALL_CHECKPOINTS, 0) == SCP_NONE
    ensures Reached(ALL_CHECKPOINTS, 0xFFFF_FFFF_FFFF_FFFF) == ALL_CHECKPOINTS
  {
  }

  /**
   * In frame 0, right after init_scheduler, the previous-frame requirements are all met and
   * a task waits exactly for its current-frame requirements (and a non-empty stack).
   */
  lemma FirstFrameReadiness(curReq: bv64, prevReq: bv64, ss: bv32)
    requires FrameOf(ss) == 0
    ensures BlockWordOf(curReq, prevReq, ALL_CHECKPOINTS, ALL_CHECKPOINTS, ss) != 0
            <==> curReq != SCP_NONE || CountOf(ss) == 0
  {
    var prev := FrameOf(ss) - 1;
    assert WordFor(ALL_CHECKPOINTS, ALL_CHECKPOINTS, prev) == ALL_CHECKPOINTS;
    assert Reached(ALL_CHECKPOINTS, prev) == ALL_CHECKPOINTS;
    assert Reached(ALL_CHECKPOINTS, FrameOf(ss)) == SCP_NONE;
  }

  /** XOR-ing reported checkpoints into a word toggles exactly those bits of what the frame reads. */
  lemma ReportToggles(word: bv64, frame: bv64, reported: bv64)
    ensures Reached(word ^ reported, frame) == Reached(word, frame) ^ reported
  {
  }

  /** Reporting checkpoints not yet reached adds them to the frame's reached set and removes none. */
  lemma ReportAdds(word: bv64, frame: bv64, reported: bv64)
    requires reported & Reached(word, frame) == 0
    ensures Reached(word ^ reported, frame) == Reached(word, frame) | reported
  {
    ReportToggles(word, frame, reported);
  }

  /**
   * Frame f + 2 uses the same word as frame f and reads it inverted: a word whose every
   * checkpoint was reached in frame f reads nothing reached in frame f + 2.
   */
  lemma WordReuse(word: bv64, frame: bv64)
    ensures (frame + 2) & 1 == frame & 1
    ensures Reached(word, frame + 2) == !Reached(word, frame)
    ensures Reached(word, frame) == ALL_CHECKPOINTS ==> Reached(word, frame + 2) == SCP_NONE
  {
  }

  /**
   * A checkpoint nobody reports keeps its initial bit, and so reads as reached in every
   * frame whose bit 1 is set: SCP_NEVER is "reached" in frames 2, 3, 6, 7, ...
   */
  lemma NeverReachedQuirk(word: bv64, frame: bv64)
    requires word & SCP_NEVER == SCP_NEVER
    ensures Reached(word, frame) & SCP_NEVER != 0 <==> frame & 2 != 0
  {
  }
}
