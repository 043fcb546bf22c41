/**
 * The scheduler's profiling log (src/managers/TaskScheduling.cpp:32-49, 215-276): every worker
 * thread owns a ring of 256 items, prof_sched_start / prof_sched_end_exec_start / prof_exec_end
 * fill the item at profiling_i % 256 and then advance profiling_i, and write_profiling dumps
 * all rows as text, one "THREAD t:" header per thread and two lines per item.
 *
 * The number of rows is a parameter of the log: the source sizes it with PROFILING_THREADS = 8,
 * which leaves workers 8 and up without a row (ThreadRowMissingAsWritten); with one row per
 * possible worker thread (MAX_NUM_WORKER_THREADS) every worker has one (ThreadRowPresent).
 */
module Profiling {
  import opened Text
  import opened Tasks
  import opened Latch

  /** The row count the source declares (TaskScheduling.h:20). */
  const PROFILING_THREADS: int := 8
  /** Items per thread (TaskScheduling.h:21). */
  const PROFILING_SIZE: int := 256
  /** The largest number of worker threads main() can launch (TaskScheduling.h:18, gemini.cpp:42). */
  const MAX_NUM_WORKER_THREADS: int := 32

  /**
   * As written, worker_thread(thread_id) indexes profiling_i and profiling_log with its
   * thread_id, which runs up to the number of threads read from stdin, while the arrays hold
   * PROFILING_THREADS rows: with more workers than that, some worker has no row, and
   * SchedStart's precondition fails for it (the source writes past the end).
   */
  lemma ThreadRowMissingAsWritten(p: Profiler, numWorkers: nat)
    requires p.Valid() && p.log.Length0 == PROFILING_THREADS
    requires PROFILING_THREADS < numWorkers <= MAX_NUM_WORKER_THREADS
    ensures exists thread: nat :: thread < numWorkers && !p.HasRow(thread)
  {
    var thread := PROFILING_THREADS;
    assert thread < numWorkers && !p.HasRow(thread);
  }

  /** With one row per possible worker thread, every worker's thread_id has its row. */
  lemma ThreadRowPresent(p: Profiler, numWorkers: nat, thread: nat)
    requires p.Valid() && p.log.Length0 == MAX_NUM_WORKER_THREADS
    requires numWorkers <= MAX_NUM_WORKER_THREADS && thread < numWorkers
    ensures p.HasRow(thread)
  {
  }

  /**
   * profiling_item_t (TaskScheduling.cpp:33-44); times are the clock's milliseconds as exact
   * reals, cycle counts the uint64 values as numbers.
   */
  datatype Item = Item(schedStart: real, schedEnd: real, execEnd: real,
                       rdtscpSched: nat, rdtscpExec: nat, stack: nat,
                       previous: nat, current: nat, reached: nat)

  /** The zero-initialised item of a global array. */
  const ZERO_ITEM := Item(0.0, 0.0, 0.0, 0, 0, 0, 0, 0, 0)

  /** The ring slot profiling_i selects: profiling_i % PROFILING_SIZE. */
  function Slot(index: int): (k: nat)
    ensures k < PROFILING_SIZE
  {
    index % PROFILING_SIZE
  }

  /** profiling_i after n more tasks, starting from index, as the uint32 wraps. */
  function IndexAfter(index: int, n: nat): (i: int)
    ensures 0 <= i < UINT32
  {
    (index + n) % UINT32
  }

  /** One more task advances the index by one, wrapping like a uint32. */
  lemma IndexAfterNext(index: int, n: nat)
    ensures IndexAfter(index, n + 1) == (IndexAfter(index, n) + 1) % UINT32
  {
  }

  /**
   * Because 2^32 is a multiple of 256, the uint32 wrap-around does not disturb the ring:
   * n tasks later the slot has moved on by n, modulo 256.
   */
  lemma SlotAfter(index: int, n: nat)
    ensures Slot(IndexAfter(index, n)) == (Slot(index) + n) % PROFILING_SIZE
  {
    var j := IndexAfter(index, n);
    var c := (index + n) / UINT32 * 16_777_216;
    assert index + n == j + c * PROFILING_SIZE;
    ShiftSlot(j, c);
    ShiftSlot(Slot(index) + n, index / PROFILING_SIZE);
  }

  /** Moving on by whole rings does not change the slot. */
  lemma ShiftSlot(a: int, c: int)
    ensures Slot(a + c * PROFILING_SIZE) == Slot(a)
  {
  }

  /** So any 256 consecutive tasks of one thread fill 256 different slots. */
  lemma SlotsDistinct(index: int, n1: nat, n2: nat)
    requires n1 < n2 < n1 + PROFILING_SIZE
    ensures Slot(IndexAfter(index, n1)) != Slot(IndexAfter(index, n2))
  {
    SlotAfter(index, n1);
    SlotAfter(index, n2);
  }

  const UINT64: int := 0x1_0000_0000_0000_0000

  /** A uint64 difference of two time-stamp counter readings, wrapping like the source's. */
  function Cycles(from: int, to: int): (c: nat)
    ensures c < UINT64
    ensures 0 <= from <= to < UINT64 ==> c == to - from
  {
    (to - from) % UINT64
  }

  /** The profiling globals: the log, profiling_i, and the per-thread rdtscp marks. */
  class Profiler {
    const log: array2<Item>
    const index: array<int>
    const rdtscpSs: array<int>
    const rdtscpEs: array<int>

    ghost predicate Valid()
    {
      log.Length1 == PROFILING_SIZE
      && index.Length == log.Length0 && rdtscpSs.Length == log.Length0
      && rdtscpEs.Length == log.Length0
      && index != rdtscpSs && index != rdtscpEs && rdtscpSs != rdtscpEs
    }

    /** Worker thread `thread` has a row of the log to write to. */
    predicate HasRow(thread: nat)
    {
      thread < log.Length0
    }

    /**
     * The zero-initialised globals with `rows` rows per array: PROFILING_THREADS as the
     * source declares them, MAX_NUM_WORKER_THREADS for a row per possible worker.
     */
    constructor (rows: nat)
      ensures Valid() && fresh(log) && fresh(index) && fresh(rdtscpSs) && fresh(rdtscpEs)
      ensures log.Length0 == rows
      ensures forall t, k :: 0 <= t < rows && 0 <= k < PROFILING_SIZE ==> log[t, k] == ZERO_ITEM
      ensures forall t :: 0 <= t < rows ==> index[t] == 0
    {
      log := new Item[rows, PROFILING_SIZE]((_, _) => ZERO_ITEM);
      index := new int[rows](_ => 0);
      rdtscpSs := new int[rows](_ => 0);
      rdtscpEs := new int[rows](_ => 0);
    }

    /** prof_sched_start (lines 215-222): the current slot's sched_start, and the rdtscp mark. */
    method SchedStart(thread: nat, now: real, clock: int)
      requires Valid() && HasRow(thread)
      modifies log, rdtscpSs
      ensures log[thread, Slot(index[thread])] == old(log[thread, Slot(index[thread])]).(schedStart := now)
      ensures forall t, k :: 0 <= t < log.Length0 && 0 <= k < PROFILING_SIZE && (t != thread || k != Slot(index[thread]))
                             ==> log[t, k] == old(log[t, k])
      ensures rdtscpSs[..] == old(rdtscpSs[..])[thread := clock]
    {
      var i := Slot(index[thread]);
      log[thread, i] := log[thread, i].(schedStart := now);
      rdtscpSs[thread] := clock;
    }

    /**
     * prof_sched_end_exec_start (lines 224-236): the cycles spent scheduling (uint64
     * difference), sched_end, the task's checkpoints and stack, and the next rdtscp mark.
     */
    method SchedEndExecStart(thread: nat, stack: bv32, task: Task, now: real, clockSe: int, clockEs: int)
      requires Valid() && HasRow(thread)
      modifies log, rdtscpEs
      ensures log[thread, Slot(index[thread])]
              == old(log[thread, Slot(index[thread])]).(rdtscpSched := Cycles(rdtscpSs[thread], clockSe), schedEnd := now,
                                                       previous := task.checkpointsPreviousFrame as nat,
                                                       current := task.checkpointsCurrentFrame as nat, stack := stack as nat)
      ensures forall t, k :: 0 <= t < log.Length0 && 0 <= k < PROFILING_SIZE && (t != thread || k != Slot(index[thread]))
                             ==> log[t, k] == old(log[t, k])
      ensures rdtscpEs[..] == old(rdtscpEs[..])[thread := clockEs]
    {
      var i := Slot(index[thread]);
      log[thread, i] := log[thread, i].(rdtscpSched := Cycles(rdtscpSs[thread], clockSe), schedEnd := now,
                                        previous := task.checkpointsPreviousFrame as nat,
                                        current := task.checkpointsCurrentFrame as nat, stack := stack as nat);
      rdtscpEs[thread] := clockEs;
    }

    /** prof_exec_end (lines 238-247): the cycles spent executing, exec_end, and ++profiling_i. */
    method ExecEnd(thread: nat, now: real, clock: int)
      requires Valid() && HasRow(thread)
      modifies log, index
      ensures log[thread, Slot(old(index[thread]))]
              == old(log[thread, Slot(index[thread])]).(rdtscpExec := Cycles(rdtscpEs[thread], clock), execEnd := now)
      ensures forall t, k :: 0 <= t < log.Length0 && 0 <= k < PROFILING_SIZE && (t != thread || k != Slot(old(index[thread])))
                             ==> log[t, k] == old(log[t, k])
      ensures index[..] == old(index[..])[thread := IndexAfter(old(index[thread]), 1)]
    {
      var i := Slot(index[thread]);
      log[thread, i] := log[thread, i].(rdtscpExec := Cycles(rdtscpEs[thread], clock), execEnd := now);
      index[thread] := (index[thread] + 1) % UINT32;
    }

    /** One thread's part of write_profiling (lines 257-269): its header, then its 256 items. */
    method WriteThread(thread: nat, show: real -> string) returns (text: seq<string>)
      requires Valid() && HasRow(thread)
      ensures text == [Header(thread)] + ItemsOf(thread, log.Length1, show)
    {
      var items := [];
      var i := 0;
      while i < log.Length1
        invariant i <= log.Length1 && items == ItemsOf(thread, i, show)
      {
        items := items + ItemLines(log[thread, i], show);
        i := i + 1;
      }
      text := [Header(thread)] + items;
    }

    /** The lines of the first n items of row t. */
    function ItemsOf(t: nat, n: nat, show: real -> string): seq<string>
      reads log
      requires Valid() && t < log.Length0 && n <= PROFILING_SIZE
    {
      if n == 0 then [] else ItemsOf(t, n - 1, show) + ItemLines(log[t, n - 1], show)
    }

    lemma {:induction false} ItemsOfRow(t: nat, n: nat, show: real -> string)
      requires Valid() && t < log.Length0 && n <= PROFILING_SIZE
      ensures ItemsOf(t, n, show) == ItemsText(Row(t)[..n], show)
    {
      if n > 0 {
        ItemsOfRow(t, n - 1, show);
        assert Row(t)[..n][..n - 1] == Row(t)[..n - 1];
      }
    }

    /** Row t of the log, in slot order. */
    function Row(t: nat): (items: seq<Item>)
      reads log
      requires t < log.Length0
      ensures |items| == log.Length1
    {
      seq(log.Length1, k requires 0 <= k < log.Length1 reads log => log[t, k])
    }

    /**
     * write_profiling (lines 249-276): the first numWorkers rows, each under its header,
     * every item as its fields line and a dashes line. The file is returned as its lines,
     * each with its newline; `show` is how the stream prints a double.
     */
    method WriteProfiling(numWorkers: nat, show: real -> string) returns (lines: seq<string>)
      requires Valid() && numWorkers <= log.Length0
      ensures lines == DumpOf(numWorkers, show)
    {
      lines := [];
      var thread := 0;
      while thread < numWorkers
        invariant thread <= numWorkers <= log.Length0
        invariant lines == DumpOf(thread, show)
      {
        var text := WriteThread(thread, show);
        DumpOfNext(thread, show, text);
        lines := lines + text;
        thread := thread + 1;
      }
    }

    /** The dump of the first n rows of the log. */
    function DumpOf(n: nat, show: real -> string): seq<string>
      reads log
      requires Valid() && n <= log.Length0
    {
      if n == 0 then [] else DumpOf(n - 1, show) + [Header(n - 1)] + ItemsOf(n - 1, log.Length1, show)
    }

    lemma DumpOfNext(n: nat, show: real -> string, text: seq<string>)
      requires Valid() && n < log.Length0
      requires text == [Header(n)] + ItemsOf(n, log.Length1, show)
      ensures DumpOf(n + 1, show) == DumpOf(n, show) + text
    {
    }

    /** The first n rows of the log. */
    function Rows(n: nat): (rows: seq<seq<Item>>)
      reads log
      requires Valid() && n <= log.Length0
      ensures |rows| == n
    {
      if n == 0 then [] else Rows(n - 1) + [Row(n - 1)]
    }

    /** What write_profiling writes is the dump of the log's first n rows. */
    lemma {:induction false} DumpOfRows(n: nat, show: real -> string)
      requires Valid() && n <= log.Length0
      ensures DumpOf(n, show) == Dump(Rows(n), show)
    {
      if n > 0 {
        DumpOfRows(n - 1, show);
        DumpAppend(Rows(n - 1), Row(n - 1), show);
        ItemsOfRow(n - 1, log.Length1, show);
        assert Row(n - 1)[..log.Length1] == Row(n - 1);
      }
    }
  }

  /** Dumping one more row appends its header and its items. */
  lemma DumpAppend(rows: seq<seq<Item>>, row: seq<Item>, show: real -> string)
    ensures Dump(rows + [row], show) == Dump(rows, show) + [Header(|rows|)] + ItemsText(row, show)
  {
    assert (rows + [row])[..|rows|] == rows;
  }

  /** "THREAD t:" */
  function Header(thread: nat): string
  {
    "THREAD " + Decimal(thread) + ":\n"
  }

  /** The eight fields write_profiling prints for an item, in order. */
  function Fields(item: Item, show: real -> string): (fields: seq<string>)
    ensures |fields| == 8
  {
    [show(item.schedStart), show(item.schedEnd), show(item.execEnd),
     Decimal(item.rdtscpSched), Decimal(item.rdtscpExec), Decimal(item.stack),
     Decimal(item.previous), Decimal(item.current)]
  }

  /** fields[0] | fields[1] | ... with " | " between neighbours. */
  function Joined(fields: seq<string>): string
    requires |fields| > 0
  {
    if |fields| == 1 then fields[0] else fields[0] + " | " + Joined(fields[1..])
  }

  const DASHES := "\t--------------------\n"

  /** The two lines of an item. */
  function ItemLines(item: Item, show: real -> string): seq<string>
  {
    [Joined(Fields(item, show)) + "\n", DASHES]
  }

  /** The lines of a run of items, in order. */
  function ItemsText(items: seq<Item>, show: real -> string): (lines: seq<string>)
    ensures |lines| == 2 * |items|
  {
    if |items| == 0 then [] else ItemsText(items[..|items| - 1], show) + ItemLines(items[|items| - 1], show)
  }

  /** The whole dump of the given rows, thread numbers counting from 0. */
  function Dump(rows: seq<seq<Item>>, show: real -> string): seq<string>
  {
    if |rows| == 0 then []
    else Dump(rows[..|rows| - 1], show) + [Header(|rows| - 1)] + ItemsText(rows[|rows| - 1], show)
  }
}
