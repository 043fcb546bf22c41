/**
 * The input system's statics and routines (src/systems/input/Input.cpp): key_events and
 * num_events as arrays the key callback, the gather and input_task update in place, the
 * key_states rows input_task packs, and the two-task stack submit_tasks publishes.
 */
module InputSystem {
  import opened Wrappers
  import opened Tasks
  import opened Checkpoints
  import opened Memory
  import opened Scheduler
  import opened Submit
  import opened KeyStates
  import opened InputEvents
  import Priority

  /** Slot 1: the re-submission, once the input task of this frame has reported INPUT1 (lines 86-91). */
  const SUBMIT_ENTRY := Entry(SubmitTasks(Input), None, SCP_NONE, SCP_INPUT1)

  /** Slot 2: the input task, once the previous frame's rendering has reported RENDERING4 (lines 93-98). */
  const INPUT_ENTRY := Entry(InputTask, None, SCP_RENDERING4, SCP_NONE)

  class SystemState {
    const systemId: nat
    const taskArgs: LinearAllocator32kb
    /** key_events[NUM_KEY_STATES][8] */
    const keyEvents: array2<int>
    /** num_events[NUM_KEY_STATES] */
    const numEvents: array<nat>
    /** key_states[NUM_KEY_STATES], as eight 16-bit lanes per row */
    const keyStates: array2<int>

    /** The arrays have the shapes their declarations give them. */
    predicate Shaped()
      reads this
    {
      && keyEvents.Length0 == NUM_KEY_STATES && keyEvents.Length1 == LANES
      && keyStates.Length0 == NUM_KEY_STATES && keyStates.Length1 == LANES
      && numEvents.Length == NUM_KEY_STATES && keyEvents != keyStates
    }

    /** Row r of key_events. */
    function Row(r: nat): (row: seq<int>)
      reads this, keyEvents
      requires Shaped() && r < NUM_KEY_STATES
      ensures |row| == LANES
    {
      seq(LANES, j requires 0 <= j < LANES reads keyEvents => keyEvents[r, j])
    }

    /** key_events and num_events as values. */
    function Snapshot(): (e: Events)
      reads this, keyEvents, numEvents
      requires Shaped()
    {
      Events(seq(NUM_KEY_STATES, r requires 0 <= r < NUM_KEY_STATES reads this, keyEvents => Row(r)),
             numEvents[..])
    }

    /** key_states as values. */
    function States(): (states: seq<seq<int>>)
      reads this, keyStates
      requires Shaped()
    {
      seq(NUM_KEY_STATES, r requires 0 <= r < NUM_KEY_STATES reads this, keyStates =>
        seq(LANES, j requires 0 <= j < LANES reads keyStates => keyStates[r, j]))
    }

    predicate Valid()
      reads this, keyEvents, numEvents
    {
      Shaped() && InputEvents.Valid(Snapshot())
    }

    /** init_input's allocation (lines 24-29): zero-initialised statics. */
    constructor (systemId: nat, taskArgs: LinearAllocator32kb)
      ensures this.systemId == systemId && this.taskArgs == taskArgs
      ensures Valid() && Snapshot().counts == [0, 0, 0, 0]
      ensures fresh(keyEvents) && fresh(numEvents) && fresh(keyStates)
    {
      this.systemId := systemId;
      this.taskArgs := taskArgs;
      keyEvents := new int[NUM_KEY_STATES, LANES]((_, _) => 0);
      numEvents := new nat[NUM_KEY_STATES](_ => 0);
      keyStates := new int[NUM_KEY_STATES, LANES]((_, _) => 0);
      new;
      assert numEvents[..] == [0, 0, 0, 0];
    }

    /**
     * key_callback (lines 74-78): GLFW passes one of the three actions; the key goes into
     * that row at its count and the count moves on.
     */
    method KeyCallback(key: int, action: nat)
      requires Valid() && action < KEY_DOWN
      modifies keyEvents, numEvents
      ensures Valid() && Snapshot() == Callback(old(Snapshot()), action, key)
    {
      ghost var e := Snapshot();
      var n := numEvents[action];
      keyEvents[action, n] := key % DWORD;
      numEvents[action] := NextCount(n, MaxEvents(action));
      CallbackRecords(e, action, key);
      SnapshotIs(Callback(e, action, key));
    }

    /** Snapshot() is e when every row and count agrees with it. */
    lemma SnapshotIs(e: Events)
      requires Shaped() && |e.rows| == NUM_KEY_STATES
      requires forall r :: 0 <= r < NUM_KEY_STATES ==> Row(r) == e.rows[r]
      requires numEvents[..] == e.counts
      ensures Snapshot() == e
    {
    }

    /**
     * The clearing in input_loop (lines 46-56): two 16-byte zero stores per row for the
     * release, press and repeat rows, and their counts set to 0.
     */
    method ClearEvents()
      requires Valid()
      modifies keyEvents, numEvents
      ensures Valid() && Snapshot() == Cleared(old(Snapshot()))
    {
      ghost var e := Snapshot();
      ghost var down := numEvents[KEY_DOWN];
      ClearRow(KEY_RELEASE);
      ClearRow(KEY_PRESS);
      ClearRow(KEY_REPEAT);
      numEvents[KEY_RELEASE] := 0;
      numEvents[KEY_PRESS] := 0;
      numEvents[KEY_REPEAT] := 0;
      assert numEvents[..] == [0, 0, 0, down];
      ClearedMeaning(e);
      ClearedRows(e);
      SnapshotIs(Cleared(e));
    }

    /** Zero release, press and repeat rows and an untouched down row are the cleared rows. */
    lemma ClearedRows(e: Events)
      requires Shaped() && InputEvents.Valid(e)
      requires forall r, j :: 0 <= r < KEY_DOWN && 0 <= j < LANES ==> keyEvents[r, j] == 0
      requires forall j :: 0 <= j < LANES ==> keyEvents[KEY_DOWN, j] == e.rows[KEY_DOWN][j]
      ensures forall r :: 0 <= r < NUM_KEY_STATES ==> Row(r) == Cleared(e).rows[r]
    {
      ClearedMeaning(e);
    }

    /** The two 16-byte zero stores of one row: row r becomes all zeros and no other row changes. */
    method ClearRow(r: nat)
      requires Shaped() && r < NUM_KEY_STATES
      modifies keyEvents
      ensures forall s, j :: 0 <= s < NUM_KEY_STATES && 0 <= j < LANES ==>
                keyEvents[s, j] == if s == r then 0 else old(keyEvents[s, j])
    {
      StoreZero(r, 0);
      StoreZero(r, 4);
    }

    /** _mm_store_si128 of zero at &key_events[r][from]: four slots become 0. */
    method StoreZero(r: nat, from: nat)
      requires Shaped() && r < NUM_KEY_STATES && from + 4 <= LANES
      modifies keyEvents
      ensures forall s, j :: 0 <= s < NUM_KEY_STATES && 0 <= j < LANES ==>
                keyEvents[s, j] == if s == r && from <= j < from + 4 then 0 else old(keyEvents[s, j])
    {
      keyEvents[r, from] := 0;
      keyEvents[r, from + 1] := 0;
      keyEvents[r, from + 2] := 0;
      keyEvents[r, from + 3] := 0;
    }

    /**
     * input_task (lines 105-167) after the handshake with input_loop: unless a quit was
     * requested, the pressed keys join the down row, the released ones leave it, every row
     * is packed into key_states, and Escape being pressed asks for shutdown. INPUT1 is
     * reported on every path.
     */
    method InputTaskRun(quitRequest: bool) returns (reached: bv64, shutdown: bool)
      requires Valid()
      modifies keyEvents, numEvents, keyStates
      ensures reached == SCP_INPUT1
      ensures Valid()
      ensures quitRequest ==> Snapshot() == old(Snapshot()) && States() == old(States()) && !shutdown
      ensures !quitRequest ==> && Snapshot() == RemoveReleased(AddPressed(old(Snapshot())))
                               && States() == Pack(Snapshot())
                               && (shutdown <==> KeyPressed(States(), KEY_ESCAPE) != 0)
    {
      if quitRequest {
        return SCP_INPUT1, false;
      }
      AddPressedLoop();
      RemoveReleasedLoop();
      PackLoop();
      shutdown := KeyPressed(States(), KEY_ESCAPE) != 0;
      reached := SCP_INPUT1;
    }

    /** Lines 128-133: each of the first num_events[KEY_PRESS] pressed keys is added as down. */
    method AddPressedLoop()
      requires Valid()
      modifies keyEvents, numEvents
      ensures Valid() && Snapshot() == AddPressed(old(Snapshot()))
    {
      ghost var e := Snapshot();
      var i := 0;
      while i < numEvents[KEY_PRESS]
        invariant PressedAdded(e, i)
      {
        AppendKeysNext(e.rows[KEY_DOWN], e.counts[KEY_DOWN], e.rows[KEY_PRESS], i);
        assert keyEvents[KEY_PRESS, i] == Row(KEY_PRESS)[i] == e.rows[KEY_PRESS][i];
        PushDown(keyEvents[KEY_PRESS, i]);
        i := i + 1;
      }
      SnapshotIs(AddPressed(e));
    }

    /** The loop of lines 129-133 has added the first i pressed keys and touched nothing else. */
    ghost predicate PressedAdded(e: Events, i: nat)
      reads this, keyEvents, numEvents
    {
      && Shaped() && InputEvents.Valid(e)
      && i <= numEvents[KEY_PRESS] == e.counts[KEY_PRESS]
      && (Row(KEY_DOWN), numEvents[KEY_DOWN]) == AppendKeys(e.rows[KEY_DOWN], e.counts[KEY_DOWN], e.rows[KEY_PRESS][..i])
      && forall r :: 0 <= r < NUM_KEY_STATES && r != KEY_DOWN ==> Row(r) == e.rows[r] && numEvents[r] == e.counts[r]
    }

    /** One pass of lines 131-132: the key goes into the down row at the down count, which moves on. */
    method PushDown(key: int)
      requires Shaped() && numEvents[KEY_DOWN] < LANES
      modifies keyEvents, numEvents
      ensures Row(KEY_DOWN) == old(Row(KEY_DOWN))[old(numEvents[KEY_DOWN]) := key]
      ensures numEvents[KEY_DOWN] == NextCount(old(numEvents[KEY_DOWN]), 8)
      ensures forall r :: 0 <= r < NUM_KEY_STATES && r != KEY_DOWN ==> Row(r) == old(Row(r)) && numEvents[r] == old(numEvents[r])
    {
      var n := numEvents[KEY_DOWN];
      keyEvents[KEY_DOWN, n] := key;
      numEvents[KEY_DOWN] := NextCount(n, MaxEvents(KEY_DOWN));
    }

    /** Lines 136-149: each of the first num_events[KEY_RELEASE] released keys is removed as down. */
    method RemoveReleasedLoop()
      requires Valid()
      modifies keyEvents, numEvents
      ensures Valid() && Snapshot() == RemoveReleased(old(Snapshot()))
    {
      ghost var e := Snapshot();
      var i := 0;
      while i < numEvents[KEY_RELEASE]
        invariant ReleasedRemoved(e, i)
      {
        RemoveKeysNext(e.rows[KEY_DOWN], e.counts[KEY_DOWN], e.rows[KEY_RELEASE], i);
        assert keyEvents[KEY_RELEASE, i] == Row(KEY_RELEASE)[i] == e.rows[KEY_RELEASE][i];
        RemoveOne(keyEvents[KEY_RELEASE, i]);
        i := i + 1;
      }
      SnapshotIs(RemoveReleased(e));
    }

    /** The loop of lines 137-149 has taken the first i released keys and touched nothing else. */
    ghost predicate ReleasedRemoved(e: Events, i: nat)
      reads this, keyEvents, numEvents
    {
      && Shaped() && InputEvents.Valid(e)
      && i <= numEvents[KEY_RELEASE] == e.counts[KEY_RELEASE]
      && (Row(KEY_DOWN), numEvents[KEY_DOWN]) == RemoveKeys(e.rows[KEY_DOWN], e.counts[KEY_DOWN], e.rows[KEY_RELEASE][..i])
      && forall r :: 0 <= r < NUM_KEY_STATES && r != KEY_DOWN ==> Row(r) == e.rows[r] && numEvents[r] == e.counts[r]
    }

    /**
     * The inner loop of lines 139-148 for one released key: search the down keys, and at the
     * first equal one move the last down key into its slot, zero the last slot and count down.
     */
    method RemoveOne(key: int)
      requires Shaped() && numEvents[KEY_DOWN] <= LANES
      modifies keyEvents, numEvents
      ensures (Row(KEY_DOWN), numEvents[KEY_DOWN]) == RemoveKey(old(Row(KEY_DOWN)), old(numEvents[KEY_DOWN]), key)
      ensures forall r :: 0 <= r < NUM_KEY_STATES && r != KEY_DOWN ==> Row(r) == old(Row(r)) && numEvents[r] == old(numEvents[r])
    {
      ghost var down := Row(KEY_DOWN);
      var n := numEvents[KEY_DOWN];
      var j := 0;
      while j < n
        invariant 0 <= j <= n && FirstMatch(down, n, key, j) == FirstMatch(down, n, key, 0)
        invariant Row(KEY_DOWN) == down
      {
        if keyEvents[KEY_DOWN, j] == key {
          keyEvents[KEY_DOWN, j] := keyEvents[KEY_DOWN, n - 1];
          keyEvents[KEY_DOWN, n - 1] := 0;
          numEvents[KEY_DOWN] := n - 1;
          assert Row(KEY_DOWN) == down[j := down[n - 1]][n - 1 := 0];
          return;
        }
        j := j + 1;
      }
    }

    /** Lines 152-161: every row of key_events is packed into its row of key_states. */
    method PackLoop()
      requires Valid()
      modifies keyStates
      ensures States() == Pack(Snapshot())
    {
      var r := 0;
      while r < NUM_KEY_STATES
        invariant 0 <= r <= NUM_KEY_STATES
        invariant forall s, j :: 0 <= s < r && 0 <= j < LANES ==> keyStates[s, j] == PackRow(Row(s))[j]
      {
        var lanes := PackRow(Row(r));
        StoreLanes(r, lanes);
        r := r + 1;
      }
      forall s | 0 <= s < NUM_KEY_STATES
        ensures States()[s] == Pack(Snapshot())[s]
      {
        assert Pack(Snapshot())[s] == PackRow(Row(s));
      }
    }

    /** _mm_store_si128 at &key_states[r][0]: the row becomes `lanes`, other rows stay. */
    method StoreLanes(r: nat, lanes: seq<int>)
      requires Shaped() && r < NUM_KEY_STATES && |lanes| == LANES
      modifies keyStates
      ensures forall s, j :: 0 <= s < NUM_KEY_STATES && 0 <= j < LANES ==>
                keyStates[s, j] == if s == r then lanes[j] else old(keyStates[s, j])
    {
      keyStates[r, 0] := lanes[0];
      keyStates[r, 1] := lanes[1];
      keyStates[r, 2] := lanes[2];
      keyStates[r, 3] := lanes[3];
      keyStates[r, 4] := lanes[4];
      keyStates[r, 5] := lanes[5];
      keyStates[r, 6] := lanes[6];
      keyStates[r, 7] := lanes[7];
    }

    /**
     * submit_tasks (lines 80-103): the argument allocator starts over, slot 1 holds the
     * re-submission and slot 2 the input task, and the stack word is published with count 2.
     */
    method SubmitTasks(sched: Scheduler) returns (reached: bv64)
      requires sched.Shaped() && sched.stackSizes != sched.iterations && systemId < Priority.NUM_STACKS
      requires taskArgs.pool.Valid() && 0 <= taskArgs.segment < NUM_SEGMENTS && taskArgs.block < 64
      modifies sched.stacks, sched.stackSizes, taskArgs`position
      ensures Filled(sched, systemId, 1, [SUBMIT_ENTRY, INPUT_ENTRY])
      ensures forall s, i :: 0 <= s < Priority.NUM_STACKS && 0 <= i < STACK_SIZE && (s != systemId || i == 0 || 2 < i)
                             ==> sched.stacks[s, i] == old(sched.stacks[s, i])
      ensures sched.stackSizes[..] == old(sched.stackSizes[..])[systemId := Publish(sched.iterations[systemId], 2)]
      ensures reached == SCP_NONE
    {
      taskArgs.Clear();
      WriteStack(sched, systemId, taskArgs, [SUBMIT_ENTRY, INPUT_ENTRY]);
      reached := SCP_NONE;
    }
  }
}
