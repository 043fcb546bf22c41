# gemini task scheduler, block allocator and systems — a Dafny model

This project models the core of the gemini engine. The engine runs every system of a frame as tasks, on a fixed pool of worker threads. Each system owns a task stack. A worker picks a stack under a packed priority word (main stack plus a 32-bit mask of allowed stacks). It pops the top task when that task's checkpoints are reached. It runs the task and XORs the checkpoints the task reports into one of two frame words. The worker that empties a stack bumps the stack's iteration and recomputes the priority word.

The model covers:

- **Scheduler** (`src/managers/TaskScheduling.cpp`), in modules `Priority`, `Checkpoints`, `Tasks` and `Scheduler`: `init_scheduler`, the stack search, the readiness test, the pop, the iteration bump, the priority recomputation, the execution counter and the checkpoint report. The scheduler state is a class over arrays.
- **Profiling log** (module `Profiling`): the per-thread ring of 256 items and `prof_sched_start`, `prof_sched_end_exec_start`, `prof_exec_end` and `write_profiling`.
- **Block pool and bump allocator** (`src/managers/Memory.cpp`, module `Memory`): `init_memory`, `LinearAllocator32kb::Init`, `Allocate`, `Clear`, the destructor and the placement `operator new`.
- **Input system** (`src/systems/input/Input.cpp`, modules `InputEvents` and `InputSystem`): the key callback, the clearing before each poll, the merge of pressed and released keys into the down row, and the packing of `key_events` into 16-bit `key_states`.
- **Key queries** (`src/data/Input.h`, module `KeyStates`): `key_pressed`, `key_released`, `key_repeating` and `key_down`.
- **Task-stack builders** of the animation system, the current rendering system and the earlier rendering system (modules `AnimationSystem`, `RenderingSystem` and `LegacyRenderingSystem`). Modules `Submit` and `Latch` hold what these share: writing a stack slot by slot, publishing the stack word, and the countdown latch of a task group.
- **Vulkan selection rules** (`src/systems/rendering/Vulkan.cpp`, module `Vulkan`): surface format, present mode, extent, image count, queue families, image sharing, memory type, extension check and the overlay index buffer.
- **Trace converter** `debug/process_debug.py` (module `ProcessDebug`). Module `DumpRoundTrip` proves that it reads back, record by record, what `write_profiling` writes.

How the model works:

- Bit-level code is modelled on `bv32`/`bv64`, with the source's own shifts, masks and wrap-around. SSE code is modelled by its scalar meaning, lane by lane.
- Code that changes state in place is a class with arrays and `modifies` clauses. Its methods are proved against specification functions. Pure rules are functions with lemmas.

## Model

| member | source | states |
|---|---|---|
| AnimationSystem.DependencyChain | src/systems/animation/Animation.cpp:24-112 | The dependency chain: every task of group 2 or 3 requires, in the current frame, the checkpoint the group before it reports, and the re-submission requires the one group 3 reports; group 1 and the independent tasks wait for nothing. |
| AnimationSystem.GroupsOfTen | src/systems/animation/Animation.cpp:24-112 | Slot k carries group g's counter exactly when it is one of the ten slots from GroupStart(g), and those slots all run task_group<g>: with the counter armed with 9, OneReportPerGroup(9) makes exactly one of them report the group's checkpoint. |
| AnimationSystem.SystemState.constructor | src/systems/animation/Animation.cpp:10-22 | The system's statics start with an allocator that has not claimed a block and three group counters. |
| AnimationSystem.SystemState.SubmitTasks | src/systems/animation/Animation.cpp:24-112 | submit_tasks: the argument allocator starts over, each group counter is armed with 9 before its block, the stack from slot 1 becomes Layout, and the stack word is published with count 39. Slot 0 and every other stack are left alone. |
| AnimationSystem.IndependentTaskRun | src/systems/animation/Animation.cpp:114-119 | independent_task: the simulated work reports no checkpoint. |
| AnimationSystem.TaskGroupRun | src/systems/animation/Animation.cpp:121-161 | task_group1/2/3: count the group's latch down; the task that saw 0 reports the group's checkpoint, every other task none. |
| Bits.Bsf32 | Platform.h:15-23 | The result is a set bit of the non-zero word and no lower bit is set. |
| Bits.Bsr32 | Platform.h:25-33 | The result is a set bit of the non-zero word and no higher bit is set. |
| Bits.RotRBit32 | src/managers/TaskScheduling.cpp:171 | Bit b of m rotated right by r is bit (b + r) mod 32 of m. |
| Bits.Bsf64 | src/managers/Memory.cpp:42 | The result is a set bit of the non-zero 64-bit mask and no lower bit is set. |
| Bits.SetClearedBit64 | src/managers/Memory.cpp:49-58 | Setting a bit that was just cleared gives back the original word. |
| Checkpoints.CountIndex | src/managers/TaskScheduling.cpp:104 | The count field ss & 0x7F lies below 128 and is 0 exactly when the stack is empty. |
| Checkpoints.ReachedAsWritten | src/managers/TaskScheduling.cpp:110-111 | Lines 110-111 decode with word ^ (((frame >> 1) & 1) - 1): the same reading as Reached. |
| Checkpoints.SubtractSubset | src/managers/TaskScheduling.cpp:110-111 | Lines 110-111 compute the missing checkpoints as required - (reached & required): taking away a subset of its bits borrows nothing, so the difference is Missing. |
| Checkpoints.SubsetDifference | src/managers/TaskScheduling.cpp:110-111 | Taking away a subset of a word's bits clears them and borrows nothing. |
| Checkpoints.BlockParts | src/managers/TaskScheduling.cpp:110-112 | The blocking word is non-zero exactly when one of its three parts is. |
| Checkpoints.BlockWord | src/managers/TaskScheduling.cpp:106-114 | The blocking word of lines 110-112 is non-zero exactly when a required current-frame checkpoint is unreached, a required previous-frame checkpoint is unreached, or the stack count is 0. |
| Checkpoints.InitialReadings | src/managers/TaskScheduling.cpp:75-76 | With both words all ones, frame 0 reads nothing reached and frame -1 reads everything reached. |
| Checkpoints.FirstFrameReadiness | src/managers/TaskScheduling.cpp:106-112 | In frame 0, right after init_scheduler, the previous-frame requirements are all met and a task waits exactly for its current-frame requirements (and a non-empty stack). |
| Checkpoints.ReportToggles | src/managers/TaskScheduling.cpp:198-201 | XOR-ing reported checkpoints into a word toggles exactly those bits of what the frame reads. |
| Checkpoints.ReportAdds | src/managers/TaskScheduling.cpp:198-201 | Reporting checkpoints not yet reached adds them to the frame's reached set and removes none. |
| Checkpoints.WordReuse | src/managers/TaskScheduling.cpp:106-111 | Frame f + 2 uses the same word as frame f and reads it inverted: a word whose every checkpoint was reached in frame f reads nothing reached in frame f + 2. |
| Checkpoints.NeverReachedQuirk | src/managers/TaskScheduling.h:45 | A checkpoint nobody reports keeps its initial bit, and so reads as reached in every frame whose bit 1 is set: SCP_NEVER is "reached" in frames 2, 3, 6, 7, ... |
| DumpRoundTrip.HeaderIsThread | debug/process_debug.py:19-21 | A thread header is taken as a lane header. |
| DumpRoundTrip.DashesSkipped | debug/process_debug.py:22-23 | The dashed line between items is skipped. |
| DumpRoundTrip.JoinedNoDoubleDash | src/managers/TaskScheduling.cpp:261-268 | The fields are joined with " \| ", so no two dashes meet at a seam. |
| DumpRoundTrip.SplitJoined | debug/process_debug.py:25 | Splitting joined fields at '\|' and stripping every piece gives the fields back, whatever whitespace comes before the first field and after the last. |
| DumpRoundTrip.SplitIntoPieces | debug/process_debug.py:25 | Joined fields split at '\|' into their padded pieces. |
| DumpRoundTrip.PiecesStrip | debug/process_debug.py:25 | Stripping each padded piece gives its field. |
| DumpRoundTrip.FieldsBare | src/managers/TaskScheduling.cpp:261-268 | Every printed field is a bare, dash-pair-free token starting with a number character. |
| DumpRoundTrip.FieldsRead | debug/process_debug.py:25-26 | float() reads the five integer fields back exactly when each is below 10^15, and the times as their readings. |
| DumpRoundTrip.ItemLineShape | debug/process_debug.py:19-25 | An item line is neither a header nor a separator, and splits into its eight fields. |
| DumpRoundTrip.ItemIsData | debug/process_debug.py:24-26 | An item line whose integer fields are below 10^15 is read as the item's record. |
| DumpRoundTrip.ItemValues | debug/process_debug.py:25 | The eight pieces of an item line whose integer fields are below 10^15 parse as the eight numbers of its record. |
| DumpRoundTrip.KindsAppend | debug/process_debug.py:18 | The converter classifies each line on its own. |
| DumpRoundTrip.KindsOfItems | debug/process_debug.py:18-36 | The lines of a run of items whose integer fields are below 10^15 are read as data line, separator, data line, separator, ... |
| DumpRoundTrip.KindsOfDump | debug/process_debug.py:18-36 | The lines of a dump whose integer fields are below 10^15 are read as one header per thread followed by its items. |
| DumpRoundTrip.ItemKindsRead | debug/process_debug.py:18-36 | The items of one thread contribute no header, no malformed line and their records in order. |
| DumpRoundTrip.DumpKindsRead | debug/process_debug.py:18-36 | A dump contributes one header per thread, no malformed line, and all records thread by thread. |
| DumpRoundTrip.DumpReadBack | debug/process_debug.py:18-36 | Reading back what write_profiling wrote: the converter's loop runs to the end, opens one lane per thread and reads every item, thread after thread, as the record holding its values, when every integer field of the log is below 10^15. |
| InputSystem.SystemState.constructor | src/systems/input/Input.cpp:16-29 | The input statics start zero-initialised: every key_events slot, every count and every key_states lane is 0. |
| InputSystem.SystemState.KeyCallback | src/systems/input/Input.cpp:74-78 | key_callback: GLFW passes one of the three actions; the key goes into that row at its count and the count moves on. |
| InputSystem.SystemState.ClearEvents | src/systems/input/Input.cpp:46-56 | The clearing in input_loop: two 16-byte zero stores per row for the release, press and repeat rows, and their counts set to 0. |
| InputSystem.SystemState.ClearRow | src/systems/input/Input.cpp:48-53 | The two 16-byte zero stores of one row: row r becomes all zeros and no other row changes. |
| InputSystem.SystemState.StoreZero | src/systems/input/Input.cpp:48-53 | _mm_store_si128 of zero at &key_events[r][from]: four slots become 0. |
| InputSystem.SystemState.InputTaskRun | src/systems/input/Input.cpp:105-167 | input_task after the handshake with input_loop: unless a quit was requested, the pressed keys join the down row, the released ones leave it, every row is packed into key_states, and Escape being pressed asks for shutdown. INPUT1 is reported on every path. |
| InputSystem.SystemState.AddPressedLoop | src/systems/input/Input.cpp:128-133 | Each of the first num_events[KEY_PRESS] pressed keys is added as down. |
| InputSystem.SystemState.PushDown | src/systems/input/Input.cpp:131-132 | One pass of lines 131-132: the key goes into the down row at the down count, which moves on. |
| InputSystem.SystemState.RemoveReleasedLoop | src/systems/input/Input.cpp:136-149 | Each of the first num_events[KEY_RELEASE] released keys is removed as down. |
| InputSystem.SystemState.RemoveOne | src/systems/input/Input.cpp:139-148 | The inner loop of lines 139-148 for one released key: search the down keys, and at the first equal one move the last down key into its slot, zero the last slot and count down. |
| InputSystem.SystemState.PackLoop | src/systems/input/Input.cpp:152-161 | Every row of key_events is packed into its row of key_states. |
| InputSystem.SystemState.StoreLanes | src/systems/input/Input.cpp:160 | _mm_store_si128 at &key_states[r][0]: the row becomes `lanes`, other rows stay. |
| InputSystem.SystemState.SubmitTasks | src/systems/input/Input.cpp:80-103 | submit_tasks: the argument allocator starts over, slot 1 holds the re-submission and slot 2 the input task, and the stack word is published with count 2. |
| InputEvents.MaxEvents | src/systems/input/Input.cpp:22 | The maximum of every row is a power of two, 8 for the release, press and down rows and 1 for the repeat row. |
| InputEvents.NextCount | src/systems/input/Input.cpp:77 | The next count stays below the row's maximum and is the old count plus one modulo that maximum. |
| InputEvents.CallbackRecords | src/systems/input/Input.cpp:74-78 | A callback keeps the buffers valid, stores the key at the old count, moves that count on modulo the row size, and changes no other slot or count. |
| InputEvents.RepeatKeepsLatest | src/systems/input/Input.cpp:74-78 | The repeat row's count stays 0, so its slot 0 holds the latest repeated key. |
| InputEvents.ClearedMeaning | src/systems/input/Input.cpp:46-56 | Clearing empties the release, press and repeat rows and their counts and leaves the down row and its count as they were. |
| InputEvents.AppendKeysValues | src/systems/input/Input.cpp:128-133 | Every slot of the down row afterwards is as it was or holds one of the keys. |
| InputEvents.AppendRing | src/systems/input/Input.cpp:129-133 | The down row as a ring of eight: the count ends at n + \|keys\| modulo 8, and each of the last eight keys sits at its position n + i modulo 8. |
| InputEvents.AppendNoWrap | src/systems/input/Input.cpp:129-133 | Without a wrap the keys land after the first n slots, in order, and the rest stays. |
| InputEvents.AddPressed | src/systems/input/Input.cpp:128-133 | input_task's first step: the pressed keys of the frame join the down row. |
| InputEvents.AddPressedNoWrap | src/systems/input/Input.cpp:128-133 | Without a wrap the down keys gain exactly the pressed keys of the frame. |
| InputEvents.FirstMatch | src/systems/input/Input.cpp:139-141 | The result lies between `from` and n; below n its slot holds the key, and no slot from `from` before it does. |
| InputEvents.RemoveKeyMeaning | src/systems/input/Input.cpp:139-148 | Removing a released key takes exactly one copy of it out of the down keys when there is one and changes nothing otherwise; the freed slot is zeroed and the slots past the count stay as they were. |
| InputEvents.RemoveKeyCount | src/systems/input/Input.cpp:139-148 | One removal takes one copy of the key out of the down keys' multiset, if there is one. |
| InputEvents.RemoveAbsent | src/systems/input/Input.cpp:139-148 | No match: the key is not among the down keys, and nothing changes. |
| InputEvents.RemovePresent | src/systems/input/Input.cpp:141-146 | A match at j: the last down key moves into slot j, and one copy of the key is gone. |
| InputEvents.RemoveKeysValues | src/systems/input/Input.cpp:136-149 | Removing keys only moves down keys around and zeroes slots: no new value appears. |
| InputEvents.RemoveKeysMultiset | src/systems/input/Input.cpp:136-149 | Each released key takes one copy of itself out of the down keys while there is one, so the down keys end as the multiset difference of the down keys and the released ones. |
| InputEvents.RemoveReleased | src/systems/input/Input.cpp:136-149 | input_task's second step: the released keys of the frame leave the down row. |
| InputEvents.DownAfterFrame | src/systems/input/Input.cpp:127-149 | Over one frame without a wrap, the down keys are those down before plus those pressed, less those released, one copy per release. |
| InputEvents.PackOrder | src/systems/input/Input.cpp:154-160 | Packing keeps the low 16 bits of every slot: lane i holds slot LANE_ORDER[i], and since that order is its own inverse, slot j lands in lane LANE_ORDER[j]; slot 0 stays in lane 0. |
| InputEvents.ShuffleRotates | src/systems/input/Input.cpp:158 | _MM_SHUFFLE(2, 1, 0, 3) moves the top dword to the bottom and the others up by one. |
| InputEvents.BlendPairs | src/systems/input/Input.cpp:159 | The blend mask 0b00110011 takes words 0, 1, 4 and 5 from the second operand. |
| InputEvents.Pack | src/systems/input/Input.cpp:152-161 | The whole packing loop: every row packed. |
| InputEvents.PackedRowQuery | src/data/Input.h:45-52 | The lane test on a packed row asks whether some slot, cut to 16 bits, is the key cut to 16 bits. |
| InputEvents.PackedQueries | src/systems/input/Input.cpp:151-161 | After packing, key_pressed, key_released and key_down answer whether some slot of their row, cut to 16 bits, is the key cut to 16 bits; key_repeating sees the low half of the repeat row's slot 0. |
| KeyStates.MovemaskBits | src/data/Input.h:27 | Each bit of the mask is the top bit of its byte, and there are no bits above them. |
| KeyStates.MovemaskZero | src/data/Input.h:27 | The mask is zero exactly when no byte has its top bit set. |
| KeyStates.MovemaskBound | src/data/Input.h:27 | The mask fits in as many bits as there are bytes. |
| KeyStates.CompareBytes | src/data/Input.h:23-25 | _mm_cmpeq_epi16(s, _mm_set1_epi16(key)) seen byte by byte: both bytes of lane i are 0xFF when the lane equals the key cut to 16 bits, 0 otherwise. |
| KeyStates.LaneMaskNonZero | src/data/Input.h:23-27 | The answer is non-zero exactly when some lane holds the key cut to 16 bits. |
| KeyStates.LaneMaskMeaning | src/data/Input.h:23-27 | The answer is non-zero exactly when some lane holds the key cut to 16 bits, bits 2i and 2i + 1 are set exactly when lane i does, and no bit above 15 is set. |
| KeyStates.KeyPressed | src/data/Input.h:21-28 | key_pressed is non-zero exactly when some lane of the press row equals the key cut to 16 bits. |
| KeyStates.KeyReleased | src/data/Input.h:30-37 | key_released is non-zero exactly when some lane of the release row equals the key cut to 16 bits. |
| KeyStates.KeyDown | src/data/Input.h:45-52 | key_down is non-zero exactly when some lane of the down row equals the key cut to 16 bits. |
| KeyStates.KeyCutToWord | src/data/Input.h:24 | The three tests answer the same for keys that agree in their low 16 bits. |
| KeyStates.KeyRepeating | src/data/Input.h:39-43 | key_repeating is 1 exactly when lane 0 of the repeat row equals the whole 32-bit key, 0 otherwise; a key of 16 bits or more never matches. |
| Latch.Counter.Store | src/systems/animation/Animation.cpp:37 | counter.store(v): the submitting task arms the latch. |
| Latch.Counter.FetchSub | src/systems/animation/Animation.cpp:127 | counter.fetch_sub(1): the value before, the counter one less (uint32 wrap-around). |
| Latch.Arrive | src/systems/animation/Animation.cpp:121-133 | One task of a group: it counts the latch down and reports `checkpoint` when it saw 0, SCP_NONE (0) otherwise. |
| Latch.SeenNext | src/systems/animation/Animation.cpp:127 | Successive arrivals see successive decrements of the counter. |
| Latch.NoEarlyReport | src/systems/animation/Animation.cpp:127-131 | No task before the (start + 1)-th reports. |
| Latch.OneReportPerGroup | src/systems/animation/Animation.cpp:121-161 | A group of start + 1 tasks over a counter armed with start reports its checkpoint exactly once, from its last task: with 9, one of ten (with N - 1, one of N). |
| LegacyRenderingSystem.DependencyChain | src/systems/Rendering.cpp:32-134 | The dependency chain: group 1 waits for the input system, each later group for the checkpoint of the group before it, and the re-submission for the one group 3 reports; the independent tasks wait for nothing. |
| LegacyRenderingSystem.GroupsOfTen | src/systems/Rendering.cpp:32-134 | Slot k carries group g's counter exactly when it is one of the ten slots from GroupStart(g), and those slots all run task_group<g>. |
| LegacyRenderingSystem.IndependentBlocks | src/systems/Rendering.cpp:32-134 | The independent tasks sit in the three blocks of four after the groups, and carry 42, 41, 40, 39 in the first block and 42, 43, 44, 45 in the other two. |
| LegacyRenderingSystem.SystemState.constructor | src/systems/Rendering.cpp:13-30 | The system's statics start with an allocator that has not claimed a block and three group counters. |
| LegacyRenderingSystem.SystemState.SubmitTasks | src/systems/Rendering.cpp:32-134 | submit_tasks: the argument allocator starts over, each group counter is armed with 9, the stack from slot 1 becomes Layout, and the stack word is published with count 43. Slot 0 and every other stack are left alone. |
| LegacyRenderingSystem.IndependentTaskRun | src/systems/Rendering.cpp:136-141 | independent_task: the simulated work reports no checkpoint. |
| LegacyRenderingSystem.TaskGroupRun | src/systems/Rendering.cpp:143-183 | task_group1/2/3: count the group's latch down; the task that saw 0 reports RENDERING<g>, every other task none. |
| Memory.BlocksDisjoint | src/managers/Memory.cpp:51 | Distinct blocks own disjoint 32 KiB ranges inside the pool. |
| Memory.Pool.constructor | src/managers/Memory.cpp:19-27 | init_memory: `base` is what malloc returned (non-null, aligned to 16 bytes); every block is marked free. |
| Memory.FirstFreeSegment | src/managers/Memory.cpp:36-49 | The first segment from `from` whose mask is non-zero, every earlier one being zero; None exactly when every mask from there is zero. |
| Memory.SearchGuardAdmitsNinthMask | src/managers/Memory.cpp:44-47 | With every block taken the search reaches segment 8, which the guard admits. |
| Memory.RoundUp | src/managers/Memory.cpp:71 | The aligned position is the first multiple of the power-of-two alignment a at or after p: a multiple of a, at or after p and less than a past it. That value is unique, so it is what (p + a - 1) & ~(a - 1) computes; the model writes it as x - x % a with x = p + a - 1, and no lemma states the bitwise form itself. |
| Memory.RoundUpAligned | src/managers/Memory.cpp:71 | A position already aligned stays put. |
| Memory.LinearAllocator32kb.Init | src/managers/Memory.cpp:34-54 | Init: claim the lowest free block of the first segment that has one, clearing only that bit, and start at its base. The search stays within the eight masks only because some block is free. |
| Memory.LinearAllocator32kb.FindSegment | src/managers/Memory.cpp:36-49 | The first segment whose mask is not zero; some block is free, so there is one. |
| Memory.LinearAllocator32kb.Take | src/managers/Memory.cpp:51-53 | The allocator records the claimed segment and block and starts at its base. |
| Memory.LinearAllocator32kb.Release | src/managers/Memory.cpp:56-60 | ~LinearAllocator32kb: the block's bit is set again and the position becomes null. |
| Memory.LinearAllocator32kb.Clear | src/managers/Memory.cpp:62-65 | Clear: back to the start of the block; clearing twice is clearing once. |
| Memory.LinearAllocator32kb.Allocate | src/managers/Memory.cpp:67-75 | Allocate: the position rounded up to the alignment, after which the position moves past the `size` bytes handed out. The assert of line 70 is the precondition; under it the piece stays inside the block. |
| Memory.FirstFreeSkips | src/managers/Memory.cpp:39-49 | Skipping empty masks does not change the first free segment. |
| Memory.ClaimReleaseRestores | src/managers/Memory.cpp:49-58 | Claiming a block (Init) and releasing it again (the destructor) gives back the pool's masks exactly as they were: the claimed bit was set, so setting it again restores it. |
| Memory.NarrowIndex | src/managers/Memory.cpp:53 | A bit index of a 64-bit word survives the trip through the uint32 m_block. |
| Memory.New | src/managers/Memory.cpp:9-12 | Returns the position rounded up to the alignment, and moves the position past the size * count bytes handed out. |
| Memory.AllocationsDisjoint | src/managers/Memory.cpp:67-75 | Successive allocations return increasing, non-overlapping ranges: the second starts at or after the end of the first. |
| Priority.PackRoundTrip | src/managers/TaskScheduling.cpp:181 | Packing keeps both halves: a worker reads back exactly the main stack and mask stored. |
| Priority.InitialWordWellFormed | src/managers/TaskScheduling.cpp:74 | The word init_scheduler stores: main stack 0, stacks 0 .. 4 allowed. |
| Priority.AllowedStackIsActive | src/managers/TaskScheduling.cpp:177-178 | In a well-formed word, every allowed bit stands for an active stack. |
| Priority.Signed | src/managers/TaskScheduling.cpp:146-163 | The result is the int32 value, in [-2^31, 2^31), that agrees with the uint32 lane modulo 2^32. |
| Priority.MinUpTo | src/managers/TaskScheduling.cpp:141-158 | The result is at most the adjusted iteration of every stack 0 .. n-1 and equals one of them. |
| Priority.EqMaskUpToBit | src/managers/TaskScheduling.cpp:160-170 | Bit b of the equality mask is set exactly when stack b attains the minimum. |
| Priority.RelativeEqMaskNonZero | src/managers/TaskScheduling.cpp:171 | Some stack attains the minimum, so the relative equality mask is never zero. |
| Priority.MainStep | src/managers/TaskScheduling.cpp:172 | K = asm_bsf32(m) of line 172 is the lowest set bit of the equality mask rotated to the old main stack. |
| Priority.NewMainStackIsMin | src/managers/TaskScheduling.cpp:172-174 | The new main stack attains the minimum, and lies MainStep stacks after the old one. |
| Priority.NoMinBefore | src/managers/TaskScheduling.cpp:171-174 | No stack met before the new main stack, counting cyclically from the old one, attains the minimum. |
| Priority.NewMainStackIsFirstMin | src/managers/TaskScheduling.cpp:171-174 | The new main stack is the first stack attaining the minimum adjusted iteration when counting cyclically from the old main stack. |
| Priority.TopBitsAsWritten | src/managers/TaskScheduling.cpp:176 | Line 176 writes the mask as ~((uint32_t) ((uint64_t) 1 << (32 - d)) - 1), shifting on 64 bits so that d == 0 (a shift by 32) truncates to 0 and yields no bits: the same word. |
| Priority.RotatedEqMaskBit | src/managers/TaskScheduling.cpp:175 | Bit b of the equality mask rotated by k is the equality bit of the stack b places after the new main stack. |
| Priority.TopBitsPassed | src/managers/TaskScheduling.cpp:176 | Bit b of the top bits says that the stack b places after the new main stack was passed on the way to it. |
| Priority.NewPriMaskBit | src/managers/TaskScheduling.cpp:175-178 | Bit b of the new mask is set exactly when the stack b places after the new main stack is Allowed. |
| Priority.ActiveBit | src/managers/TaskScheduling.cpp:177-178 | Bit b of the active mask rotated to main says whether the stack b places after main is active. |
| Priority.NewMainIsActive | src/managers/TaskScheduling.cpp:69-72 | With the idle stacks parked at 0x7FFFFFFF, the minimum is always attained by an active stack. |
| Priority.RecomputeWellFormed | src/managers/TaskScheduling.cpp:137-181 | Recomputing from a well-formed word gives a well-formed word, whose halves are the first minimal stack (NewMainStackIsFirstMin) and the mask of NewPriMaskBit. |
| Priority.RecomputeAllowsPassed | src/managers/TaskScheduling.cpp:175-178 | Every active stack passed on the way from the old main stack to the new one is allowed afterwards. |
| Priority.RecomputeAllowsOnly | src/managers/TaskScheduling.cpp:175-178 | A stack the new mask allows is Allowed: active, and minimal or passed. |
| Priority.FirstStep | src/managers/TaskScheduling.cpp:96 | The offset of the first stack a worker tries: that of its previous stack s when the mask allows it and the iteration packed in its stack word still equals the stack's iteration; otherwise 0, the main stack (the "\| 1"). |
| Priority.FirstStepSame | src/managers/TaskScheduling.cpp:96 | With bit 0 of m set, asm_bsr32(((1 << off) \| 1) & m) is off when bit off of m is set, and 0 otherwise. |
| Priority.FirstCandidate | src/managers/TaskScheduling.cpp:96-97 | The first candidate is the previous stack when it is allowed and current, else the main stack. |
| Priority.SetBitsFromMember | src/managers/TaskScheduling.cpp:122-124 | Exactly the set bits from i upwards are listed. |
| Priority.SetBitsFromSorted | src/managers/TaskScheduling.cpp:122-124 | The listed bits are all at least i and strictly increasing. |
| Priority.BsfClearStep | src/managers/TaskScheduling.cpp:122-124 | One step of the asm_bsf32 walk: the lowest set bit comes first, and clearing it leaves exactly the rest of the list. |
| Priority.SetBitsEmpty | src/managers/TaskScheduling.cpp:116 | The walk over m has something left exactly when m is not 0. |
| Priority.CandidateOffsetsInMask | src/managers/TaskScheduling.cpp:96-124 | Every offset tried is a set bit of m, and after the first none is the first again. |
| Priority.CandidateOffsetsCover | src/managers/TaskScheduling.cpp:96-124 | Every set bit of m is tried. |
| Priority.CandidateOffsetsSorted | src/managers/TaskScheduling.cpp:96-124 | After the first, offsets strictly increase. |
| Priority.StacksOfSetBits | src/managers/TaskScheduling.cpp:122-124 | One step of the bit-scan walk on the stacks: with bits left in m, the next stack is the one at the lowest set offset, followed by the walk over m without that bit; with no bits left, the walk is over. |
| Priority.CandidatesAllowed | src/managers/TaskScheduling.cpp:96-124 | Every candidate is an active stack the mask allows, and after the first none is the first again. |
| Priority.CandidatesCover | src/managers/TaskScheduling.cpp:96-124 | Every stack the mask allows is among the candidates. |
| Priority.CandidatesOrdered | src/managers/TaskScheduling.cpp:96-124 | After the first, candidates come in strictly increasing offset from the main stack. |
| ProcessDebug.ParseFloat | debug/process_debug.py:25 | float() of a string of one to 15 decimal digits is exactly its value: every such number is below 10^15 < 2^53, so it is a double. Longer digit strings, which float() may round, and every other spelling are left to `parse`. |
| ProcessDebug.Trunc | debug/process_debug.py:26 | int() of a float truncates toward zero: the result is within 1 of x and no further from 0 than x. |
| ProcessDebug.TruncWhole | debug/process_debug.py:26 | Truncating a whole number gives it back. |
| ProcessDebug.ParseFieldsMeaning | debug/process_debug.py:25 | The list comprehension succeeds exactly when every field parses, and holds their values. |
| ProcessDebug.MalformedMeaning | debug/process_debug.py:19-25 | A line is rejected exactly when it is neither a header nor a separator and does not hold eight numbers. |
| ProcessDebug.Labels | debug/process_debug.py:46-47 | Exactly the eight stack labels stack-0 .. stack-7, in order. |
| ProcessDebug.Statistics | debug/process_debug.py:42-44 | With n_tasks, total_exec and total_rdtscp_e non-zero, three elements: the time statistics, a line break and the rdtscp statistics. |
| ProcessDebug.Legend | debug/process_debug.py:38-51 | The last lane is closed and the legend written; its averages divide by n_tasks, total_exec and total_rdtscp_e, so a zero in any of them aborts the script. |
| ProcessDebug.LegendDiv | debug/process_debug.py:40-51 | The legend and closing tags open and close no lane. |
| ProcessDebug.ScanErrSticks | debug/process_debug.py:18-25 | Once the loop has failed on a prefix, the whole run fails with the same exception. |
| ProcessDebug.ScanOkIff | debug/process_debug.py:18-36 | The loop runs to the end exactly when no line is malformed. |
| ProcessDebug.ScanLanes | debug/process_debug.py:16-38 | Every lane that is opened is closed by the next header or by line 38: after the loop one more lane is open than closed, one per header plus the first; besides the head the output holds two boxes per scheduled record. |
| ProcessDebug.StepLanes | debug/process_debug.py:19-36 | One line of the dump: a header closes a lane and opens the next; a record adds its two boxes. |
| ProcessDebug.ScanTotals | debug/process_debug.py:29-34 | n_tasks and the four totals count and add up exactly the records read. |
| ProcessDebug.ScanOffset | debug/process_debug.py:27-28 | time_offset ends as the smallest sched start read, or its initial value when that is smaller. |
| ProcessDebug.ScanBoxesInLane | debug/process_debug.py:35 | No sched box starts left of the lane: its start is measured from an offset no later than it. |
| ProcessDebug.LegendLanes | debug/process_debug.py:38 | The legend closes the last lane and opens none. |
| ProcessDebug.LanesBalanced | debug/process_debug.py:16-51 | A converted dump has every lane div closed, and one lane per header plus the first. |
| ProcessDebug.ProcessDebug | debug/process_debug.py:1-54 | The loop-based converter returns exactly Convert of the lines: the HTML elements the script writes, or the exception it raises. |
| ProcessDebug.ReadLines | debug/process_debug.py:5-36 | The loop over the lines ends in Scan of the lines' kinds: the first exception, or the totals, offset and elements accumulated. |
| ProcessDebug.ReadLine | debug/process_debug.py:19-36 | One pass of the loop body is Step on the kind of that line: a lane switch, nothing, a record absorbed, or the exception. |
| ProcessDebug.AddRecord | debug/process_debug.py:27-36 | The state after one record is Absorb of it: the offset lowered to its sched start, the totals increased, and its two boxes written when it was scheduled. |
| ProcessDebug.WriteLegend | debug/process_debug.py:38-51 | The legend writer returns Legend(acc), which fails exactly when a divisor is zero. |
| Profiling.ThreadRowMissingAsWritten | src/managers/TaskScheduling.cpp:46-47 | A log built with the source's PROFILING_THREADS = 8 rows leaves some worker without a row whenever more than 8 workers run (worker 8 of 9, say): SchedStart's precondition fails for that thread, where the source writes past the end of profiling_i and profiling_log. |
| Profiling.ThreadRowPresent | src/managers/TaskScheduling.cpp:46-47 | A log built with one row per possible worker thread (MAX_NUM_WORKER_THREADS = 32) has a row for every worker of up to 32 threads, so every worker can log. |
| Profiling.IndexAfterNext | src/managers/TaskScheduling.cpp:245 | One more task advances the index by one, wrapping like a uint32. |
| Profiling.SlotAfter | src/managers/TaskScheduling.cpp:242-245 | Because 2^32 is a multiple of 256, the uint32 wrap-around does not disturb the ring: n tasks later the slot has moved on by n, modulo 256. |
| Profiling.SlotsDistinct | src/managers/TaskScheduling.cpp:218 | So any 256 consecutive tasks of one thread fill 256 different slots. |
| Profiling.Cycles | src/managers/TaskScheduling.cpp:229 | The difference is a uint64 value, and is the exact difference when the counter did not wrap between the readings. |
| Profiling.Profiler.constructor | src/managers/TaskScheduling.cpp:46-49 | The zero-initialised globals, with the given number of rows in each of the four arrays: PROFILING_THREADS as the source declares them, MAX_NUM_WORKER_THREADS for a row per possible worker. |
| Profiling.Profiler.SchedStart | src/managers/TaskScheduling.cpp:215-222 | prof_sched_start: the current slot's sched_start, and the rdtscp mark. |
| Profiling.Profiler.SchedEndExecStart | src/managers/TaskScheduling.cpp:224-236 | prof_sched_end_exec_start: the cycles spent scheduling (uint64 difference), sched_end, the task's checkpoints and stack, and the next rdtscp mark. |
| Profiling.Profiler.ExecEnd | src/managers/TaskScheduling.cpp:238-247 | prof_exec_end: the cycles spent executing, exec_end, and ++profiling_i. |
| Profiling.Profiler.WriteThread | src/managers/TaskScheduling.cpp:257-270 | One thread's part of write_profiling: its header, then its 256 items. |
| Profiling.Profiler.WriteProfiling | src/managers/TaskScheduling.cpp:249-275 | write_profiling: the first numWorkers rows, each under its header, every item as its fields line and a dashes line. The file is returned as its lines, each with its newline; `show` is how the stream prints a double. |
| Profiling.Profiler.DumpOfRows | src/managers/TaskScheduling.cpp:255-271 | What write_profiling writes is the dump of the log's first n rows. |
| Profiling.DumpAppend | src/managers/TaskScheduling.cpp:255-271 | Dumping one more row appends its header and its items. |
| RenderingSystem.DependencyChain | src/systems/rendering/Rendering.cpp:42-186 | The frame's pipeline: group 1 waits for the input system, each later group for the group before it, the overlay tasks for group 3, the present task for the overlay, and the re-submission for the present task. |
| RenderingSystem.OverlayPerThread | src/systems/rendering/Rendering.cpp:68-87 | Slot k carries the overlay counter exactly when it is one of the `workers` slots after the present task, and the task there logs worker thread k - 3 of this iteration: each worker's profiling count is collected by exactly one task. |
| RenderingSystem.GroupsOfTen | src/systems/rendering/Rendering.cpp:42-186 | Slot k carries group g's counter exactly when it is one of the ten slots from GroupStart(g), and those slots all run task_group<g>. |
| RenderingSystem.SystemState.constructor | src/systems/rendering/Rendering.cpp:16-40 | The system's statics start with an allocator that has not claimed a block, the three group counters and the overlay counter, start time and write offset. |
| RenderingSystem.SystemState.ArmCounters | src/systems/rendering/Rendering.cpp:69-153 | The stores of lines 69-71, 90, 122 and 153: the overlay latch is armed with workers - 1 (as a uint32), the overlay start time and write offset are zeroed, and each group latch is armed with 9. |
| RenderingSystem.SystemState.SubmitTasks | src/systems/rendering/Rendering.cpp:42-186 | submit_tasks with `workers` worker threads: the argument allocator starts over, the overlay counter is armed with workers - 1 (as a uint32), the overlay start time and write offset are zeroed, each group counter is armed with 9, the stack from slot 1 becomes Layout, and the stack word is published with its length. Slot 0 and every other stack are left alone. |
| RenderingSystem.OneOverlayReport | src/systems/rendering/Rendering.cpp:329-334 | With at least one worker, the overlay latch reports WRITE_PERF_OVERLAY once, from the last overlay task. |
| RenderingSystem.GenerationsInTurn | src/systems/rendering/Rendering.cpp:242 | The four generations are used in turn: the next three iterations read other generations, and the fourth iteration after reads the same one again. |
| RenderingSystem.WritePerfOverlayRun | src/systems/rendering/Rendering.cpp:237-335 | write_perf_overlay_task without the key-P drawing: it takes the number of items its thread logged in the generation of two iterations ago and resets that count, then counts the overlay latch down; the task that saw 0 reports WRITE_PERF_OVERLAY. `logged` is the [4][threads] count table the task indexes. |
| RenderingSystem.TakeCount | src/systems/rendering/Rendering.cpp:243-244 | Read one count of the table and reset it; no other count changes. |
| RenderingSystem.PresentTaskRun | src/systems/rendering/Rendering.cpp:337-355 | present_task: draws the frame and reports that it was presented. |
| RenderingSystem.IndependentTaskRun | src/systems/rendering/Rendering.cpp:188-193 | independent_task: reports nothing; no submitted slot runs it. |
| RenderingSystem.TaskGroupRun | src/systems/rendering/Rendering.cpp:195-235 | task_group1/2/3: count the group's latch down; the task that saw 0 reports RENDERING<g>, every other task none. |
| Scheduler.Scheduler.constructor | src/managers/TaskScheduling.cpp:23-30 | The statics before init_scheduler: zero-initialised. |
| Scheduler.Scheduler.InitScheduler | src/managers/TaskScheduling.cpp:62-77 | init_scheduler: slot 0 of every stack gets dont_do_it with the stack's own index; the idle stacks 5 .. 15 are parked at iteration 0x7FFFFFFF; the priority word allows stacks 0 .. 4 around main stack 0; both checkpoint words become all ones. |
| Scheduler.Scheduler.ReadStack | src/managers/TaskScheduling.cpp:102-112 | Read the stack word of stack s and decide whether the task on top of it is blocked. |
| Scheduler.Scheduler.SelectStack | src/managers/TaskScheduling.cpp:89-127 | The stack search of lines 89-127, up to the point where the mask is exhausted and would be reloaded: the previous stack first if it is allowed and current, else the main stack, then the other allowed stacks by increasing offset from the main stack; the first whose top task can run is chosen. None when every candidate is blocked. |
| Scheduler.Scheduler.WalkStacks | src/managers/TaskScheduling.cpp:99-127 | The do-while of lines 99-127 from the first stack to try: each blocked stack hands on to the lowest set bit of what is left of the mask, until a stack can run or the mask is exhausted. |
| Scheduler.Scheduler.Pop | src/managers/TaskScheduling.cpp:127 | The successful compare-exchange of line 127: the stack word loses its top task (and, by PopKeepsIteration, keeps its iteration field). Returns the task that was on top. |
| Scheduler.Scheduler.TakeTask | src/managers/TaskScheduling.cpp:127-131 | The worker takes the top task off the stack and decrements its stack word. When the popped count was 1 (the last task above dont_do_it), the stack's iteration is incremented and the priority word recomputed from the new iterations before the task runs. Any other pop leaves the iterations and the priority word unchanged. |
| Scheduler.Scheduler.FinishIteration | src/managers/TaskScheduling.cpp:129-182 | Lines 129-182, run by the worker that popped the last task above dont_do_it: the stack's iteration goes up by one (uint32 fetch_add) and the priority word is recomputed from the iterations. The scheduler stays valid while the active stack stays below the idle level. |
| Scheduler.Scheduler.CountExecution | src/managers/TaskScheduling.cpp:191-194 | One more task is counted (uint32 fetch_add); the worker that takes the counter from exactly 10000000 signals shutdown. |
| Scheduler.Scheduler.ReportCheckpoints | src/managers/TaskScheduling.cpp:198-201 | The checkpoints a task reports are XOR-ed into the checkpoint word of the frame of the stack word it was popped under; nothing is written when it reports none. With FrameWord and ReportToggles: the frame reads the reported bits toggled. |
| Scheduler.FrameWord | src/managers/TaskScheduling.cpp:108-109 | WordIndex picks the word that WordFor reads for the stack word's frame. |
| Scheduler.FinishKeepsValid | src/managers/TaskScheduling.cpp:129-182 | A stack finishing an iteration keeps the scheduler valid: with its iteration still below the idle level, the iterations stay active and the recomputed priority word is well formed. |
| Scheduler.CandidatesInRange | src/managers/TaskScheduling.cpp:96-124 | Every candidate of a well-formed priority word is one of the stacks. |
| Scheduler.FirstTry | src/managers/TaskScheduling.cpp:96-98 | The first stack to try, and the mask of the others with its bit cleared; together they are the candidate order. |
| Scheduler.NextTry | src/managers/TaskScheduling.cpp:122-124 | The next stack to try, by the lowest set bit of what is left of the mask, and the mask without that bit; the walk goes on with the rest. |
| Scheduler.FirstReadyMeaning | src/managers/TaskScheduling.cpp:99-127 | FirstReady finds a runnable candidate, and every candidate before it is blocked; it finds none exactly when every candidate is blocked. |
| Submit.Plain | src/systems/input/Input.cpp:84-91 | The task carries the entry's routine and checkpoints, with no argument block. |
| Submit.PushTasks | src/systems/animation/Animation.cpp:24-107 | The body of a submit_tasks, block after block: for each entry, ++stack_size, a placement new of its argument struct when it has one (args stays nullptr otherwise), and the task written at the new stack_size. Returns the new stack_size; only those slots change. |
| Submit.PushTask | src/systems/animation/Animation.cpp:54-62 | One block of a submit_tasks: the entry's argument struct is placed in the allocator when it has one, and its task is written into slot `slot`; no other slot changes. |
| Submit.PublishStack | src/systems/animation/Animation.cpp:109 | The closing store of every submit_tasks: the stack word becomes the system's iteration and the new stack size, and no other stack word changes. |
| Submit.WriteStack | src/systems/animation/Animation.cpp:24-112 | A whole submit_tasks after task_args_memory.Clear(): the stack from slot 1 becomes `layout` and the stack word is published with its length. Slot 0, the slots above the layout and every other stack are left alone. |
| Tasks.Publish | src/systems/animation/Animation.cpp:109 | The count field of the published word is stack_size and its iteration field is the iteration's low 25 bits. |
| Tasks.PopKeepsIteration | src/managers/TaskScheduling.cpp:127 | The pop of line 127: one task fewer, same iteration field, when the count is not 0. |
| Text.Decimal | src/managers/TaskScheduling.cpp:264-268 | An ostream writes an unsigned integer as a non-empty run of decimal digits; DecimalRoundTrip reads the number back from it. |
| Text.DecimalRoundTrip | debug/process_debug.py:25 | Reading back what Decimal wrote gives the number. |
| Text.NoDashRun | debug/process_debug.py:22 | A text without two adjacent dashes does not contain "----". |
| Text.StripPadded | debug/process_debug.py:25 | Stripping a field padded with whitespace gives the field back. |
| Vulkan.ChooseSwapSurfaceFormat | src/systems/rendering/Vulkan.cpp:392-409 | choose_swap_surface_format: a lone UNDEFINED entry means any format will do, and the preferred one is taken; otherwise the preferred pair when the surface lists it, else the first listed format. The caller only asks for a device that lists at least one format. |
| Vulkan.ChooseSwapPresentMode | src/systems/rendering/Vulkan.cpp:411-423 | choose_swap_present_mode: MAILBOX when the surface offers it, FIFO otherwise. |
| Vulkan.ChooseSwapExtent | src/systems/rendering/Vulkan.cpp:425-441 | choose_swap_extent: the surface's current extent, unless its width is 0xFFFFFFFF ("the swapchain decides"); then the window size, each axis raised to the minimum after being lowered to the maximum. |
| Vulkan.ImageCountAsWritten | src/systems/rendering/Vulkan.cpp:312-317 | The count as lines 312-317 compute it: minImageCount + 1, lowered to maxImageCount whenever minImageCount is non-zero. |
| Vulkan.NoLimitGivesNoImages | src/systems/rendering/Vulkan.cpp:312-317 | A maximum of 0 means "no limit", but the guard tests the minimum: a surface reporting minImageCount 2 and maxImageCount 0 gets a request for 0 images, below its minimum. |
| Vulkan.ImagesWithinLimits | src/systems/rendering/Vulkan.cpp:312-317 | With the guard on the maximum, the request is never below the surface's minimum nor above a maximum it reports, and is one above the minimum when that fits. |
| Vulkan.ImageCount | src/systems/rendering/Vulkan.cpp:312-317 | The count with the guard on the maximum: minImageCount + 1, lowered to maxImageCount only when a maximum is reported. |
| Vulkan.FindQueueFamilies | src/systems/rendering/Vulkan.cpp:215-246 | find_queue_families: every family is inspected in order, a graphics or present family found overwrites the index found before, and the search stops at the first index where both have been found. So the indices are complete exactly when the device has both kinds; the later of the two is the first index where both have been seen; and each is the last family of its kind up to there. |
| Vulkan.ImageSharing | src/systems/rendering/Vulkan.cpp:329-346 | The sharing rule of create_swapchain: images are shared concurrently between the graphics and the present family when they differ, and owned exclusively, with no family list, when they are the same. |
| Vulkan.UniqueFamilies | src/systems/rendering/Vulkan.cpp:272 | Both families appear, nothing else does, and the list is strictly ascending, so a shared family appears once. |
| Vulkan.QueueCreateInfos | src/systems/rendering/Vulkan.cpp:268-283 | The loop of create_logical_device: one create-info with one queue for each distinct family, in ascending order. |
| Vulkan.SharingMatchesQueues | src/systems/rendering/Vulkan.cpp:329-346 | Concurrent sharing goes with two device queues, exclusive ownership with one. |
| Vulkan.FindMemoryType | src/systems/rendering/Vulkan.cpp:1034-1046 | find_memory_type: the lowest suitable memory type. Without one the source reaches assert(false) and falls off the end; that case is None here. |
| Vulkan.CheckDeviceExtensionSupport | src/systems/rendering/Vulkan.cpp:250-265 | check_device_extension_support: the required names go into a set, every available name is erased from it, and the device passes when nothing is left; that is, exactly when every required name is available. |
| Vulkan.OverlayIndicesInRange | src/systems/rendering/Vulkan.cpp:856-865 | Every overlay index names one of the overlay's vertices, and each quad uses its own four. |
| Vulkan.OverlayIndices | src/systems/rendering/Vulkan.cpp:856-865 | The fill loop of create_index_buffer: quad i gets [4i, 4i+1, 4i+2, 4i+2, 4i+3, 4i]. |
| Vulkan.FillQuad | src/systems/rendering/Vulkan.cpp:857-864 | One pass of the fill loop: the six entries of quad i, and no others. |
| Vulkan.CreateSwapchainRequest | src/systems/rendering/Vulkan.cpp:304-346 | create_swapchain's selections for a suitable device: format, present mode, extent, the image count with the guard on the maximum, and the sharing rule for the families found. |

## Left out

- Concurrency is not modelled. The compare-exchange retry loops, memory orders, fences, and the interleaving of several workers are left out; each operation is modelled as one atomic step taken by one worker.
- The refill of the stack search is left out. When the mask runs out, the source reloads the priority word and keeps searching (TaskScheduling.cpp:116-121). `Scheduler.Scheduler.SelectStack` stops at that point and returns None.
- The SSE intrinsics of the priority recomputation are modelled by their scalar meaning (adjusted iterations, their minimum, the equality mask), not instruction by instruction. Those of the key packing and key queries are modelled lane by lane.
- `rdtscp` and `high_resolution_clock` readings are parameters of the profiling methods. `timepoint_to_double` is left out.
- How an ostream prints a double, and how Python's `float()` reads one back, are parameters (`show`, `parse`). Integers are written exactly (`Text.Decimal`, `Text.DecimalRoundTrip`) and read back exactly when they have at most 15 digits.
- File I/O (the ofstream of `write_profiling`, `open`/`close` in the converter) is left out. The dump is a sequence of lines and the HTML a sequence of elements.
- Every Vulkan API call is left out: instance, device, swapchain, buffers, command buffers, `draw_frame`, `update_transforms`. What the driver reports is a parameter.
- The overlay geometry drawn by `write_perf_overlay_task` when key P is held (rendering/Rendering.cpp:246-327) and the frame-time printout of `present_task` are left out. `RenderingSystem.WritePerfOverlayRun` keeps the count reset and the latch.
- `rendering/Rendering.cpp:243` indexes `profiling_i` in two dimensions, `[iteration & 3][thread]`. The scheduler's `profiling_i` is one-dimensional (TaskScheduling.cpp:46). The two files come from different revisions, so the overlay task works on its own 4 × threads count table.
- The `input_loop` handshake (mutex, condition variable, `gather_input`/`input_gathered`/`quit_request`), `glfwPollEvents`, `glfwWindowShouldClose` and `signal_shutdown` are left out. Polling is the key callbacks it triggers, and a quit request is a parameter of `InputSystem.SystemState.InputTaskRun`.
- `usleep` in the simulated tasks and the printing of `dont_do_it` are left out.
- `ConcurrentLinearAllocator32kb` and `clear_memory` are left out; no modelled system uses them.
- The following are not part of this model: `src/systems/Input.cpp`, the physics and AI systems, `main` in `src/gemini.cpp`, and the prototype files at the repository root (`gemini.cpp`, `TaskScheduling.cpp`, `TaskScheduling.h`, `Animation.h`).
- The checkpoints `SCP_RENDERING4`, `SCP_RENDERING_PRESENT` and `SCP_RENDERING_WRITE_PERF_OVERLAY` are used by the systems but not declared in `src/managers/TaskScheduling.h`. The model gives them bits 18, 19 and 20.
- The thread count is a parameter. `NUM_WORKER_THREADS` is read from standard input with no check (src/gemini.cpp:19-22). The model assumes it lies between 1 and `MAX_NUM_WORKER_THREADS` (32). As written, 0 is accepted, and more than 32 overflows `workers[32]` at src/gemini.cpp:42; neither case is modelled. The window size `WIDTH`/`HEIGHT` is a parameter as well.
- ProcessDebug.ParseFloat: a digit string longer than 15 digits is left to `parse`. From 2^53 on, `float()` rounds to the nearest double: `float("9007199254740993")` is 9007199254740992.0. The model reads exactly only up to 15 digits (below 10^15), a safe bound inside 2^53. So the read-back lemmas (`DumpRoundTrip.FieldsRead` up to `DumpRoundTrip.DumpReadBack`) require every integer field of the log to be below 10^15. A wrapped uint64 cycle count (`Profiling.Cycles`) can exceed that; the model says nothing about what the converter reads back for it.
- ProcessDebug.ScanTotals: the script's totals, averages and box coordinates are IEEE doubles. The model adds and divides them as exact reals, so rounding in the sums is not modelled.
- Memory.Pool.constructor: the pool address is a parameter. `malloc` failing (the assert of Memory.cpp:22) is not modelled.
- InputEvents.AddPressedNoWrap: states the down keys as a multiset only when the down count does not wrap past 8. With a wrap, older keys are overwritten; `InputEvents.AppendRing` states the ring contents for every input.
- InputEvents.DownAfterFrame: same restriction as `InputEvents.AddPressedNoWrap`, for the same reason.
- Memory.LinearAllocator32kb.Init: requires a free block. As written, the search reads past the eight masks when none is free; see Findings.
- Memory.LinearAllocator32kb.Allocate: the assert of Memory.cpp:70 is taken as the precondition. What happens when it fails is not modelled.
- Scheduler.Scheduler.FinishIteration: stays valid only while the bumped stack's iteration is below the idle level 0x7FFFFFFF. An active stack reaching that level after 2^31 iterations is not modelled.
- The per-stack iteration-count invariant that a published stack word implies across stacks (PublishCountsDown) is not stated. `Tasks.PopKeepsIteration` covers each pop on its own.

## Findings

| source | as written | input that shows it | evidently intended | confidence | as-written member | corrected member |
|---|---|---|---|---|---|---|
| src/managers/Memory.cpp:44-47 | When every mask is zero, the search increments `segment` up to 8 and `assert(segment < 9)` lets it through, so the next pass reads `_mem512x32kb_allocmask[8]`, one past the eight masks | every block of the pool taken (all eight masks 0) when `Init` runs | the search stays within the eight masks (`segment < 8`); a full pool is an error | high, not executed | Memory.SearchGuardAdmitsNinthMask | Memory.LinearAllocator32kb.FindSegment |
| src/systems/rendering/Vulkan.cpp:312-317 | The clamp to `maxImageCount` is guarded by `minImageCount > 0`, so a surface reporting no maximum (`maxImageCount == 0`) gets a request for 0 images | `minImageCount = 2`, `maxImageCount = 0` | clamp only when a maximum is reported (`maxImageCount > 0`) | high, not executed | Vulkan.NoLimitGivesNoImages | Vulkan.ImagesWithinLimits |
| src/managers/TaskScheduling.cpp:46-47 | `profiling_i` and `profiling_log` have `PROFILING_THREADS = 8` rows, but each worker indexes them with its thread id, up to the thread count read unchecked at src/gemini.cpp:21 (this model assumes at most 32) | 9 worker threads: thread 8 writes past the last row | one row per possible worker thread (`MAX_NUM_WORKER_THREADS = 32`) | medium, not executed | Profiling.ThreadRowMissingAsWritten | Profiling.ThreadRowPresent |
